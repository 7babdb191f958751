/** Sequences that stand for queues: no element twice, and taking one out. */
module Seqs {

  ghost predicate NoDup<T>(q: seq<T>) {
    forall i, j :: 0 <= i < j < |q| ==> q[i] != q[j]
  }

  lemma NoDupAppend<T>(q: seq<T>, x: T)
    requires NoDup(q) && x !in q
    ensures NoDup(q + [x])
  {}

  lemma NoDupConcat<T>(a: seq<T>, b: seq<T>)
    requires NoDup(a) && NoDup(b) && forall x :: x in a ==> x !in b
    ensures NoDup(a + b)
  {
    forall i, j | 0 <= i < j < |a + b| ensures (a + b)[i] != (a + b)[j] {
      if i < |a| <= j { assert a[i] in a && b[j - |a|] in b; }
    }
  }

  lemma NoDupTail<T>(q: seq<T>)
    requires NoDup(q) && q != []
    ensures NoDup(q[1..]) && q[0] !in q[1..] && forall y :: y in q <==> y == q[0] || y in q[1..]
  {
    assert q == [q[0]] + q[1..];
  }

  ghost function Set<T>(s: seq<T>): set<T> { set x | x in s }

  /** The list after QUEUE_REMOVE of `x`, wherever it stands. */
  function Drop<T(==)>(s: seq<T>, x: T): (r: seq<T>)
    ensures |r| <= |s|
  {
    if s == [] then [] else if s[0] == x then s[1..] else [s[0]] + Drop(s[1..], x)
  }

  lemma {:induction false} DropAt<T>(s: seq<T>, k: nat)
    requires NoDup(s) && k < |s|
    ensures Drop(s, s[k]) == s[..k] + s[k + 1..]
  {
    if k > 0 {
      NoDupTail(s);
      DropAt(s[1..], k - 1);
      assert s[1..][..k - 1] == s[1..k] && s[1..][k - 1 + 1..] == s[k + 1..];
      assert s[..k] == [s[0]] + s[1..k];
    }
  }

  lemma {:induction false} DropElems<T>(s: seq<T>, x: T)
    requires NoDup(s)
    ensures NoDup(Drop(s, x)) && Set(Drop(s, x)) == Set(s) - {x}
  {
    if s != [] {
      NoDupTail(s);
      DropElems(s[1..], x);
      SetHead(s);
      if s[0] != x {
        SetHead([s[0]] + Drop(s[1..], x));
        assert s[0] !in Set(Drop(s[1..], x));
        NoDupConcat([s[0]], Drop(s[1..], x));
      }
    }
  }

  lemma SetHead<T>(s: seq<T>)
    requires s != []
    ensures Set(s) == {s[0]} + Set(s[1..])
  {
    assert s == [s[0]] + s[1..];
  }

  lemma {:induction false} DropNone<T>(s: seq<T>, x: T)
    requires x !in s
    ensures Drop(s, x) == s
  {
    if s != [] { DropNone(s[1..], x); }
  }

  /** What stays in, for elements that are values. */
  lemma {:induction false} DropIn<T(!new)>(s: seq<T>, x: T)
    ensures forall y :: y in Drop(s, x) ==> y in s
    ensures forall y :: y in s && y != x ==> y in Drop(s, x)
    ensures NoDup(s) ==> NoDup(Drop(s, x)) && x !in Drop(s, x)
  {
    if s != [] {
      DropIn(s[1..], x);
      if NoDup(s) { DropElems(s, x); assert x !in Set(Drop(s, x)); }
    }
  }
}
