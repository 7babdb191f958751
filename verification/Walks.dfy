/** A walk that moves a list aside and calls its elements one by one, while the callbacks may take
    elements out: the shape of uv__run_idle and of uv__inotify_read. */
module Walks {
  import opened Seqs

  /** What a callback may do: start a handle, with some argument, or stop one. */
  datatype Op<T, A> = Start(h: T, arg: A) | Stop(h: T)

  /** The handles that a callback stops. */
  function StopsOf<T, A>(ops: seq<Op<T, A>>): seq<T> {
    if ops == [] then []
    else
      var last := ops[|ops| - 1];
      StopsOf(ops[..|ops| - 1]) + if last.Stop? then [last.h] else []
  }

  function Stops<T, A>(script: seq<seq<Op<T, A>>>): (r: seq<seq<T>>)
    ensures |r| == |script| && forall n :: 0 <= n < |r| ==> r[n] == StopsOf(script[n])
  {
    seq(|script|, n requires 0 <= n < |script| => StopsOf(script[n]))
  }

  lemma NthStops<T, A>(script: seq<seq<Op<T, A>>>, n: nat)
    ensures Nth(Stops(script), n) == StopsOf(Nth(script, n))
  {}

  lemma StopsOfInit<T, A>(ops: seq<Op<T, A>>)
    requires ops != []
    ensures var out, init, last := StopsOf(ops), StopsOf(ops[..|ops| - 1]), ops[|ops| - 1];
            if last.Stop? then out != [] && out[..|out| - 1] == init && out[|out| - 1] == last.h else out == init
  {}

  /** A list after elements were taken out, in that order. */
  function Minus<T(==)>(s: seq<T>, out: seq<T>): (r: seq<T>)
    ensures |r| <= |s|
    decreases |out|
  {
    if out == [] then s else Drop(Minus(s, out[..|out| - 1]), out[|out| - 1])
  }

  lemma {:induction false} MinusElems<T>(s: seq<T>, out: seq<T>)
    requires NoDup(s)
    ensures NoDup(Minus(s, out)) && Set(Minus(s, out)) == Set(s) - Set(out)
    decreases |out|
  {
    if out != [] {
      var init, last := out[..|out| - 1], out[|out| - 1];
      MinusElems(s, init);
      DropElems(Minus(s, init), last);
      assert out == init + [last];
      assert Set(out) == Set(init) + {last};
    }
  }

  /** What the n-th callback takes out. */
  function Nth<T>(script: seq<seq<T>>, n: nat): seq<T> { if n < |script| then script[n] else [] }

  /** The calls that a walk makes from its n-th call on. */
  function Calls<T(==)>(walk: seq<T>, script: seq<seq<T>>, n: nat): seq<T>
    decreases |walk|
  {
    if walk == [] then [] else [walk[0]] + Calls(Minus(walk[1..], Nth(script, n)), script, n + 1)
  }

  /** Callback i of the walk, counted from the n-th, takes out x. */
  predicate TakenBy<T(==)>(script: seq<seq<T>>, n: nat, i: nat, x: T) { x in Nth(script, n + i) }

  /** Each element of the walk is called exactly once if no earlier callback of the walk takes it out,
      and otherwise not at all; nothing else is called. */
  lemma {:induction false} EachOnce<T>(walk: seq<T>, script: seq<seq<T>>, n: nat)
    requires NoDup(walk)
    ensures var e := Calls(walk, script, n);
            && NoDup(e) && Set(e) <= Set(walk)
            && (forall i, j :: 0 <= i < j < |e| ==> !TakenBy(script, n, i, e[j]))
            && (forall x :: x in Set(walk) - Set(e) ==> exists i :: 0 <= i < |e| && TakenBy(script, n, i, x))
    decreases |walk|
  {
    if walk != [] {
      var rest := Minus(walk[1..], Nth(script, n));
      NoDupTail(walk);
      SetHead(walk);
      MinusElems(walk[1..], Nth(script, n));
      assert walk[0] !in Set(walk[1..]);
      EachOnce(rest, script, n + 1);
      OneMore(walk, rest, Calls(rest, script, n + 1), script, n, n + 1);
    }
  }

  lemma OneMore<T>(walk: seq<T>, rest: seq<T>, f: seq<T>, script: seq<seq<T>>, n: nat, m: nat)
    requires m == n + 1 && walk != [] && Set(rest) == Set(walk) - {walk[0]} - Set(Nth(script, n))
    requires NoDup(f) && Set(f) <= Set(rest)
    requires forall i, j :: 0 <= i < j < |f| ==> !TakenBy(script, m, i, f[j])
    requires forall x :: x in Set(rest) - Set(f) ==> exists i :: 0 <= i < |f| && TakenBy(script, m, i, x)
    ensures var e := [walk[0]] + f;
            && NoDup(e) && Set(e) <= Set(walk)
            && (forall i, j :: 0 <= i < j < |e| ==> !TakenBy(script, n, i, e[j]))
            && (forall x :: x in Set(walk) - Set(e) ==> exists i :: 0 <= i < |e| && TakenBy(script, n, i, x))
  {
    var e := [walk[0]] + f;
    SetHead(e);
    assert walk[0] in Set(walk);
    assert walk[0] !in Set(f);
    NoDupConcat([walk[0]], f);
    forall i, j | 0 <= i < j < |e| ensures !TakenBy(script, n, i, e[j]) {
      assert e[j] == f[j - 1] && f[j - 1] in Set(f);
      if i > 0 {
        assert !TakenBy(script, m, i - 1, f[j - 1]);
        assert m + (i - 1) == n + i;
      } else {
        assert f[j - 1] !in Set(Nth(script, n));
      }
    }
    forall x | x in Set(walk) - Set(e) ensures exists i :: 0 <= i < |e| && TakenBy(script, n, i, x) {
      if x in Nth(script, n) {
        assert TakenBy(script, n, 0, x);
      } else {
        assert x in Set(rest) - Set(f);
        var i :| 0 <= i < |f| && TakenBy(script, m, i, x);
        assert m + i == n + (i + 1);
        assert TakenBy(script, n, i + 1, x);
      }
    }
  }

  // ---------------------------------------------------------------- told by the calls that callbacks make

  lemma {:induction false} StopsOfAre<T, A>(ops: seq<Op<T, A>>, x: T)
    ensures x in StopsOf(ops) <==> Stop(x) in ops
    decreases |ops|
  {
    if ops != [] {
      StopsOfAre(ops[..|ops| - 1], x);
      assert ops == ops[..|ops| - 1] + [ops[|ops| - 1]];
    }
  }

  /** Callback i makes the call Stop(x). */
  ghost predicate StopsAt<T, A>(script: seq<seq<Op<T, A>>>, i: nat, x: T) { i < |script| && Stop(x) in script[i] }

  /** A walk calls an element exactly once unless the callback of an earlier call stops it, and then not at all. */
  lemma CalledOnce<T, A>(walk: seq<T>, script: seq<seq<Op<T, A>>>)
    requires NoDup(walk)
    ensures var e := Calls(walk, Stops(script), 0);
            && NoDup(e) && (forall x :: x in e ==> x in walk)
            && (forall i, j :: 0 <= i < j < |e| ==> !StopsAt(script, i, e[j]))
            && (forall x :: x in walk && x !in e ==> exists i :: 0 <= i < |e| && StopsAt(script, i, x))
  {
    hide Calls, Stops;
    var e := Calls(walk, Stops(script), 0);
    EachOnce(walk, Stops(script), 0);
    forall x | x in e ensures x in walk { assert x in Set(e); }
    forall i, j | 0 <= i < j < |e| ensures !StopsAt(script, i, e[j]) {
      assert !TakenBy(Stops(script), 0, i, e[j]);
      TakenIsStopped(script, i, e[j]);
    }
    forall x | x in walk && x !in e ensures exists i :: 0 <= i < |e| && StopsAt(script, i, x) {
      assert x in Set(walk) - Set(e);
      var i :| 0 <= i < |e| && TakenBy(Stops(script), 0, i, x);
      TakenIsStopped(script, i, x);
    }
  }

  lemma TakenIsStopped<T, A>(script: seq<seq<Op<T, A>>>, i: nat, x: T)
    ensures TakenBy(Stops(script), 0, i, x) <==> StopsAt(script, i, x)
  {
    NthStops(script, i);
    if i < |script| { StopsOfAre(script[i], x); }
  }

  /** The calls of m callbacks, from the n-th on. */
  ghost function Made<T, A>(script: seq<seq<Op<T, A>>>, n: nat, m: nat): seq<Op<T, A>>
    decreases m
  {
    if m == 0 then [] else (if n < |script| then script[n] else []) + Made(script, n + 1, m - 1)
  }

  /** Is `h` active after the calls: some good start of it has no Stop after it, or it was active and there is no Stop. */
  ghost predicate ActiveBy<T, A>(ops: seq<Op<T, A>>, h: T, was: bool, good: A -> bool) {
    || (exists i :: 0 <= i < |ops| && Begins(ops[i], h, good) && NoStop(ops, i + 1, h))
    || (was && NoStop(ops, 0, h))
  }

  ghost predicate Begins<T, A>(op: Op<T, A>, h: T, good: A -> bool) { op.Start? && op.h == h && good(op.arg) }

  ghost predicate NoStop<T, A>(ops: seq<Op<T, A>>, i: int, h: T) {
    forall j :: 0 <= i <= j < |ops| ==> !(ops[j].Stop? && ops[j].h == h)
  }

  lemma ActiveByLast<T, A>(ops: seq<Op<T, A>>, h: T, was: bool, good: A -> bool)
    requires ops != []
    ensures var init, last := ops[..|ops| - 1], ops[|ops| - 1];
            ActiveBy(ops, h, was, good) <==>
              Begins(last, h, good) || (!(last.Stop? && last.h == h) && ActiveBy(init, h, was, good))
  {
    var init, last := ops[..|ops| - 1], ops[|ops| - 1];
    if Begins(last, h, good) {
      assert Begins(ops[|ops| - 1], h, good) && NoStop(ops, |ops| - 1 + 1, h);
    } else if !(last.Stop? && last.h == h) {
      if i :| 0 <= i < |init| && Begins(init[i], h, good) && NoStop(init, i + 1, h) {
        assert Begins(ops[i], h, good) && NoStop(ops, i + 1, h);
      }
      if i :| 0 <= i < |ops| && Begins(ops[i], h, good) && NoStop(ops, i + 1, h) {
        assert Begins(init[i], h, good) && NoStop(init, i + 1, h);
      }
      assert NoStop(ops, 0, h) <==> NoStop(init, 0, h);
    }
  }

  lemma {:induction false} ActiveByConcat<T, A>(a: seq<Op<T, A>>, b: seq<Op<T, A>>, h: T, was: bool, good: A -> bool)
    ensures ActiveBy(a + b, h, was, good) <==> ActiveBy(b, h, ActiveBy(a, h, was, good), good)
    decreases |b|
  {
    hide ActiveBy;
    if b == [] {
      assert a + b == a;
      ActiveByNone(h, ActiveBy(a, h, was, good), good);
    } else {
      assert (a + b)[..|a + b| - 1] == a + b[..|b| - 1];
      ActiveByLast(a + b, h, was, good);
      ActiveByLast(b, h, ActiveBy(a, h, was, good), good);
      ActiveByConcat(a, b[..|b| - 1], h, was, good);
    }
  }

  lemma ActiveByNone<T, A>(h: T, was: bool, good: A -> bool)
    ensures ActiveBy<T, A>([], h, was, good) <==> was
  {}
}
