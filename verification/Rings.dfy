/** The circular doubly linked lists of src/queue.h. */
module Rings {
  import opened Seqs

  class Link {
    var next: Link
    var prev: Link

    /** QUEUE_INIT of new storage. */
    constructor ()
      ensures Ring(this, [])
    {
      next, prev := this, this;
    }
  }

  /** The i-th link of a ring counted from its head, which is also one past the last. */
  ghost function Pos(h: Link, s: seq<Link>, i: int): Link
    requires 0 <= i <= |s| + 1
  {
    if i == 0 || i == |s| + 1 then h else s[i - 1]
  }

  ghost predicate Joined(a: Link, b: Link)
    reads a, b
  {
    a.next == b && b.prev == a
  }

  /** `h` is the head of a ring through the elements of `s`, in that order. */
  ghost predicate Ring(h: Link, s: seq<Link>)
    reads {h} + Set(s)
  {
    && h !in s && NoDup(s)
    && forall i :: 0 <= i <= |s| ==> Joined(Pos(h, s, i), Pos(h, s, i + 1))
  }

  /** QUEUE_INIT. */
  method Init(q: Link)
    modifies q
    ensures Ring(q, [])
  {
    q.next := q;
    q.prev := q;
  }

  /** QUEUE_EMPTY. */
  method Empty(h: Link, ghost s: seq<Link>) returns (r: bool)
    requires Ring(h, s)
    ensures r <==> s == []
  {
    assert Joined(Pos(h, s, 0), Pos(h, s, 1));
    r := h == h.next;
  }

  /** QUEUE_HEAD. */
  method Head(h: Link, ghost s: seq<Link>) returns (q: Link)
    requires Ring(h, s) && s != []
    ensures q == s[0]
  {
    assert Joined(Pos(h, s, 0), Pos(h, s, 1));
    q := h.next;
  }

  /** QUEUE_INSERT_HEAD. */
  method InsertHead(h: Link, q: Link, ghost s: seq<Link>)
    requires Ring(h, s) && q != h && q !in s
    modifies h, q, Set(s)
    ensures Ring(h, [q] + s)
  {
    assert Joined(Pos(h, s, 0), Pos(h, s, 1));
    q.next := h.next;
    q.prev := h;
    q.next.prev := q;
    h.next := q;
    ghost var t := [q] + s;
    forall i | 0 <= i <= |t| ensures Joined(Pos(h, t, i), Pos(h, t, i + 1)) {
      if i > 0 { assert old(Joined(Pos(h, s, i - 1), Pos(h, s, i))); }
    }
  }

  /** QUEUE_INSERT_TAIL. */
  method InsertTail(h: Link, q: Link, ghost s: seq<Link>)
    requires Ring(h, s) && q != h && q !in s
    modifies h, q, Set(s)
    ensures Ring(h, s + [q])
  {
    assert Joined(Pos(h, s, |s|), Pos(h, s, |s| + 1));
    q.next := h;
    q.prev := h.prev;
    q.prev.next := q;
    h.prev := q;
    ghost var t := s + [q];
    forall i | 0 <= i <= |t| ensures Joined(Pos(h, t, i), Pos(h, t, i + 1)) {
      if i < |s| { assert old(Joined(Pos(h, s, i), Pos(h, s, i + 1))); }
    }
  }

  /** QUEUE_REMOVE. */
  method Remove(q: Link, ghost h: Link, ghost s: seq<Link>, ghost k: nat)
    requires Ring(h, s) && k < |s| && q == s[k]
    modifies h, Set(s)
    ensures Ring(h, s[..k] + s[k + 1..])
  {
    assert Joined(Pos(h, s, k), Pos(h, s, k + 1)) && Joined(Pos(h, s, k + 1), Pos(h, s, k + 2));
    q.prev.next := q.next;
    q.next.prev := q.prev;
    ghost var t := s[..k] + s[k + 1..];
    forall i | 0 <= i <= |t| ensures Joined(Pos(h, t, i), Pos(h, t, i + 1)) {
      if i < k { assert old(Joined(Pos(h, s, i), Pos(h, s, i + 1))); }
      else if i > k { assert old(Joined(Pos(h, s, i + 1), Pos(h, s, i + 2))); }
    }
  }

  /** QUEUE_REMOVE of a link that is in no list does nothing. */
  method RemoveAlone(q: Link)
    requires Ring(q, [])
    modifies q
    ensures Ring(q, [])
  {
    assert Joined(Pos(q, [], 0), Pos(q, [], 1));
    q.prev.next := q.next;
    q.next.prev := q.prev;
  }

  /** QUEUE_SPLIT: the part of the ring from `q` on becomes the ring of `n`. */
  method Split(h: Link, q: Link, n: Link, ghost s: seq<Link>, ghost k: nat)
    requires Ring(h, s) && k < |s| && q == s[k] && n != h && n !in s
    modifies h, n, Set(s)
    ensures Ring(h, s[..k]) && Ring(n, s[k..])
  {
    assert Joined(Pos(h, s, k), Pos(h, s, k + 1)) && Joined(Pos(h, s, |s|), Pos(h, s, |s| + 1));
    n.prev := h.prev;
    n.prev.next := n;
    n.next := q;
    h.prev := q.prev;
    h.prev.next := h;
    q.prev := n;
    ghost var a, b := s[..k], s[k..];
    forall i | 0 <= i <= |a| ensures Joined(Pos(h, a, i), Pos(h, a, i + 1)) {
      if i < k { assert old(Joined(Pos(h, s, i), Pos(h, s, i + 1))); }
    }
    forall i | 0 <= i <= |b| ensures Joined(Pos(n, b, i), Pos(n, b, i + 1)) {
      if 0 < i < |b| { assert old(Joined(Pos(h, s, k + i), Pos(h, s, k + i + 1))); }
    }
  }

  /** QUEUE_MOVE. */
  method Move(h: Link, n: Link, ghost s: seq<Link>)
    requires Ring(h, s) && n != h && n !in s
    modifies h, n, Set(s)
    ensures Ring(h, []) && Ring(n, s)
  {
    var empty := Empty(h, s);
    if empty {
      Init(n);
    } else {
      var q := Head(h, s);
      Split(h, q, n, s, 0);
      assert s[..0] == [] && s[0..] == s;
    }
  }

  /** QUEUE_ADD: the elements of the ring of `n` are moved to the end of the ring of `h`. */
  method Add(h: Link, n: Link, ghost s: seq<Link>, ghost t: seq<Link>)
    requires Ring(h, s) && Ring(n, t) && h != n && h !in t && n !in s && (forall x :: x in s ==> x !in t)
    modifies h, n, Set(s), Set(t)
    ensures Ring(h, s + t)
  {
    assert Joined(Pos(h, s, |s|), Pos(h, s, |s| + 1)) && Joined(Pos(n, t, 0), Pos(n, t, 1));
    assert Joined(Pos(n, t, |t|), Pos(n, t, |t| + 1));
    h.prev.next := n.next;
    n.next.prev := h.prev;
    h.prev := n.prev;
    h.prev.next := h;
    ghost var u := s + t;
    NoDupConcat(s, t);
    forall i | 0 <= i <= |u| ensures Joined(Pos(h, u, i), Pos(h, u, i + 1)) {
      if i < |s| { assert old(Joined(Pos(h, s, i), Pos(h, s, i + 1))); }
      else if |s| < i < |u| { assert old(Joined(Pos(n, t, i - |s|), Pos(n, t, i - |s| + 1))); }
    }
  }
}
