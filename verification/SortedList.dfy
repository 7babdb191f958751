/** The list that replaces the heap under TUV_ENABLE_MEMORY_CONSTRAINTS (src/heap-inl.h):
    singly linked and kept in the order of the timeouts. */
module SortedList {
  import opened Seqs

  class Node {
    const timeout: nat
    var next: Node?

    constructor (t: nat)
      ensures timeout == t
    {
      timeout := t;
      next := null;
    }
  }

  ghost function NextOf(s: seq<Node>, i: int): Node? {
    if 0 <= i < |s| then s[i] else null
  }

  ghost function NodeSet(s: seq<Node>): set<Node> { set n | n in s }

  ghost predicate Linked(s: seq<Node>)
    reads NodeSet(s)
  {
    NoDup(s) && forall i :: 0 <= i < |s| ==> s[i].next == NextOf(s, i + 1)
  }

  ghost predicate Ascending(s: seq<Node>) {
    forall i, j :: 0 <= i < j < |s| ==> s[i].timeout <= s[j].timeout
  }

  /** `n` belongs behind every node that is due no later. */
  ghost predicate Slot(s: seq<Node>, n: Node, i: nat) {
    && i <= |s|
    && (forall j :: 0 <= j < i ==> s[j].timeout <= n.timeout)
    && (forall j :: i <= j < |s| ==> n.timeout < s[j].timeout)
  }

  lemma SlotFirst(s: seq<Node>, n: Node)
    requires Ascending(s) && (s != [] ==> n.timeout < s[0].timeout)
    ensures Slot(s, n, 0)
  {}

  lemma SlotAfter(s: seq<Node>, n: Node, k: nat)
    requires Ascending(s) && k < |s| && s[k].timeout <= n.timeout && (k + 1 < |s| ==> n.timeout < s[k + 1].timeout)
    ensures Slot(s, n, k + 1)
  {}

  ghost function Spliced(s: seq<Node>, n: Node, i: nat): seq<Node>
    requires i <= |s|
  {
    s[..i] + [n] + s[i..]
  }

  lemma SplicedAt(s: seq<Node>, n: Node, i: nat, j: int)
    requires i <= |s|
    ensures NextOf(Spliced(s, n, i), j) == if j < i then NextOf(s, j) else if j == i then n else NextOf(s, j - 1)
  {}

  lemma SplicedOk(s: seq<Node>, n: Node, i: nat)
    requires NoDup(s) && n !in s && Ascending(s) && Slot(s, n, i)
    ensures NoDup(Spliced(s, n, i)) && Ascending(Spliced(s, n, i))
  {}

  ghost function Without(s: seq<Node>, i: nat): seq<Node>
    requires i < |s|
  {
    s[..i] + s[i + 1..]
  }

  lemma WithoutAt(s: seq<Node>, i: nat, j: int)
    requires i < |s|
    ensures NextOf(Without(s, i), j) == if j < i then NextOf(s, j) else NextOf(s, j + 1)
  {}

  lemma WithoutOk(s: seq<Node>, i: nat)
    requires i < |s| && NoDup(s) && Ascending(s)
    ensures NoDup(Without(s, i)) && Ascending(Without(s, i))
  {}

  class List {
    var min: Node?
    ghost var s: seq<Node>

    ghost predicate Valid()
      reads this, NodeSet(s)
    {
      min == NextOf(s, 0) && Linked(s) && Ascending(s)
    }

    constructor ()
      ensures Valid() && s == []
    {
      min, s := null, [];
    }

    /** heap_insert. */
    method Insert(newnode: Node) returns (ghost i: nat)
      requires Valid() && newnode !in s
      modifies this, NodeSet(s), newnode
      ensures Valid() && Slot(old(s), newnode, i) && s == Spliced(old(s), newnode, i)
    {
      hide Ascending, NoDup, Slot, Spliced;
      var curr := min;
      if curr == null || newnode.timeout < curr.timeout {
        i := 0;
        SlotFirst(s, newnode);
        InsertFirst(curr, newnode);
        return;
      }
      ghost var k := 0;
      while curr.next != null
        invariant Valid() && s == old(s) && newnode !in s
        invariant 0 <= k < |s| && curr == s[k] && s[k].timeout <= newnode.timeout
        decreases |s| - k
      {
        if newnode.timeout < curr.next.timeout {
          i := k + 1;
          SlotAfter(s, newnode, k);
          InsertAfter(curr, newnode, k);
          return;
        }
        curr := curr.next;
        k := k + 1;
      }
      i := |s|;
      SlotAfter(s, newnode, k);
      InsertAfter(curr, newnode, k);
    }

    /** Lines 79-80 and, where `curr->next` is NULL, lines 89-90. */
    method InsertAfter(curr: Node, newnode: Node, ghost k: nat)
      requires Valid() && newnode !in s && k < |s| && curr == s[k] && Slot(s, newnode, k + 1)
      modifies this`s, curr, newnode
      ensures Valid() && s == Spliced(old(s), newnode, k + 1)
    {
      hide Ascending, Spliced, Slot;
      ghost var o := s;
      SplicedOk(s, newnode, k + 1);
      newnode.next := curr.next;
      curr.next := newnode;
      s := Spliced(s, newnode, k + 1);
      SplicedAt(o, newnode, k + 1, 0);
      Relinked(o, newnode, k + 1);
    }

    /** Lines 69-70. */
    method InsertFirst(curr: Node?, newnode: Node)
      requires Valid() && newnode !in s && curr == min && Slot(s, newnode, 0)
      modifies this, newnode
      ensures Valid() && s == Spliced(old(s), newnode, 0)
    {
      hide NoDup, Ascending, Spliced, Slot;
      ghost var o := s;
      SplicedOk(s, newnode, 0);
      newnode.next := curr;
      min := newnode;
      s := Spliced(s, newnode, 0);
      SplicedAt(o, newnode, 0, 0);
      Relinked(o, newnode, 0);
    }

    lemma Relinked(o: seq<Node>, n: Node, i: nat)
      requires i <= |o| && n !in o && NoDup(o) && NoDup(Spliced(o, n, i))
      requires forall j :: 0 <= j < |o| && j != i - 1 ==> o[j].next == NextOf(o, j + 1)
      requires i > 0 ==> o[i - 1].next == n
      requires n.next == NextOf(o, i)
      ensures Linked(Spliced(o, n, i))
    {
      var t := Spliced(o, n, i);
      forall j | 0 <= j < |t| ensures t[j].next == NextOf(t, j + 1) {
        SplicedAt(o, n, i, j);
        SplicedAt(o, n, i, j + 1);
      }
    }

    /** heap_remove: a node that is not in the list is left alone. */
    method Remove(node: Node)
      requires Valid()
      modifies this, NodeSet(s)
      ensures Valid()
      ensures node !in old(s) ==> s == old(s)
      ensures forall i :: 0 <= i < |old(s)| && old(s)[i] == node ==> s == Without(old(s), i)
    {
      hide Ascending, Without;
      var curr := min;
      if curr == null {
        return;
      }
      if curr == node {
        ghost var o := s;
        WithoutOk(s, 0);
        min := min.next;
        s := Without(s, 0);
        Unlinked(o, 0);
        return;
      }
      ghost var k := 0;
      while curr.next != null
        invariant Valid() && s == old(s)
        invariant 0 <= k < |s| && curr == s[k]
        invariant forall j :: 0 <= j <= k ==> s[j] != node
        decreases |s| - k
      {
        if curr.next == node {
          UnlinkAfter(curr, k);
          return;
        }
        curr := curr.next;
        k := k + 1;
      }
    }

    /** Line 113. */
    method UnlinkAfter(curr: Node, ghost k: nat)
      requires Valid() && k + 1 < |s| && curr == s[k]
      modifies this`s, curr
      ensures Valid() && s == Without(old(s), k + 1)
    {
      hide Ascending, Without;
      ghost var o := s;
      WithoutOk(s, k + 1);
      curr.next := curr.next.next;
      s := Without(s, k + 1);
      Unlinked(o, k + 1);
    }

    lemma Unlinked(o: seq<Node>, i: nat)
      requires i < |o| && NoDup(Without(o, i))
      requires forall j :: 0 <= j < |o| && j != i - 1 && j != i ==> o[j].next == NextOf(o, j + 1)
      requires i > 0 ==> o[i - 1].next == NextOf(o, i + 1)
      ensures Linked(Without(o, i)) && NextOf(Without(o, i), 0) == if i == 0 then NextOf(o, 1) else NextOf(o, 0)
    {
      var t := Without(o, i);
      WithoutAt(o, i, 0);
      forall j | 0 <= j < |t| ensures t[j].next == NextOf(t, j + 1) {
        WithoutAt(o, i, j);
        WithoutAt(o, i, j + 1);
      }
    }
  }
}
