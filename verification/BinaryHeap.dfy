/** The pointer-based binary heap of src/heap-inl.h that orders a loop's timers.
    The nodes form a complete binary tree; position 1 is the root, and the children
    of position i are 2i and 2i+1, so the bits of `nelts` spell the way to the last node. */
module BinaryHeap {
  import opened Seqs

  /** What timer_less_than looks at (src/unix/timer.c). */
  datatype Key = Key(timeout: nat, startId: nat)

  predicate Less(a: Key, b: Key) {
    a.timeout < b.timeout || (a.timeout == b.timeout && a.startId < b.startId)
  }

  class Node {
    const key: Key
    var left: Node?
    var right: Node?
    var parent: Node?

    constructor (k: Key)
      ensures key == k
    {
      key := k;
      left, right, parent := null, null, null;
    }
  }

  /** The node at a position, counted from 1. */
  ghost function At(a: seq<Node>, i: int): Node? {
    if 1 <= i <= |a| then a[i - 1] else null
  }

  ghost predicate LinkOk(a: seq<Node>, i: int)
    requires 1 <= i <= |a|
    reads At(a, i)
  {
    var n := At(a, i);
    n.left == At(a, 2 * i) && n.right == At(a, 2 * i + 1) && n.parent == At(a, i / 2)
  }

  ghost predicate Linked(a: seq<Node>)
    reads a
  {
    NoDup(a) && forall i :: 1 <= i <= |a| ==> LinkOk(a, i)
  }

  ghost function Swapped(a: seq<Node>, i: int, j: int): seq<Node>
    requires 1 <= i <= |a| && 1 <= j <= |a|
  {
    a[i - 1 := a[j - 1]][j - 1 := a[i - 1]]
  }

  /** An address that holds a node pointer: `&heap->min`, `&n->left` or `&n->right`. */
  datatype Slot = MinSlot | LeftSlot(owner: Node) | RightSlot(owner: Node)

  ghost function NodeSet(a: seq<Node>): set<Node> { set n | n in a }

  lemma SwappedSet(a: seq<Node>, i: int, j: int)
    requires 1 <= i <= |a| && 1 <= j <= |a|
    ensures NodeSet(Swapped(a, i, j)) == NodeSet(a)
  {
    var b := Swapped(a, i, j);
    forall n ensures n in a <==> n in b {
      if n in a {
        var k :| 0 <= k < |a| && a[k] == n;
        assert b[if k == i - 1 then j - 1 else if k == j - 1 then i - 1 else k] == n;
      }
    }
  }

  // ---------------------------------------------------------------- positions and their bits

  /** The position reached from `pos` by following the low `k` bits of `path`, lowest first. */
  ghost function Walk(pos: nat, path: nat, k: nat): (r: nat)
    ensures pos <= r && (k > 0 ==> 2 * pos <= r)
    decreases k
  {
    if k == 0 then pos else Walk(2 * pos + path % 2, path / 2, k - 1)
  }

  const UINT_MAX := 0xFFFF_FFFF

  /** The loops at lines 218-220 and 262-264: the bits of `n0` below its highest one, reversed. */
  method PathTo(n0: nat) returns (path: nat, k: nat)
    requires 1 <= n0 <= UINT_MAX
    ensures Walk(1, path, k) == n0 && path <= UINT_MAX
  {
    path, k := 0, 0;
    var n := n0;
    ghost var pow := 1;
    while n >= 2
      invariant 1 <= n && Walk(n, path, k) == n0
      invariant path < pow && n * pow <= n0
    {
      assert (n / 2) * (2 * pow) <= n0 by { Halve(n, pow); }
      assert Walk(n / 2, 2 * path + n % 2, k + 1) == Walk(n, path, k) by { WalkBit(n, path, k); }
      path := path * 2 + n % 2;
      k := k + 1;
      n := n / 2;
      pow := 2 * pow;
    }
  }

  lemma Halve(n: nat, pow: nat)
    ensures (n / 2) * (2 * pow) <= n * pow
  {
    assert (n / 2) * (2 * pow) == (2 * (n / 2)) * pow;
    assert n == 2 * (n / 2) + n % 2;
    assert n * pow == (2 * (n / 2)) * pow + (n % 2) * pow;
  }

  lemma WalkBit(n: nat, path: nat, k: nat)
    ensures Walk(n / 2, 2 * path + n % 2, k + 1) == Walk(n, path, k)
  {
    assert (2 * path + n % 2) % 2 == n % 2 && (2 * path + n % 2) / 2 == path;
  }

  // ---------------------------------------------------------------- order

  ghost predicate Ord(a: seq<Node>, j: int, k: int)
    requires 1 <= j <= |a| && 1 <= k <= |a|
  {
    !Less(a[j - 1].key, a[k - 1].key)
  }

  ghost predicate Ordered(a: seq<Node>) {
    forall j :: 2 <= j <= |a| ==> Ord(a, j, j / 2)
  }

  /** Only the node at position i may be out of order, with its parent or with its children. */
  ghost predicate OrderedBut(a: seq<Node>, i: nat)
  {
    && (forall j :: 2 <= j <= |a| && j != i && j / 2 != i ==> Ord(a, j, j / 2))
    && (forall j :: 2 <= j <= |a| && j / 2 == i && i / 2 >= 1 ==> Ord(a, j, i / 2))
  }

  ghost predicate AboveKids(a: seq<Node>, i: nat) {
    forall j :: 2 <= j <= |a| && j / 2 == i ==> Ord(a, j, i)
  }

  /** A step of the walk down: the node at i changes places with its smallest child. */
  lemma StepDown(a: seq<Node>, i: nat, c: nat)
    requires OrderedBut(a, i) && 1 <= i && c / 2 == i && 2 <= c <= |a| && Less(a[c - 1].key, a[i - 1].key)
    requires forall j :: 2 <= j <= |a| && j / 2 == i ==> Ord(a, j, c)
    ensures OrderedBut(Swapped(a, i, c), c)
  {
    var b := Swapped(a, i, c);
    forall j | 2 <= j <= |b| && j != c && j / 2 != c ensures Ord(b, j, j / 2) {
      if j == i { assert Ord(a, c, i / 2); }
      else if j / 2 == i { assert Ord(a, j, c); }
      else { assert Ord(a, j, j / 2); }
    }
    forall j | 2 <= j <= |b| && j / 2 == c ensures Ord(b, j, i) {
      assert Ord(a, j, c);
    }
  }

  /** A step of the walk up. */
  lemma StepUp(a: seq<Node>, i: nat)
    requires OrderedBut(a, i) && AboveKids(a, i) && 2 <= i <= |a| && Less(a[i - 1].key, a[i / 2 - 1].key)
    ensures OrderedBut(Swapped(a, i / 2, i), i / 2) && AboveKids(Swapped(a, i / 2, i), i / 2)
  {
    var k, b := i / 2, Swapped(a, i / 2, i);
    forall j | 2 <= j <= |b| && j != k && j / 2 != k ensures Ord(b, j, j / 2) {
      if j / 2 == i { assert Ord(a, j, k); }
      else { assert Ord(a, j, j / 2); }
    }
    forall j | 2 <= j <= |b| && j / 2 == k && k / 2 >= 1 ensures Ord(b, j, k / 2) {
      assert Ord(a, k, k / 2);
      if j != i { assert Ord(a, j, k); }
    }
    forall j | 2 <= j <= |b| && j / 2 == k ensures Ord(b, j, k) {
      if j != i { assert Ord(a, j, k); }
    }
  }

  lemma OrderedDone(a: seq<Node>, i: nat)
    requires OrderedBut(a, i) && AboveKids(a, i) && (2 <= i <= |a| ==> Ord(a, i, i / 2))
    ensures Ordered(a)
  {
    forall j | 2 <= j <= |a| ensures Ord(a, j, j / 2) {
      if j / 2 == i { assert Ord(a, j, i); }
    }
  }

  lemma {:induction false} RootIsLeast(a: seq<Node>, j: nat)
    requires Ordered(a) && 1 <= j <= |a|
    ensures Ord(a, j, 1)
    decreases j
  {
    if j >= 2 {
      RootIsLeast(a, j / 2);
      assert Ord(a, j, j / 2);
    }
  }

  class Heap {
    var min: Node?
    var nelts: nat
    ghost var a: seq<Node>

    ghost predicate Shaped()
      reads this, a
    {
      nelts == |a| && min == At(a, 1) && Linked(a)
    }

    /** The assignments of heap_node_swap, for a child with kids `l` and `r`, sibling `s` and grandparent `g`. */
    method SwapFields(parent: Node, child: Node, ghost g: Node?, ghost s: Node?, ghost l: Node?, ghost r: Node?,
                      ghost ns: set<Node>)
      requires Members(parent, child, g, s, l, r, ns) && Apart(parent, child, g, s, l, r)
      requires Related(parent, child, g, s, l, r)
      modifies this`min, ns
      ensures parent.left == l && parent.right == r && parent.parent == child && child.parent == g
      ensures if old(parent.left) == child then child.left == parent && child.right == s
              else child.left == s && child.right == parent
      ensures s != null ==> s.parent == child && s.left == old(s.left) && s.right == old(s.right)
      ensures l != null ==> l.parent == parent && l.left == old(l.left) && l.right == old(l.right)
      ensures r != null ==> r.parent == parent && r.left == old(r.left) && r.right == old(r.right)
      ensures g != null ==> g.parent == old(g.parent) && min == old(min)
      ensures g != null ==> g.left == (if old(g.left) == parent then child else old(g.left))
      ensures g != null ==> g.right == (if old(g.left) == parent then old(g.right) else child)
      ensures g == null ==> min == child
      ensures forall n :: n in ns && n != parent && n != child && n != s && n != l && n != r && n != g ==> unchanged(n)
    {
      var sibling := Exchange(parent, child, g, s, l, r);
      if sibling != null {
        sibling.parent := child;
      }
      if parent.left != null {
        parent.left.parent := parent;
      }
      if parent.right != null {
        parent.right.parent := parent;
      }
      if child.parent == null {
        min := child;
      } else if child.parent.left == parent {
        child.parent.left := child;
      } else {
        child.parent.right := child;
      }
    }

    /** Lines 174-185: the two nodes trade their links. */
    static method Exchange(parent: Node, child: Node, ghost g: Node?, ghost s: Node?, ghost l: Node?, ghost r: Node?)
      returns (sibling: Node?)
      requires Apart(parent, child, g, s, l, r) && Related(parent, child, g, s, l, r)
      modifies parent, child
      ensures parent.left == l && parent.right == r && parent.parent == child && child.parent == g && sibling == s
      ensures if old(parent.left) == child then child.left == parent && child.right == s
              else child.left == s && child.right == parent
    {
      var t_left, t_right, t_parent := parent.left, parent.right, parent.parent;
      parent.left, parent.right, parent.parent := child.left, child.right, child.parent;
      child.left, child.right, child.parent := t_left, t_right, t_parent;
      parent.parent := child;
      if child.left == child {
        child.left := parent;
        sibling := child.right;
      } else {
        child.right := parent;
        sibling := child.left;
      }
    }

    /** The nodes around `parent` and `child`, which no other links of `ns` lead to. */
    static ghost predicate Family(parent: Node, child: Node, g: Node?, s: Node?, l: Node?, r: Node?, ns: set<Node>)
      reads ns
    {
      && Members(parent, child, g, s, l, r, ns) && Apart(parent, child, g, s, l, r) && Related(parent, child, g, s, l, r)
      && (forall n :: n in ns ==> NoStray(n, parent, child, g, s, l, r))
    }

    static ghost predicate Members(parent: Node, child: Node, g: Node?, s: Node?, l: Node?, r: Node?, ns: set<Node>) {
      && parent in ns && child in ns
      && (g != null ==> g in ns) && (s != null ==> s in ns) && (l != null ==> l in ns) && (r != null ==> r in ns)
    }

    static ghost predicate Apart(parent: Node, child: Node, g: Node?, s: Node?, l: Node?, r: Node?) {
      && parent != child && parent !in {g, s, l, r} && child !in {g, s, l, r}
      && (g != null ==> g !in {s, l, r}) && (s != null ==> s !in {l, r}) && (l != null ==> l != r)
    }

    static ghost predicate Related(parent: Node, child: Node, g: Node?, s: Node?, l: Node?, r: Node?)
      reads parent, child, g, s, l, r
    {
      && child.left == l && child.right == r && child.parent == parent && parent.parent == g
      && ((parent.left == child && parent.right == s) || (parent.left == s && parent.right == child))
      && (g != null ==> (g.left == parent || g.right == parent) && g.left != g.right)
      && (s != null ==> s.parent == parent) && (l != null ==> l.parent == child) && (r != null ==> r.parent == child)
    }

    static ghost predicate NoStray(n: Node, parent: Node, child: Node, g: Node?, s: Node?, l: Node?, r: Node?)
      reads n
    {
      && (n.left == parent || n.right == parent ==> n == g)
      && (n.left == child || n.right == child ==> n == parent)
      && (n.parent == parent ==> n == child || n == s)
      && (n.parent == child ==> n == l || n == r)
    }

    static ghost function Ren(p: Node, c: Node, n: Node?): (r: Node?)
      ensures n != null ==> r != null
    {
      if n == p then c else if n == c then p else n
    }

    /** Each link that led to one of the two nodes now leads to the other. */
    method SwapLinks(parent: Node, child: Node, ghost g: Node?, ghost s: Node?, ghost l: Node?, ghost r: Node?,
                      ghost ns: set<Node>)
      requires Family(parent, child, g, s, l, r, ns)
      modifies this`min, ns
      ensures min == if g == null then child else old(min)
      ensures forall n :: n in ns ==> Ren(parent, child, n).left == Ren(parent, child, old(n.left))
      ensures forall n :: n in ns ==> Ren(parent, child, n).right == Ren(parent, child, old(n.right))
      ensures forall n :: n in ns ==> Ren(parent, child, n).parent == Ren(parent, child, old(n.parent))
    {
      SwapFields(parent, child, g, s, l, r, ns);
    }

    static ghost function Sibling(i: nat): nat
      requires 1 <= i
    {
      if i % 2 == 0 then i + 1 else i - 1
    }

    static lemma SamePlace(b: seq<Node>, x: int, y: int)
      requires NoDup(b) && At(b, x) == At(b, y) != null
      ensures x == y
    {}

    lemma NoStrayAt(i: nat, j: nat)
      requires Shaped() && 2 <= i <= |a| && 1 <= j <= |a|
      ensures NoStray(At(a, j), At(a, i / 2), At(a, i),
                      At(a, i / 2 / 2), At(a, Sibling(i)), At(a, 2 * i), At(a, 2 * i + 1))
    {
      hide NoDup;
      var k, n := i / 2, At(a, j);
      assert LinkOk(a, j);
      if n.left == At(a, k) { SamePlace(a, 2 * j, k); }
      if n.right == At(a, k) { SamePlace(a, 2 * j + 1, k); }
      if n.left == At(a, i) { SamePlace(a, 2 * j, i); }
      if n.right == At(a, i) { SamePlace(a, 2 * j + 1, i); }
      if n.parent == At(a, k) { SamePlace(a, j / 2, k); }
      if n.parent == At(a, i) { SamePlace(a, j / 2, i); }
    }

    static lemma ApartAt(b: seq<Node>, i: nat)
      requires NoDup(b) && 2 <= i <= |b|
      ensures Apart(At(b, i / 2), At(b, i), At(b, i / 2 / 2), At(b, Sibling(i)), At(b, 2 * i), At(b, 2 * i + 1))
    {}

    lemma RelatedAt(i: nat)
      requires Shaped() && 2 <= i <= |a|
      ensures Related(At(a, i / 2), At(a, i), At(a, i / 2 / 2), At(a, Sibling(i)), At(a, 2 * i), At(a, 2 * i + 1))
    {
      var k := i / 2;
      assert i == 2 * k || i == 2 * k + 1;
      assert LinkOk(a, i) && LinkOk(a, k);
      if k >= 2 { assert LinkOk(a, k / 2); }
      if Sibling(i) <= |a| && 2 <= Sibling(i) { assert LinkOk(a, Sibling(i)); }
      if 2 * i <= |a| { assert LinkOk(a, 2 * i); }
      if 2 * i + 1 <= |a| { assert LinkOk(a, 2 * i + 1); }
    }

    lemma FamilyAt(i: nat)
      requires Shaped() && 2 <= i <= |a|
      ensures Family(At(a, i / 2), At(a, i), At(a, i / 2 / 2), At(a, Sibling(i)), At(a, 2 * i), At(a, 2 * i + 1),
                     NodeSet(a))
    {
      hide NoStray, Apart, Related, NoDup, LinkOk;
      ApartAt(a, i);
      RelatedAt(i);
      forall n | n in a
        ensures NoStray(n, At(a, i / 2), At(a, i), At(a, i / 2 / 2), At(a, Sibling(i)), At(a, 2 * i), At(a, 2 * i + 1))
      {
        var j :| 0 <= j < |a| && a[j] == n;
        NoStrayAt(i, j + 1);
      }
    }

    static lemma RenAt(b: seq<Node>, k: nat, i: nat, x: int)
      requires NoDup(b) && 1 <= k < i <= |b|
      ensures At(Swapped(b, k, i), x) == Ren(b[k - 1], b[i - 1], At(b, x))
    {}

    /** heap_node_swap: the child at position i changes places with its parent. */
    method NodeSwap(parent: Node, child: Node, ghost i: nat)
      requires Shaped() && 2 <= i <= |a| && child == At(a, i) && parent == At(a, i / 2)
      modifies this`min, this`a, NodeSet(a)
      ensures Shaped() && a == Swapped(old(a), i / 2, i)
    {
      hide Family, Ren, NoDup;
      ghost var b, k := a, i / 2;
      ghost var ns := NodeSet(a);
      FamilyAt(i);
      SwapLinks(parent, child, At(b, k / 2), At(b, Sibling(i)), At(b, 2 * i), At(b, 2 * i + 1), ns);
      SwappedNoDup(b, k, i);
      forall j | 1 <= j <= |b| ensures LinkOk(Swapped(b, k, i), j) {
        assert old(LinkOk(b, j)) && b[j - 1] in ns;
        LinkMoved(b, k, i, j);
      }
      a := Swapped(b, k, i);
    }

    static lemma SwappedNoDup(b: seq<Node>, k: nat, i: nat)
      requires NoDup(b) && 1 <= k < i <= |b|
      ensures NoDup(Swapped(b, k, i))
    {}

    /** Exchanging two nodes in the links of a node exchanges their positions there. */
    static lemma LinkMoved(b: seq<Node>, k: nat, i: nat, j: nat)
      requires NoDup(b) && 1 <= k < i <= |b| && 1 <= j <= |b|
      requires var p, c := b[k - 1], b[i - 1];
               var n := Ren(p, c, b[j - 1]);
               n.left == Ren(p, c, At(b, 2 * j)) && n.right == Ren(p, c, At(b, 2 * j + 1))
               && n.parent == Ren(p, c, At(b, j / 2))
      ensures LinkOk(Swapped(b, k, i), j)
    {
      hide NoDup, Ren;
      RenAt(b, k, i, j); RenAt(b, k, i, 2 * j); RenAt(b, k, i, 2 * j + 1); RenAt(b, k, i, j / 2);
    }

    // -------------------------------------------------------------- slots

    ghost predicate Valid()
      reads this, a
    {
      Shaped() && Ordered(a)
    }

    constructor ()
      ensures Valid() && a == []
    {
      min, nelts, a := null, 0, [];
    }

    /** The slot whose content is the node at a position. */
    static ghost function SlotOf(a: seq<Node>, pos: nat): Slot
      requires 1 <= pos <= |a| + 1
    {
      if pos == 1 then MinSlot
      else if pos % 2 == 0 then LeftSlot(a[pos / 2 - 1]) else RightSlot(a[pos / 2 - 1])
    }

    method Load(s: Slot) returns (n: Node?)
      ensures n == match s case MinSlot => min case LeftSlot(o) => o.left case RightSlot(o) => o.right
    {
      match s
      case MinSlot => return min;
      case LeftSlot(o) => return o.left;
      case RightSlot(o) => return o.right;
    }

    lemma SlotAt(pos: nat)
      requires Shaped() && 1 <= pos <= |a| + 1
      ensures At(a, pos) == match SlotOf(a, pos) case MinSlot => min case LeftSlot(o) => o.left case RightSlot(o) => o.right
    {
      if pos > 1 { assert LinkOk(a, pos / 2); }
    }

    /** The traversals at lines 222-232 and 266-275. `parent` is the slot passed just before. */
    method FollowPath(n0: nat, path0: nat, k0: nat) returns (child: Slot, parent: Slot)
      requires Shaped() && 1 <= n0 <= |a| + 1 && Walk(1, path0, k0) == n0
      ensures child == SlotOf(a, n0) && parent == SlotOf(a, if n0 == 1 then 1 else n0 / 2)
    {
      child, parent := MinSlot, MinSlot;
      var path, k := path0, k0;
      ghost var pos := 1;
      while k > 0
        invariant 1 <= pos <= n0 && Walk(pos, path, k) == n0
        invariant child == SlotOf(a, pos) && parent == SlotOf(a, if pos == 1 then 1 else pos / 2)
        decreases k
      {
        parent := child;
        SlotAt(pos);
        assert 2 * pos <= n0;
        var n := Load(child);
        if path % 2 == 1 {
          child := RightSlot(n);
        } else {
          child := LeftSlot(n);
        }
        pos := 2 * pos + path % 2;
        path := path / 2;
        k := k - 1;
      }
    }

    /** Lines 234-237. */
    method Append(newnode: Node, parent: Slot, child: Slot)
      requires Shaped() && newnode !in a
      requires child == SlotOf(a, |a| + 1) && parent == SlotOf(a, if |a| == 0 then 1 else (|a| + 1) / 2)
      requires newnode.left == null && newnode.right == null
      modifies this, NodeSet(a), newnode
      ensures Shaped() && a == old(a) + [newnode]
    {
      hide NoDup;
      ghost var b, p := a, (|a| + 1) / 2;
      if |a| > 0 { SlotAt(p); }
      var n := Load(parent);
      newnode.parent := n;
      match child {
        case MinSlot => min := newnode;
        case LeftSlot(o) => o.left := newnode;
        case RightSlot(o) => o.right := newnode;
      }
      nelts := nelts + 1;
      forall j | 1 <= j <= |b|
        ensures b[j - 1].left == (if 2 * j == |b| + 1 then newnode else At(b, 2 * j))
                && b[j - 1].right == (if 2 * j + 1 == |b| + 1 then newnode else At(b, 2 * j + 1))
                && b[j - 1].parent == At(b, j / 2)
      {
        assert old(LinkOk(b, j));
        if b[j - 1] == At(b, p) { SamePlace(b, j, p); }
      }
      AppendedLinks(b, newnode);
      a := a + [newnode];
    }

    static lemma AppendedLinks(b: seq<Node>, n: Node)
      requires NoDup(b) && n !in b && n.left == null && n.right == null && n.parent == At(b, (|b| + 1) / 2)
      requires forall j :: 1 <= j <= |b| ==>
                 b[j - 1].left == (if 2 * j == |b| + 1 then n else At(b, 2 * j))
                 && b[j - 1].right == (if 2 * j + 1 == |b| + 1 then n else At(b, 2 * j + 1))
                 && b[j - 1].parent == At(b, j / 2)
      ensures Linked(b + [n])
    {
      NoDupAppend(b, n);
      hide NoDup;
      var c := b + [n];
      forall j | 1 <= j <= |c| ensures LinkOk(c, j) {
        if j <= |b| { assert c[j - 1] == b[j - 1]; }
      }
    }

    /** heap_insert. */
    method Insert(newnode: Node)
      requires Valid() && newnode !in a && nelts < UINT_MAX
      modifies this, NodeSet(a), newnode
      ensures Valid() && nelts == old(nelts) + 1 && NodeSet(a) == NodeSet(old(a)) + {newnode}
    {
      hide Shaped, Ordered, OrderedBut, AboveKids;
      newnode.left := null;
      newnode.right := null;
      newnode.parent := null;
      assert Shaped() && Ordered(a);
      var path, k := PathTo(1 + nelts);
      assert nelts == |a| by { ShapedSize(); }
      var child, parent := FollowPath(1 + nelts, path, k);
      Append(newnode, parent, child);
      ShapedSize();
      OrderedAppend(old(a), newnode);
      WalkUp(newnode, |a|);
    }

    lemma ShapedSize()
      requires Shaped()
      ensures nelts == |a|
    {}

    lemma NotEmpty(n: Node)
      requires Valid() && n in a
      ensures nelts != 0
    {}

    static lemma OrderedAppend(b: seq<Node>, n: Node)
      requires Ordered(b)
      ensures OrderedBut(b + [n], |b| + 1) && AboveKids(b + [n], |b| + 1)
    {
      var c := b + [n];
      forall j | 2 <= j <= |c| && j != |c| && j / 2 != |c| ensures Ord(c, j, j / 2) { assert Ord(b, j, j / 2); }
    }

    /** The loops at lines 242-243 and 331-332. */
    method WalkUp(n: Node, ghost i0: nat)
      requires Shaped() && 1 <= i0 <= |a| && At(a, i0) == n && OrderedBut(a, i0) && AboveKids(a, i0)
      modifies this`min, this`a, NodeSet(a)
      ensures Valid() && NodeSet(a) == NodeSet(old(a))
    {
      ghost var i := i0;
      UpLinks(i);
      while n.parent != null && Less(n.key, n.parent.key)
        invariant Shaped() && 1 <= i <= |a| && At(a, i) == n && OrderedBut(a, i) && AboveKids(a, i)
        invariant n.parent == At(a, i / 2)
        invariant NodeSet(a) == NodeSet(old(a))
        decreases i
      {
        hide OrderedBut, AboveKids, Ordered;
        StepUp(a, i);
        SwappedSet(a, i / 2, i);
        NodeSwap(n.parent, n, i);
        i := i / 2;
        UpLinks(i);
      }
      OrderedDone(a, i);
    }

    lemma UpLinks(i: nat)
      requires Shaped() && 1 <= i <= |a|
      ensures a[i - 1].parent == At(a, i / 2)
    {
      assert LinkOk(a, i);
    }

    /** The loop at lines 316-325. */
    method WalkDown(child: Node, ghost i0: nat) returns (ghost i: nat)
      requires Shaped() && 1 <= i0 <= |a| && At(a, i0) == child && OrderedBut(a, i0)
      modifies this`min, this`a, NodeSet(a)
      ensures Shaped() && 1 <= i <= |a| && At(a, i) == child && OrderedBut(a, i) && AboveKids(a, i)
      ensures NodeSet(a) == NodeSet(old(a)) && |a| == old(|a|)
    {
      i := i0;
      while true
        invariant Shaped() && 1 <= i <= |a| && At(a, i) == child && OrderedBut(a, i)
        invariant NodeSet(a) == NodeSet(old(a)) && |a| == old(|a|)
        decreases |a| - i
      {
        hide OrderedBut, Shaped, Ord;
        var smallest;
        ghost var c;
        smallest, c := Smallest(child, i);
        if smallest == child {
          break;
        }
        StepDown(a, i, c);
        SwappedSet(a, i, c);
        NodeSwap(child, smallest, c);
        i := c;
      }
    }

    /** The least of a node and its children, at position c. */
    method Smallest(child: Node, ghost i: nat) returns (smallest: Node, ghost c: nat)
      requires Shaped() && 1 <= i <= |a| && At(a, i) == child
      ensures 1 <= c <= |a| && At(a, c) == smallest && forall j :: 2 <= j <= |a| && j / 2 == i ==> Ord(a, j, c)
      ensures smallest == child ==> c == i
      ensures smallest != child ==> c >= 2 && c / 2 == i && Less(smallest.key, child.key)
    {
      DownLinks(i);
      smallest := child;
      c := i;
      if child.left != null && Less(child.left.key, smallest.key) {
        smallest := child.left;
        c := 2 * i;
      }
      if child.right != null && Less(child.right.key, smallest.key) {
        smallest := child.right;
        c := 2 * i + 1;
      }
      SmallestKid(a, i, c);
    }

    lemma DownLinks(i: nat)
      requires Shaped() && 1 <= i <= |a|
      ensures a[i - 1].left == At(a, 2 * i) && a[i - 1].right == At(a, 2 * i + 1)
      ensures forall c :: 2 <= c <= |a| && c / 2 == i ==> a[c - 1] != a[i - 1]
    {
      assert LinkOk(a, i);
    }

    static lemma SmallestKid(b: seq<Node>, i: nat, c: nat)
      requires 1 <= i <= |b| && 1 <= c <= |b|
      requires 2 * i <= |b| ==> Ord(b, 2 * i, c)
      requires 2 * i + 1 <= |b| ==> Ord(b, 2 * i + 1, c)
      ensures forall j :: 2 <= j <= |b| && j / 2 == i ==> Ord(b, j, c)
    {
      forall j | 2 <= j <= |b| && j / 2 == i ensures Ord(b, j, c) {
        assert j == 2 * i || j == 2 * i + 1;
      }
    }

    /** Lines 277-281: the last node is unlinked. */
    method Chop(max: Slot) returns (child: Node)
      requires Shaped() && |a| >= 1 && max == SlotOf(a, |a|)
      modifies this, NodeSet(a)
      ensures Shaped() && a == old(a)[..|old(a)| - 1] && child == old(a)[|old(a)| - 1]
    {
      ghost var b := a;
      SlotAt(|a|);
      nelts := nelts - 1;
      var c := Load(max);
      child := c;
      match max {
        case MinSlot => min := null;
        case LeftSlot(o) => o.left := null;
        case RightSlot(o) => o.right := null;
      }
      a := b[..|b| - 1];
      forall j | 1 <= j <= |a| ensures LinkOk(a, j) {
        assert old(LinkOk(b, j));
      }
    }

    static ghost function Rep(x: Node, y: Node, n: Node?): Node? { if n == x then y else n }

    static ghost predicate Replaceable(node: Node, g: Node?, l: Node?, r: Node?, ns: set<Node>)
      reads ns
    {
      && node in ns && node.parent == g && node.left == l && node.right == r
      && (g != null ==> g in ns) && (l != null ==> l in ns) && (r != null ==> r in ns)
      && node !in {g, l, r} && (l != null ==> l != r)
      && (g != null ==> g !in {l, r} && (g.left == node || g.right == node) && g.left != g.right)
      && (forall n :: n in ns ==> (n.left == node || n.right == node ==> n == g) && (n.parent == node <==> n in {l, r}))
    }

    /** Lines 291-310, for a node with parent `g` and children `l` and `r`. */
    method ReplaceFields(node: Node, child: Node, ghost g: Node?, ghost l: Node?, ghost r: Node?, ghost ns: set<Node>)
      requires Replaceable(node, g, l, r, ns) && child !in ns
      modifies this`min, ns, child
      ensures child.left == l && child.right == r && child.parent == g
      ensures min == if g == null then child else old(min)
      ensures forall n :: n in ns && n != node ==>
                n.left == Rep(node, child, old(n.left)) && n.right == Rep(node, child, old(n.right))
                && n.parent == Rep(node, child, old(n.parent))
    {
      child.left := node.left;
      child.right := node.right;
      child.parent := node.parent;
      if child.left != null {
        child.left.parent := child;
      }
      if child.right != null {
        child.right.parent := child;
      }
      if node.parent == null {
        min := child;
      } else if node.parent.left == node {
        node.parent.left := child;
      } else {
        node.parent.right := child;
      }
    }

    lemma NodeLinks(i: nat, j: nat)
      requires Shaped() && 1 <= i <= |a| && 1 <= j <= |a|
      ensures At(a, j).left == At(a, i) || At(a, j).right == At(a, i) ==> At(a, j) == At(a, i / 2)
      ensures At(a, j).parent == At(a, i) <==> At(a, j) in {At(a, 2 * i), At(a, 2 * i + 1)}
    {
      hide NoDup;
      var n := At(a, j);
      assert LinkOk(a, j);
      if n.left == At(a, i) { SamePlace(a, 2 * j, i); }
      if n.right == At(a, i) { SamePlace(a, 2 * j + 1, i); }
      if n.parent == At(a, i) { SamePlace(a, j / 2, i); }
      if n == At(a, 2 * i) { SamePlace(a, j, 2 * i); }
      if n == At(a, 2 * i + 1) { SamePlace(a, j, 2 * i + 1); }
    }

    static lemma RepAt(b: seq<Node>, i: nat, y: Node, x: int)
      requires NoDup(b) && 1 <= i <= |b|
      ensures At(b[i - 1 := y], x) == Rep(b[i - 1], y, At(b, x))
    {}

    lemma ReplaceableAt(i: nat)
      requires Shaped() && 1 <= i <= |a|
      ensures Replaceable(At(a, i), At(a, i / 2), At(a, 2 * i), At(a, 2 * i + 1), NodeSet(a))
    {
      assert LinkOk(a, i);
      if i >= 2 { assert LinkOk(a, i / 2); }
      forall n | n in NodeSet(a)
        ensures (n.left == At(a, i) || n.right == At(a, i) ==> n == At(a, i / 2))
                && (n.parent == At(a, i) <==> n in {At(a, 2 * i), At(a, 2 * i + 1)})
      {
        var j :| 0 <= j < |a| && a[j] == n;
        NodeLinks(i, j + 1);
      }
    }

    method ReplaceNode(node: Node, child: Node, ghost i: nat)
      requires Shaped() && 1 <= i <= |a| && node == At(a, i) && child !in a
      modifies this`min, this`a, NodeSet(a), child
      ensures Shaped() && a == old(a)[i - 1 := child]
    {
      hide Replaceable;
      ghost var b, ns := a, NodeSet(a);
      ReplaceableAt(i);
      ReplaceFields(node, child, At(a, i / 2), At(a, 2 * i), At(a, 2 * i + 1), ns);
      a := a[i - 1 := child];
      forall j | 1 <= j <= |a| ensures LinkOk(a, j) {
        assert old(LinkOk(b, j));
        assert old(LinkOk(b, i));
        assert At(b, j) in ns;
        RepAt(b, i, child, j); RepAt(b, i, child, 2 * j); RepAt(b, i, child, 2 * j + 1); RepAt(b, i, child, j / 2);
      }
    }

    /** heap_remove, of any node of the heap. */
    method Remove(node: Node)
      requires Valid() && nelts <= UINT_MAX && (nelts != 0 ==> node in a)
      modifies this, NodeSet(a)
      ensures Valid() && NodeSet(a) == NodeSet(old(a)) - {node}
      ensures nelts == if old(nelts) == 0 then 0 else old(nelts) - 1
    {
      hide Shaped, Ordered, OrderedBut, AboveKids;
      ShapedSize();
      if nelts == 0 {
        return;
      }
      var path, k := PathTo(nelts);
      var max, ignored := FollowPath(nelts, path, k);
      ghost var b := a;
      ghost var i :| 0 <= i < |b| && b[i] == node;
      i := i + 1;
      ShapedDistinct();
      var child := Chop(max);
      ShapedSize();
      OrderedChop(b, i);
      if child == node {
        // Storing NULL through `max` has already cleared `min` when the root was the last node,
        // so the guard at line 285 is never true.
        ShapedDistinct();
        assert child != min;
        return;
      }
      Refit(node, child, i);
    }

    /** Lines 291-332: `child` takes the place of the node at i and moves to where it belongs. */
    method Refit(node: Node, child: Node, ghost i: nat)
      requires Shaped() && 1 <= i <= |a| && node == At(a, i) && child !in a && OrderedBut(a[i - 1 := child], i)
      modifies this`min, this`a, NodeSet(a), child
      ensures Valid() && NodeSet(a) == NodeSet(old(a)[i - 1 := child])
    {
      hide Shaped, Ordered, OrderedBut, AboveKids;
      ReplaceNode(node, child, i);
      ghost var j := WalkDown(child, i);
      WalkUp(child, j);
    }

    lemma ShapedDistinct()
      requires Shaped()
      ensures NoDup(a) && min == At(a, 1)
    {}

    /** Taking out the last node and, if it is not the one at i, putting it there. */
    static lemma OrderedChop(b: seq<Node>, i: nat)
      requires Ordered(b) && NoDup(b) && 1 <= i <= |b|
      ensures var n := |b| - 1;
              var c := b[..n];
              if i == n + 1 then Ordered(c) && NodeSet(c) == NodeSet(b) - {b[i - 1]}
              else b[n] !in c && OrderedBut(c[i - 1 := b[n]], i) && NodeSet(c[i - 1 := b[n]]) == NodeSet(b) - {b[i - 1]}
      ensures i <= |b| - 1 ==> b[i - 1] != b[|b| - 1]
    {
      var n := |b| - 1;
      var c := b[..n];
      forall j | 2 <= j <= n ensures Ord(c, j, j / 2) { assert Ord(b, j, j / 2); }
      if i <= n {
        var d := c[i - 1 := b[n]];
        forall j | 2 <= j <= n && j != i && j / 2 != i ensures Ord(d, j, j / 2) { assert Ord(b, j, j / 2); }
        forall j | 2 <= j <= n && j / 2 == i && i / 2 >= 1 ensures Ord(d, j, i / 2) {
          assert Ord(b, j, i) && Ord(b, i, i / 2);
        }
        ChopSet(b, i, d);
      } else {
        ChopSet(b, i, c);
      }
    }

    static lemma ChopSet(b: seq<Node>, i: nat, d: seq<Node>)
      requires NoDup(b) && 1 <= i <= |b| && |d| == |b| - 1
      requires forall j :: 0 <= j < |d| ==> d[j] == if j == i - 1 then b[|b| - 1] else b[j]
      ensures NodeSet(d) == NodeSet(b) - {b[i - 1]}
    {
      forall x | x in NodeSet(b) - {b[i - 1]} ensures x in d {
        var j :| 0 <= j < |b| && b[j] == x;
        assert d[if j == |b| - 1 then i - 1 else j] == x;
      }
    }

    /** heap_min. */
    method Min() returns (m: Node?)
      requires Valid()
      ensures m == null <==> a == []
      ensures m != null ==> m in a && forall n :: n in a ==> !Less(n.key, m.key)
    {
      m := min;
      if m != null {
        assert m == a[0];
        forall n | n in a ensures !Less(n.key, m.key) {
          var j :| 0 <= j < |a| && a[j] == n;
          RootIsLeast(a, j + 1);
        }
      }
    }
  }
}
