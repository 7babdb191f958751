/** Values behind include/tree.h: comparison keys, tree nodes and the shapes that
    linked nodes form. A `Shape` is a tree of nodes; a `Path` is the way from a
    subtree up to the root, so that `Plug(path, t)` is the whole tree around `t`. */
module RbShapes {
  import opened Powers

  // ---------------------------------------------------------------- keys

  /** The fields that uv__signal_compare looks at, most significant first.
      compare_watchers is the case where only `major` varies. */
  datatype Key = Key(major: int, loop: int, id: int)

  /** uv__signal_compare (src/unix/signal.c). */
  function Compare(a: Key, b: Key): (r: int)
    ensures r == 0 <==> a == b
  {
    if a.major < b.major then -1
    else if a.major > b.major then 1
    else if a.loop < b.loop then -1
    else if a.loop > b.loop then 1
    else if a.id < b.id then -1
    else if a.id > b.id then 1
    else 0
  }

  predicate Less(a: Key, b: Key) { Compare(a, b) < 0 }

  lemma CompareLess(a: Key, b: Key)
    ensures Compare(a, b) < 0 <==> Less(a, b)
    ensures Compare(a, b) > 0 <==> Less(b, a)
    ensures !(Less(a, b) && Less(b, a)) && !Less(a, a)
  {}

  // ---------------------------------------------------------------- nodes

  datatype Color = Red | Black

  /** RB_ENTRY plus the key of the enclosing structure. */
  class Node {
    const key: Key
    var left: Node?
    var right: Node?
    var parent: Node?
    var color: Color

    constructor (k: Key)
      ensures key == k
    {
      key := k;
      left, right, parent, color := null, null, null, Red;
    }
  }

  // ---------------------------------------------------------------- shapes

  datatype Shape = Leaf | Branch(color: Color, left: Shape, node: Node, right: Shape)

  datatype Side = L | R

  /** `Down(up, side, c, n, sib)`: the hole is the `side` child of `n`, whose other child is `sib`. */
  datatype Path = Top | Down(up: Path, side: Side, color: Color, node: Node, sib: Shape)

  ghost function Wrap(s: Side, c: Color, n: Node, sib: Shape, t: Shape): Shape {
    if s.L? then Branch(c, t, n, sib) else Branch(c, sib, n, t)
  }

  ghost function Plug(p: Path, t: Shape): Shape {
    match p
    case Top => t
    case Down(up, s, c, n, sib) => Plug(up, Wrap(s, c, n, sib, t))
  }

  lemma PlugDown(p: Path, t: Shape)
    requires p.Down?
    ensures Plug(p, t) == Plug(p.up, Wrap(p.side, p.color, p.node, p.sib, t))
  {}

  /** The path that first goes down `base` and then down `q`. */
  ghost function Graft(base: Path, q: Path): Path {
    match q
    case Top => base
    case Down(up, s, c, n, sib) => Down(Graft(base, up), s, c, n, sib)
  }

  ghost function Depth(p: Path): nat {
    match p case Top => 0 case Down(up, _, _, _, _) => 1 + Depth(up)
  }

  ghost function Elems(t: Shape): set<Node> {
    match t
    case Leaf => {}
    case Branch(_, l, n, r) => Elems(l) + {n} + Elems(r)
  }

  ghost function PathElems(p: Path): set<Node> {
    match p
    case Top => {}
    case Down(up, _, _, n, sib) => PathElems(up) + {n} + Elems(sib)
  }

  ghost function Inorder(t: Shape): seq<Node> {
    match t
    case Leaf => []
    case Branch(_, l, n, r) => Inorder(l) + [n] + Inorder(r)
  }

  /** What precedes and what follows the hole in the in-order sequence. */
  ghost function Before(p: Path): seq<Node> {
    match p
    case Top => []
    case Down(up, s, _, n, sib) => if s.L? then Before(up) else Before(up) + (Inorder(sib) + [n])
  }

  ghost function After(p: Path): seq<Node> {
    match p
    case Top => []
    case Down(up, s, _, n, sib) => if s.L? then [n] + Inorder(sib) + After(up) else After(up)
  }

  lemma {:induction false} PlugInorder(p: Path, t: Shape)
    ensures Inorder(Plug(p, t)) == Before(p) + Inorder(t) + After(p)
    decreases p
  {
    match p
    case Top =>
    case Down(up, s, c, n, sib) => PlugInorder(up, Wrap(s, c, n, sib, t));
  }

  lemma {:induction false} PlugElems(p: Path, t: Shape)
    ensures Elems(Plug(p, t)) == PathElems(p) + Elems(t)
    decreases p
  {
    match p
    case Top =>
    case Down(up, s, c, n, sib) => PlugElems(up, Wrap(s, c, n, sib, t));
  }

  lemma {:induction false} InorderElems(t: Shape)
    ensures forall x :: x in Inorder(t) <==> x in Elems(t)
  {
    match t
    case Leaf =>
    case Branch(_, l, n, r) => InorderElems(l); InorderElems(r);
  }

  lemma {:induction false} GraftPlug(base: Path, q: Path, t: Shape)
    ensures Plug(Graft(base, q), t) == Plug(base, Plug(q, t))
    decreases q
  {
    match q
    case Top =>
    case Down(up, s, c, n, sib) => GraftPlug(base, up, Wrap(s, c, n, sib, t));
  }

  lemma {:induction false} GraftElems(base: Path, q: Path)
    ensures PathElems(Graft(base, q)) == PathElems(base) + PathElems(q)
    decreases q
  {
    if q.Down? { GraftElems(base, q.up); }
  }

  // ---------------------------------------------------------------- no node occurs twice

  ghost predicate Sep(t: Shape) {
    match t
    case Leaf => true
    case Branch(_, l, n, r) =>
      Sep(l) && Sep(r) && n !in Elems(l) && n !in Elems(r) && Elems(l) !! Elems(r)
  }

  ghost predicate PathSep(p: Path) {
    match p
    case Top => true
    case Down(up, _, _, n, sib) =>
      PathSep(up) && Sep(sib) && n !in Elems(sib) && n !in PathElems(up) && Elems(sib) !! PathElems(up)
  }

  lemma GraftDistinct(base: Path, q: Path)
    requires base.Down? && q.Down? && PathSep(Graft(base, q))
    ensures q.node != base.node
  {
    GraftElems(base, q.up);
  }

  // ---------------------------------------------------------------- red-black conditions

  predicate IsRed(t: Shape) { t.Branch? && t.color.Red? }

  function Weight(c: Color): nat { if c.Black? then 1 else 0 }

  /** Black nodes on the leftmost path; on every path once `Balanced`. */
  ghost function Bh(t: Shape): nat {
    match t case Leaf => 0 case Branch(c, l, _, _) => Bh(l) + Weight(c)
  }

  ghost predicate Balanced(t: Shape) {
    match t
    case Leaf => true
    case Branch(_, l, _, r) => Balanced(l) && Balanced(r) && Bh(l) == Bh(r)
  }

  ghost predicate RedOk(t: Shape) {
    match t
    case Leaf => true
    case Branch(c, l, _, r) => RedOk(l) && RedOk(r) && (c.Red? ==> !IsRed(l) && !IsRed(r))
  }

  /** `RedOk` except that the root itself may be a red node with red children. */
  ghost predicate RedInner(t: Shape) {
    t.Branch? ==> RedOk(t.left) && RedOk(t.right) && (t.color.Black? ==> RedOk(t))
  }

  ghost predicate RbOk(t: Shape) { Balanced(t) && RedOk(t) && !IsRed(t) }

  /** The tree around the hole is balanced once the hole has black height `h`. */
  ghost predicate PathBal(p: Path, h: int) {
    match p
    case Top => true
    case Down(up, _, c, _, sib) => Balanced(sib) && Bh(sib) == h && PathBal(up, h + Weight(c))
  }

  /** Red nodes on the path have black parents and black siblings; in particular the root is black. */
  ghost predicate PathRed(p: Path) {
    match p
    case Top => true
    case Down(up, _, c, _, sib) =>
      PathRed(up) && RedOk(sib) && (c.Red? ==> !IsRed(sib) && up.Down? && up.color.Black?)
  }

  lemma {:induction false} PlugRb(p: Path, t: Shape)
    requires Balanced(t) && RedOk(t) && PathBal(p, Bh(t)) && PathRed(p)
    requires IsRed(t) ==> p.Down? && p.color.Black?
    ensures RbOk(Plug(p, t)) && (p.Down? ==> Plug(p, t).Branch?)
    decreases p
  {
    match p
    case Top =>
    case Down(up, s, c, n, sib) => PlugRb(up, Wrap(s, c, n, sib, t));
  }

  /** A red-black tree splits at any place into a well-formed path and subtree. */
  lemma {:induction false} UnplugRb(p: Path, t: Shape)
    requires RbOk(Plug(p, t))
    ensures Balanced(t) && RedOk(t) && PathBal(p, Bh(t)) && PathRed(p)
    ensures IsRed(t) ==> p.Down? && p.color.Black?
    decreases p
  {
    match p
    case Top =>
    case Down(up, s, c, n, sib) => UnplugRb(up, Wrap(s, c, n, sib, t));
  }

  // ---------------------------------------------------------------- height

  ghost function Height(t: Shape): nat {
    match t
    case Leaf => 0
    case Branch(_, l, _, r) => 1 + if Height(l) < Height(r) then Height(r) else Height(l)
  }

  lemma {:induction false} BlackHeightBounds(t: Shape)
    requires Balanced(t) && RedOk(t)
    ensures Pow(Bh(t)) <= |Inorder(t)| + 1
    ensures Height(t) <= 2 * Bh(t) + (if IsRed(t) then 1 else 0)
  {
    match t
    case Leaf =>
    case Branch(c, l, n, r) => BlackHeightBounds(l); BlackHeightBounds(r);
  }

  lemma PowSquare(m: nat, h: nat)
    requires h <= 2 * m
    ensures Pow(h) <= Pow(m) * Pow(m)
  {
    hide Pow;
    PowMono(h, m + m);
    PowSum(m, m);
  }

  lemma SquareMono(a: nat, b: nat)
    requires a <= b
    ensures a * a <= b * b
  {
    assert a * a <= a * b <= b * b;
  }

  /** The comment of include/tree.h: the maximum height is 2 lg (n + 1). */
  lemma HeightBound(t: Shape)
    requires RbOk(t)
    ensures Pow(Height(t)) <= (|Inorder(t)| + 1) * (|Inorder(t)| + 1)
  {
    BlackHeightBounds(t);
    PowSquare(Bh(t), Height(t));
    SquareMono(Pow(Bh(t)), |Inorder(t)| + 1);
  }

  // ---------------------------------------------------------------- order

  ghost predicate Sorted(s: seq<Node>) {
    forall i, j :: 0 <= i < j < |s| ==> Less(s[i].key, s[j].key)
  }

  /** Where a node sits: the path to it and the subtree it heads. */
  ghost function Locate(t: Shape, x: Node, p: Path): (r: (Path, Shape))
    requires x in Elems(t)
    ensures r.1.Branch? && r.1.node == x && Plug(r.0, r.1) == Plug(p, t)
    decreases t
  {
    if t.node == x then (p, t)
    else if x in Elems(t.left) then Locate(t.left, x, Down(p, L, t.color, t.node, t.right))
    else Locate(t.right, x, Down(p, R, t.color, t.node, t.left))
  }

  /** The key lies between what precedes and what follows the hole. */
  ghost predicate Around(p: Path, k: Key) {
    && (forall x :: x in Before(p) ==> Less(x.key, k))
    && (forall x :: x in After(p) ==> Less(k, x.key))
  }

  lemma SortedParts(a: seq<Node>, x: Node, b: seq<Node>)
    requires Sorted(a + [x] + b)
    ensures forall y :: y in a ==> Less(y.key, x.key)
    ensures forall y :: y in b ==> Less(x.key, y.key)
  {
    var s := a + [x] + b;
    forall y | y in a ensures Less(y.key, x.key) {
      var i :| 0 <= i < |a| && a[i] == y;
      assert s[i] == y && s[|a|] == x;
    }
    forall y | y in b ensures Less(x.key, y.key) {
      var i :| 0 <= i < |b| && b[i] == y;
      assert s[|a|] == x && s[|a| + 1 + i] == y;
    }
  }

  lemma LessTrans(a: Key, b: Key, c: Key)
    requires Less(a, b) && Less(b, c)
    ensures Less(a, c)
  {}

  /** Going down towards a key keeps it between its neighbours. */
  lemma DescendLeft(p: Path, t: Shape, k: Key)
    requires t.Branch? && Sorted(Before(p) + Inorder(t) + After(p)) && Around(p, k)
    requires Less(k, t.node.key)
    ensures Around(Down(p, L, t.color, t.node, t.right), k)
  {
    hide Less, Sorted;
    var a, b := Before(p) + Inorder(t.left), Inorder(t.right) + After(p);
    assert Before(p) + Inorder(t) + After(p) == a + [t.node] + b;
    SortedParts(a, t.node, b);
    forall x | x in Inorder(t.right) ensures Less(k, x.key) {
      assert x in b;
      LessTrans(k, t.node.key, x.key);
    }
  }

  lemma DescendRight(p: Path, t: Shape, k: Key)
    requires t.Branch? && Sorted(Before(p) + Inorder(t) + After(p)) && Around(p, k)
    requires Less(t.node.key, k)
    ensures Around(Down(p, R, t.color, t.node, t.left), k)
  {
    hide Less, Sorted;
    var a, b := Before(p) + Inorder(t.left), Inorder(t.right) + After(p);
    assert Before(p) + Inorder(t) + After(p) == a + [t.node] + b;
    SortedParts(a, t.node, b);
    forall x | x in Inorder(t.left) ensures Less(x.key, k) {
      assert x in a;
      LessTrans(x.key, t.node.key, k);
    }
  }

  lemma SortedInsert(a: seq<Node>, x: Node, b: seq<Node>)
    requires Sorted(a + b)
    requires forall y :: y in a ==> Less(y.key, x.key)
    requires forall y :: y in b ==> Less(x.key, y.key)
    ensures Sorted(a + [x] + b)
  {
    var s, u := a + [x] + b, a + b;
    forall i, j | 0 <= i < j < |s| ensures Less(s[i].key, s[j].key) {
      if i != |a| && j != |a| {
        var i', j' := if i < |a| then i else i - 1, if j < |a| then j else j - 1;
        assert s[i] == u[i'] && s[j] == u[j'];
      } else if i == |a| {
        assert s[j] in b;
      } else {
        assert s[i] in a;
      }
    }
  }

  lemma SortedRemove(a: seq<Node>, x: Node, b: seq<Node>)
    requires Sorted(a + [x] + b)
    ensures Sorted(a + b)
  {
    var s, u := a + [x] + b, a + b;
    forall i, j | 0 <= i < j < |u| ensures Less(u[i].key, u[j].key) {
      var i', j' := if i < |a| then i else i + 1, if j < |a| then j else j + 1;
      assert u[i] == s[i'] && u[j] == s[j'];
    }
  }

  lemma {:induction false} PathOrderElems(p: Path)
    ensures forall x :: x in PathElems(p) <==> x in Before(p) || x in After(p)
  {
    match p
    case Top =>
    case Down(up, _, _, _, sib) => PathOrderElems(up); InorderElems(sib);
  }
}
