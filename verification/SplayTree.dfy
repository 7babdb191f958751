/** The top-down splay tree of include/tree.h, rotated and relinked in place. */
module SplayTree {

  class Node {
    const key: int
    var left: Node?
    var right: Node?

    constructor (k: int)
      ensures key == k
    {
      key := k;
      left, right := null, null;
    }
  }

  // ---------------------------------------------------------------- shapes

  datatype Shape = Leaf | Branch(left: Shape, node: Node, right: Shape)

  /** A chain of nodes, each with one finished subtree; the next node hangs on the other side. */
  datatype Spine = End | Link(up: Spine, node: Node, sub: Shape)

  ghost function Elems(t: Shape): set<Node> {
    match t case Leaf => {} case Branch(l, n, r) => Elems(l) + {n} + Elems(r)
  }

  ghost function SpineElems(s: Spine): set<Node> {
    match s case End => {} case Link(up, n, sub) => SpineElems(up) + {n} + Elems(sub)
  }

  ghost function Inorder(t: Shape): seq<Node> {
    match t case Leaf => [] case Branch(l, n, r) => Inorder(l) + [n] + Inorder(r)
  }

  /** In-order contents of a left spine, before its hole, and of a right spine, after its hole. */
  ghost function LeftOrder(s: Spine): seq<Node> {
    match s case End => [] case Link(up, n, sub) => LeftOrder(up) + (Inorder(sub) + [n])
  }

  ghost function RightOrder(s: Spine): seq<Node> {
    match s case End => [] case Link(up, n, sub) => ([n] + Inorder(sub)) + RightOrder(up)
  }

  /** The tree that a spine forms once its hole is filled. */
  ghost function CloseLeft(s: Spine, t: Shape): Shape {
    match s case End => t case Link(up, n, sub) => CloseLeft(up, Branch(sub, n, t))
  }

  ghost function CloseRight(s: Spine, t: Shape): Shape {
    match s case End => t case Link(up, n, sub) => CloseRight(up, Branch(t, n, sub))
  }

  lemma {:induction false} CloseLeftOrder(s: Spine, t: Shape)
    ensures Inorder(CloseLeft(s, t)) == LeftOrder(s) + Inorder(t)
    ensures Elems(CloseLeft(s, t)) == SpineElems(s) + Elems(t)
    ensures Sep(t) && SpineSep(s) && Elems(t) !! SpineElems(s) ==> Sep(CloseLeft(s, t))
    decreases s
  {
    if s.Link? { CloseLeftOrder(s.up, Branch(s.sub, s.node, t)); }
  }

  lemma {:induction false} CloseRightOrder(s: Spine, t: Shape)
    ensures Inorder(CloseRight(s, t)) == Inorder(t) + RightOrder(s)
    ensures Elems(CloseRight(s, t)) == SpineElems(s) + Elems(t)
    ensures Sep(t) && SpineSep(s) && Elems(t) !! SpineElems(s) ==> Sep(CloseRight(s, t))
    decreases s
  {
    if s.Link? { CloseRightOrder(s.up, Branch(t, s.node, s.sub)); }
  }

  ghost predicate Sep(t: Shape) {
    match t
    case Leaf => true
    case Branch(l, n, r) => Sep(l) && Sep(r) && n !in Elems(l) && n !in Elems(r) && Elems(l) !! Elems(r)
  }

  ghost predicate SpineSep(s: Spine) {
    match s
    case End => true
    case Link(up, n, sub) =>
      SpineSep(up) && Sep(sub) && n !in Elems(sub) && n !in SpineElems(up) && Elems(sub) !! SpineElems(up)
  }

  ghost function Head(t: Shape): (r: Node?)
    ensures r == null <==> t.Leaf?
  {
    match t case Leaf => null case Branch(_, n, _) => n
  }

  ghost function Last(s: Spine, top: Node): (r: Node)
    ensures r == top || r in SpineElems(s)
  {
    match s case End => top case Link(_, n, _) => n
  }

  // ---------------------------------------------------------------- links

  ghost predicate Rep(t: Shape)
    reads Elems(t)
  {
    match t
    case Leaf => true
    case Branch(l, n, r) => n.left == Head(l) && n.right == Head(r) && Rep(l) && Rep(r)
  }

  /** The nodes of a left spine hang on right links, starting from `top`; the last right link is free. */
  ghost predicate LeftRep(s: Spine, top: Node)
    reads SpineElems(s), top`right
  {
    match s
    case End => true
    case Link(up, n, sub) => Last(up, top).right == n && n.left == Head(sub) && Rep(sub) && LeftRep(up, top)
  }

  ghost predicate RightRep(s: Spine, top: Node)
    reads SpineElems(s), top`left
  {
    match s
    case End => true
    case Link(up, n, sub) => Last(up, top).left == n && n.right == Head(sub) && Rep(sub) && RightRep(up, top)
  }

  lemma RepBranch(t: Shape)
    requires t.Branch?
    ensures Rep(t) <==> t.node.left == Head(t.left) && t.node.right == Head(t.right) && Rep(t.left) && Rep(t.right)
    ensures Elems(t) == Elems(t.left) + {t.node} + Elems(t.right)
    ensures Sep(t) <==> Sep(t.left) && Sep(t.right) && t.node !in Elems(t.left) && t.node !in Elems(t.right)
                        && Elems(t.left) !! Elems(t.right)
  {}

  /** Closing a spine in place: the free link at its end is set to `t`. */
  lemma {:induction false} LeftClosed(s: Spine, top: Node, t: Shape)
    requires LeftRep(s, top) && Last(s, top).right == Head(t) && Rep(t)
    ensures top.right == Head(CloseLeft(s, t)) && Rep(CloseLeft(s, t))
    decreases s
  {
    if s.Link? { LeftClosed(s.up, top, Branch(s.sub, s.node, t)); }
  }

  lemma {:induction false} RightClosed(s: Spine, top: Node, t: Shape)
    requires RightRep(s, top) && Last(s, top).left == Head(t) && Rep(t)
    ensures top.left == Head(CloseRight(s, t)) && Rep(CloseRight(s, t))
    decreases s
  {
    if s.Link? { RightClosed(s.up, top, Branch(t, s.node, s.sub)); }
  }

  /** The state inside SPLAY: the tree at the root, and what was linked off to both sides of it. */
  ghost predicate Apart(t: Shape, ls: Spine, rs: Spine, top: Node, ns: set<Node>) {
    && Sep(t) && SpineSep(ls) && SpineSep(rs)
    && Elems(t) !! SpineElems(ls) && Elems(t) !! SpineElems(rs) && SpineElems(ls) !! SpineElems(rs)
    && ns == Elems(t) + SpineElems(ls) + SpineElems(rs) && top !in ns
  }

  ghost predicate Held(t: Shape, ls: Spine, rs: Spine, top: Node, ns: set<Node>)
    reads ns, top, Elems(t), SpineElems(ls), SpineElems(rs)
  {
    Apart(t, ls, rs, top, ns) && Rep(t) && LeftRep(ls, top) && RightRep(rs, top)
  }

  lemma RotateRightOk(t: Shape)
    requires t.Branch? && t.left.Branch?
    ensures var u := Branch(t.left.left, t.left.node, Branch(t.left.right, t.node, t.right));
            Elems(u) == Elems(t) && Inorder(u) == Inorder(t) && (Sep(t) ==> Sep(u))
  {
    hide Elems, Sep;
    var l, r := t.left, Branch(t.left.right, t.node, t.right);
    RepBranch(t); RepBranch(l); RepBranch(r); RepBranch(Branch(l.left, l.node, r));
    var a, x, b, y, c := Inorder(l.left), l.node, Inorder(l.right), t.node, Inorder(t.right);
    assert (a + [x] + b) + [y] + c == a + [x] + (b + [y] + c);
  }

  lemma RotateLeftOk(t: Shape)
    requires t.Branch? && t.right.Branch?
    ensures var u := Branch(Branch(t.left, t.node, t.right.left), t.right.node, t.right.right);
            Elems(u) == Elems(t) && Inorder(u) == Inorder(t) && (Sep(t) ==> Sep(u))
  {
    hide Elems, Sep;
    var l, r := Branch(t.left, t.node, t.right.left), t.right;
    RepBranch(t); RepBranch(l); RepBranch(r); RepBranch(Branch(l, r.node, r.right));
    var a, x, b, y, c := Inorder(t.left), t.node, Inorder(r.left), r.node, Inorder(r.right);
    assert a + [x] + (b + [y] + c) == (a + [x] + b) + [y] + c;
  }

  /** SPLAY_ROTATE_RIGHT. */
  method RotateRight(root: Node, tmp: Node, ghost t: Shape, ghost ls: Spine, ghost rs: Spine, ghost top: Node,
                     ghost ns: set<Node>) returns (ghost u: Shape)
    requires Held(t, ls, rs, top, ns) && t.Branch? && t.left.Branch? && root == t.node && tmp == t.left.node
    modifies ns
    ensures u == Branch(t.left.left, tmp, Branch(t.left.right, root, t.right)) && Held(u, ls, rs, top, ns)
    ensures Inorder(u) == Inorder(t)
  {
    hide Rep, Elems, SpineElems, Sep, SpineSep, LeftRep, RightRep, Inorder;
    u := Branch(t.left.left, tmp, Branch(t.left.right, root, t.right));
    RepBranch(t);
    RepBranch(t.left);
    RotateRightOk(t);
    root.left := tmp.right;
    tmp.right := root;
    RepBranch(u.right);
    RepBranch(u);
  }

  /** SPLAY_ROTATE_LEFT. */
  method RotateLeft(root: Node, tmp: Node, ghost t: Shape, ghost ls: Spine, ghost rs: Spine, ghost top: Node,
                    ghost ns: set<Node>) returns (ghost u: Shape)
    requires Held(t, ls, rs, top, ns) && t.Branch? && t.right.Branch? && root == t.node && tmp == t.right.node
    modifies ns
    ensures u == Branch(Branch(t.left, root, t.right.left), tmp, t.right.right) && Held(u, ls, rs, top, ns)
    ensures Inorder(u) == Inorder(t)
  {
    hide Rep, Elems, SpineElems, Sep, SpineSep, LeftRep, RightRep, Inorder;
    u := Branch(Branch(t.left, root, t.right.left), tmp, t.right.right);
    RepBranch(t);
    RepBranch(t.right);
    RotateLeftOk(t);
    root.right := tmp.left;
    tmp.left := root;
    RepBranch(u.left);
    RepBranch(u);
  }

  lemma SpineLink(s: Spine, top: Node)
    requires s.Link?
    ensures SpineElems(s) == SpineElems(s.up) + {s.node} + Elems(s.sub)
    ensures SpineSep(s) <==> SpineSep(s.up) && Sep(s.sub) && s.node !in Elems(s.sub) && s.node !in SpineElems(s.up)
                             && Elems(s.sub) !! SpineElems(s.up)
    ensures LeftRep(s, top) <==> Last(s.up, top).right == s.node && s.node.left == Head(s.sub) && Rep(s.sub)
                                 && LeftRep(s.up, top)
    ensures RightRep(s, top) <==> Last(s.up, top).left == s.node && s.node.right == Head(s.sub) && Rep(s.sub)
                                  && RightRep(s.up, top)
    ensures Last(s, top) == s.node
  {}

  lemma SpineEnd(top: Node)
    ensures SpineElems(End) == {} && SpineSep(End) && LeftRep(End, top) && RightRep(End, top)
  {}

  /** SPLAY_LINKLEFT: the root joins the right spine, and its left subtree becomes the tree. */
  method LinkLeft(root: Node, right: Node, ghost t: Shape, ghost ls: Spine, ghost rs: Spine, ghost top: Node,
                  ghost ns: set<Node>) returns (newRoot: Node?, newRight: Node)
    requires Held(t, ls, rs, top, ns) && t.Branch? && root == t.node && right == Last(rs, top)
    modifies ns, top
    ensures Held(t.left, ls, Link(rs, root, t.right), top, ns) && newRoot == Head(t.left) && newRight == root
  {
    hide Rep, Elems, SpineElems, Sep, SpineSep, LeftRep, RightRep;
    RepBranch(t);
    if rs.Link? { SpineLink(rs, top); }
    right.left := root;
    newRight := root;
    newRoot := root.left;
    if rs.Link? { SpineLink(rs, top); } else { SpineEnd(top); }
    SpineLink(Link(rs, root, t.right), top);
  }

  /** SPLAY_LINKRIGHT: the root joins the left spine, and its right subtree becomes the tree. */
  method LinkRight(root: Node, left: Node, ghost t: Shape, ghost ls: Spine, ghost rs: Spine, ghost top: Node,
                   ghost ns: set<Node>) returns (newRoot: Node?, newLeft: Node)
    requires Held(t, ls, rs, top, ns) && t.Branch? && root == t.node && left == Last(ls, top)
    modifies ns, top
    ensures Held(t.right, Link(ls, root, t.left), rs, top, ns) && newRoot == Head(t.right) && newLeft == root
  {
    hide Rep, Elems, SpineElems, Sep, SpineSep, LeftRep, RightRep;
    RepBranch(t);
    if ls.Link? { SpineLink(ls, top); }
    left.right := root;
    newLeft := root;
    newRoot := root.right;
    if ls.Link? { SpineLink(ls, top); } else { SpineEnd(top); }
    SpineLink(Link(ls, root, t.left), top);
  }

  ghost function Assembled(t: Shape, ls: Spine, rs: Spine): Shape
    requires t.Branch?
  {
    Branch(CloseLeft(ls, t.left), t.node, CloseRight(rs, t.right))
  }

  lemma AssembledOk(t: Shape, ls: Spine, rs: Spine, top: Node, ns: set<Node>)
    requires Apart(t, ls, rs, top, ns) && t.Branch?
    ensures var u := Assembled(t, ls, rs);
            Sep(u) && Elems(u) == ns && Inorder(u) == LeftOrder(ls) + Inorder(t) + RightOrder(rs)
            && Inorder(u.left) == LeftOrder(ls) + Inorder(t.left)
            && Inorder(u.right) == Inorder(t.right) + RightOrder(rs)
            && t.node !in Elems(u.left) && t.node !in Elems(u.right)
  {
    hide Elems, Sep, SpineElems, SpineSep, LeftOrder, RightOrder, CloseLeft, CloseRight, Inorder;
    RepBranch(t);
    RepBranch(Assembled(t, ls, rs));
    CloseLeftOrder(ls, t.left);
    CloseRightOrder(rs, t.right);
    OrderBranch(t);
    OrderBranch(Assembled(t, ls, rs));
    Regroup(LeftOrder(ls), Inorder(t.left), t.node, Inorder(t.right), RightOrder(rs));
  }

  lemma OrderBranch(t: Shape)
    requires t.Branch?
    ensures Inorder(t) == Inorder(t.left) + [t.node] + Inorder(t.right)
  {}

  lemma Regroup(a: seq<Node>, l: seq<Node>, n: Node, r: seq<Node>, b: seq<Node>)
    ensures (a + l) + [n] + (r + b) == a + (l + [n] + r) + b
  {}

  /** SPLAY_ASSEMBLE. */
  method Assemble(root: Node, top: Node, left: Node, right: Node, ghost t: Shape, ghost ls: Spine, ghost rs: Spine,
                  ghost ns: set<Node>)
    requires Held(t, ls, rs, top, ns) && t.Branch? && root == t.node && left == Last(ls, top) && right == Last(rs, top)
    modifies ns, top
    ensures Rep(Assembled(t, ls, rs))
  {
    hide Rep, Elems, SpineElems, Sep, SpineSep, LeftRep, RightRep, CloseLeft, CloseRight, LeftOrder, RightOrder, Inorder;
    RepBranch(t);
    AssembledOk(t, ls, rs, top, ns);
    CloseLeftOrder(ls, t.left);
    CloseRightOrder(rs, t.right);
    if ls.Link? { SpineLink(ls, top); }
    if rs.Link? { SpineLink(rs, top); }
    left.right := root.left;
    right.left := root.right;
    if ls.Link? { SpineLink(ls, top); } else { SpineEnd(top); }
    if rs.Link? { SpineLink(rs, top); } else { SpineEnd(top); }
    LeftClosed(ls, top, t.left);
    RightClosed(rs, top, t.right);
    root.left := top.right;
    root.right := top.left;
    RepBranch(Assembled(t, ls, rs));
  }

  // ---------------------------------------------------------------- search order

  /** What SPLAY compares nodes with: a key, or the two ends that SPLAY_MINMAX asks for. */
  datatype Probe = NegInf | At(key: int) | Inf

  function Cmp(p: Probe, n: Node): int {
    match p
    case NegInf => -1
    case At(k) => if k < n.key then -1 else if k > n.key then 1 else 0
    case Inf => 1
  }

  ghost predicate Sorted(s: seq<Node>) {
    forall i, j :: 0 <= i < j < |s| ==> s[i].key < s[j].key
  }

  ghost predicate Below(s: seq<Node>, p: Probe) {
    forall i :: 0 <= i < |s| ==> Cmp(p, s[i]) > 0
  }

  ghost predicate Above(s: seq<Node>, p: Probe) {
    forall i :: 0 <= i < |s| ==> Cmp(p, s[i]) < 0
  }

  /** The root has the searched key, or nothing of the tree lies between it and that key. */
  ghost predicate Near(t: Shape, p: Probe) {
    t.Branch? &&
    (Cmp(p, t.node) == 0
     || (Cmp(p, t.node) < 0 && Below(Inorder(t.left), p))
     || (Cmp(p, t.node) > 0 && Above(Inorder(t.right), p)))
  }

  ghost predicate Split(order: seq<Node>, ls: Spine, t: Shape, rs: Spine, p: Probe) {
    order == LeftOrder(ls) + Inorder(t) + RightOrder(rs) && Below(LeftOrder(ls), p) && Above(RightOrder(rs), p)
  }

  lemma SplitAbove(a: seq<Node>, l: seq<Node>, n: Node, r: seq<Node>, b: seq<Node>, p: Probe)
    requires Sorted(a + (l + [n] + r) + b) && Cmp(p, n) < 0
    ensures Above(([n] + r) + b, p) && a + (l + [n] + r) + b == a + l + (([n] + r) + b)
  {
    var s := a + (l + [n] + r) + b;
    var u := ([n] + r) + b;
    assert s == a + l + u;
    forall i | 0 <= i < |u| ensures Cmp(p, u[i]) < 0 { assert s[|a| + |l| + i] == u[i]; assert s[|a| + |l|] == n; }
  }

  lemma SplitBelow(a: seq<Node>, l: seq<Node>, n: Node, r: seq<Node>, b: seq<Node>, p: Probe)
    requires Sorted(a + (l + [n] + r) + b) && Cmp(p, n) > 0
    ensures Below(a + (l + [n]), p) && a + (l + [n] + r) + b == (a + (l + [n])) + r + b
  {
    var s := a + (l + [n] + r) + b;
    var u := a + (l + [n]);
    assert s == u + r + b;
    forall i | 0 <= i < |u| ensures Cmp(p, u[i]) > 0 { assert s[i] == u[i]; assert s[|a| + |l|] == n; }
  }

  lemma LinkedLeft(order: seq<Node>, ls: Spine, t: Shape, rs: Spine, p: Probe)
    requires Sorted(order) && Split(order, ls, t, rs, p) && t.Branch? && Cmp(p, t.node) < 0
    ensures Split(order, ls, t.left, Link(rs, t.node, t.right), p)
  {
    SplitAbove(LeftOrder(ls), Inorder(t.left), t.node, Inorder(t.right), RightOrder(rs), p);
  }

  lemma LinkedRight(order: seq<Node>, ls: Spine, t: Shape, rs: Spine, p: Probe)
    requires Sorted(order) && Split(order, ls, t, rs, p) && t.Branch? && Cmp(p, t.node) > 0
    ensures Split(order, Link(ls, t.node, t.left), t.right, rs, p)
  {
    SplitBelow(LeftOrder(ls), Inorder(t.left), t.node, Inorder(t.right), RightOrder(rs), p);
  }

  /** Where the loop of SPLAY stops. */
  ghost predicate Stop(t: Shape, p: Probe) {
    t.Branch? && (Cmp(p, t.node) == 0 || (Cmp(p, t.node) < 0 && t.left.Leaf?) || (Cmp(p, t.node) > 0 && t.right.Leaf?))
  }

  lemma StopNear(order: seq<Node>, ls: Spine, t: Shape, rs: Spine, p: Probe, top: Node, ns: set<Node>)
    requires Split(order, ls, t, rs, p) && Stop(t, p) && Apart(t, ls, rs, top, ns)
    ensures Near(Assembled(t, ls, rs), p) && Inorder(Assembled(t, ls, rs)) == order
  {
    AssembledOk(t, ls, rs, top, ns);
  }

  /** SPLAY, and SPLAY_MINMAX for the two ends. */
  method Splay(first: Node, p: Probe, ghost s: Shape, ghost ns: set<Node>) returns (root: Node, ghost u: Shape)
    requires Rep(s) && Sep(s) && first == Head(s) && ns == Elems(s) && Sorted(Inorder(s))
    modifies ns
    ensures Rep(u) && Sep(u) && root == Head(u) && Elems(u) == ns
    ensures Inorder(u) == Inorder(s) && Near(u, p)
  {
    hide Rep, Elems, SpineElems, Sep, SpineSep, LeftRep, RightRep, LeftOrder, RightOrder, Inorder;
    hide Split, Near, Sorted, Cmp, CloseLeft, CloseRight;
    ghost var order := Inorder(s);
    root := first;
    var top := new Node(0);
    var left, right := top, top;
    ghost var t, ls, rs := s, End, End;
    SpineEnd(top);
    assert Split(order, ls, t, rs, p) by { SplitStart(s, p); }
    while Cmp(p, root) != 0
      invariant Held(t, ls, rs, top, ns) && t.Branch? && root == t.node
      invariant left == Last(ls, top) && right == Last(rs, top)
      invariant Split(order, ls, t, rs, p)
      decreases |Inorder(t)|
    {
      RepBranch(t);
      Shrinks(t);
      if Cmp(p, root) < 0 {
        var tmp := root.left;
        if tmp == null { break; }
        if Cmp(p, tmp) < 0 {
          ghost var v := RotateRight(root, tmp, t, ls, rs, top, ns);
          SplitSame(order, ls, t, v, rs, p);
          t := v;
          root := tmp;
          RepBranch(t);
          Shrinks(t);
          if root.left == null { break; }
        }
        LinkedLeft(order, ls, t, rs, p);
        ghost var n, r := t.node, t.right;
        root, right := LinkLeft(root, right, t, ls, rs, top, ns);
        t, rs := t.left, Link(rs, n, r);
      } else {
        var tmp := root.right;
        if tmp == null { break; }
        if Cmp(p, tmp) > 0 {
          ghost var v := RotateLeft(root, tmp, t, ls, rs, top, ns);
          SplitSame(order, ls, t, v, rs, p);
          t := v;
          root := tmp;
          RepBranch(t);
          Shrinks(t);
          if root.right == null { break; }
        }
        LinkedRight(order, ls, t, rs, p);
        ghost var n, l := t.node, t.left;
        root, left := LinkRight(root, left, t, ls, rs, top, ns);
        t, ls := t.right, Link(ls, n, l);
      }
    }
    StopNear(order, ls, t, rs, p, top, ns);
    AssembledOk(t, ls, rs, top, ns);
    Assemble(root, top, left, right, t, ls, rs, ns);
    u := Assembled(t, ls, rs);
  }

  lemma SplitSame(order: seq<Node>, ls: Spine, t: Shape, u: Shape, rs: Spine, p: Probe)
    requires Split(order, ls, t, rs, p) && Inorder(u) == Inorder(t)
    ensures Split(order, ls, u, rs, p)
  {
    hide Inorder, LeftOrder, RightOrder;
  }

  lemma SplitStart(s: Shape, p: Probe)
    ensures Split(Inorder(s), End, s, End, p)
  {
    assert [] + Inorder(s) + [] == Inorder(s);
  }

  lemma Shrinks(t: Shape)
    requires t.Branch?
    ensures |Inorder(t.left)| < |Inorder(t)| && |Inorder(t.right)| < |Inorder(t)|
  {}

  lemma {:induction false} ElemsInorder(t: Shape)
    ensures forall n :: n in Elems(t) <==> n in Inorder(t)
  {
    if t.Branch? { ElemsInorder(t.left); ElemsInorder(t.right); }
  }

  lemma RootAt(t: Shape)
    requires t.Branch?
    ensures var o, i := Inorder(t), |Inorder(t.left)|;
            i < |o| && o[i] == t.node && o[..i] == Inorder(t.left) && o[i + 1..] == Inorder(t.right)
            && o == Inorder(t.left) + [t.node] + Inorder(t.right)
  {}

  /** A splayed tree holds the probed key only at its root, and at most one side of the root is cut by the key. */
  lemma NearCut(t: Shape, k: int)
    requires Near(t, At(k)) && Sorted(Inorder(t))
    ensures t.node.key > k ==> Below(Inorder(t.left), At(k)) && Above([t.node] + Inorder(t.right), At(k))
    ensures t.node.key < k ==> Below(Inorder(t.left) + [t.node], At(k)) && Above(Inorder(t.right), At(k))
    ensures t.node.key == k ==> Below(Inorder(t.left), At(k)) && Above(Inorder(t.right), At(k))
  {
    hide Inorder;
    RootAt(t);
    var l, r, o := Inorder(t.left), Inorder(t.right), Inorder(t);
    forall i | 0 <= i < |l| ensures l[i].key < t.node.key { assert o[i] == l[i] && o[|l|] == t.node; }
    forall i | 0 <= i < |r| ensures r[i].key > t.node.key { assert o[|l| + 1 + i] == r[i] && o[|l|] == t.node; }
  }

  ghost predicate Absent(s: seq<Node>, k: int) {
    forall i :: 0 <= i < |s| ==> s[i].key != k
  }

  lemma NotElem(t: Shape, n: Node)
    ensures Absent(Inorder(t), n.key) ==> n !in Elems(t)
  {
    ElemsInorder(t);
    if n in Elems(t) { assert n in Inorder(t); }
  }

  lemma NearAbsent(t: Shape, k: int)
    requires Near(t, At(k)) && Sorted(Inorder(t))
    ensures Absent(Inorder(t), k) <==> t.node.key != k
  {
    hide Inorder;
    NearCut(t, k);
    RootAt(t);
    var l, r, o := Inorder(t.left), Inorder(t.right), Inorder(t);
    if t.node.key != k {
      forall i | 0 <= i < |o| ensures o[i].key != k {
        if i < |l| {
          assert o[i] == l[i];
          assert t.node.key < k ==> (l + [t.node])[i] == l[i];
        } else if i > |l| {
          assert o[i] == r[i - |l| - 1];
          assert t.node.key > k ==> ([t.node] + r)[i - |l|] == r[i - |l| - 1];
        }
      }
    }
  }

  ghost function Inserted(s: seq<Node>, i: nat, n: Node): (r: seq<Node>)
    requires i <= |s|
  {
    s[..i] + [n] + s[i..]
  }

  ghost function Removed(s: seq<Node>, i: nat): (r: seq<Node>)
    requires i < |s|
  {
    s[..i] + s[i + 1..]
  }

  lemma InsertedSorted(s: seq<Node>, i: nat, n: Node)
    requires Sorted(s) && i <= |s| && Below(s[..i], At(n.key)) && Above(s[i..], At(n.key))
    ensures Sorted(Inserted(s, i, n))
  {
    var o := Inserted(s, i, n);
    forall a, b | 0 <= a < b < |o| ensures o[a].key < o[b].key {
      if a < i { assert o[a] == s[..i][a]; } else if a > i { assert o[a] == s[i..][a - i - 1]; }
      if b < i { assert o[b] == s[..i][b]; } else if b > i { assert o[b] == s[i..][b - i - 1]; }
    }
  }

  lemma EmptyInorder(t: Shape)
    ensures Inorder(t) == [] ==> t.Leaf?
  {}

  lemma OneSide(s: seq<Node>, p: Probe)
    ensures s != [] ==> !(Below(s, p) && Above(s, p)) && !Below(s, NegInf) && !Above(s, Inf)
  {
    if s != [] {
      assert Cmp(p, s[0]) <= 0 || Cmp(p, s[0]) >= 0;
      assert Cmp(NegInf, s[0]) < 0 && Cmp(Inf, s[0]) > 0;
    }
  }

  lemma BelowParts(t: Shape, p: Probe)
    requires t.Branch? && Below(Inorder(t), p)
    ensures Below(Inorder(t.right), p) && Cmp(p, t.node) > 0
  {
    hide Inorder;
    RootAt(t);
    var o, l, r := Inorder(t), Inorder(t.left), Inorder(t.right);
    assert Cmp(p, o[|l|]) > 0;
    forall i | 0 <= i < |r| ensures Cmp(p, r[i]) > 0 { assert r[i] == o[|l| + 1 + i]; }
  }

  /** SPLAY on a tree all of whose keys are below k leaves the greatest node at the root. */
  lemma NearGreatest(t: Shape, k: int)
    requires Near(t, At(k)) && Below(Inorder(t), At(k))
    ensures t.right.Leaf?
  {
    BelowParts(t, At(k));
    OneSide(Inorder(t.right), At(k));
    EmptyInorder(t.right);
  }

  lemma NearEnd(t: Shape)
    ensures Near(t, NegInf) ==> Inorder(t.left) == []
    ensures Near(t, Inf) ==> Inorder(t.right) == []
  {
    if t.Branch? {
      OneSide(Inorder(t.left), NegInf);
      OneSide(Inorder(t.right), Inf);
    }
  }

  /** The two shapes SPLAY_INSERT builds around a new root. */
  ghost function PutBelow(t: Shape, n: Node): Shape
    requires t.Branch?
  {
    Branch(t.left, n, Branch(Leaf, t.node, t.right))
  }

  ghost function PutAbove(t: Shape, n: Node): Shape
    requires t.Branch?
  {
    Branch(Branch(t.left, t.node, Leaf), n, t.right)
  }

  lemma PutBelowOk(t: Shape, n: Node)
    requires t.Branch? && Near(t, At(n.key)) && Sorted(Inorder(t)) && Sep(t) && n !in Elems(t) && n.key < t.node.key
    ensures var u, i := PutBelow(t, n), |Inorder(t.left)|;
            Sep(u) && Elems(u) == Elems(t) + {n} && i <= |Inorder(t)|
            && Inorder(u) == Inserted(Inorder(t), i, n) && Sorted(Inorder(u))
  {
    hide Inorder, Sorted, Sep, Elems, Near;
    var u, v, i := PutBelow(t, n), Branch(Leaf, t.node, t.right), |Inorder(t.left)|;
    LeafOk();
    NearCut(t, n.key);
    RootAt(t); RootAt(u); RootAt(v);
    RepBranch(t); RepBranch(u); RepBranch(v);
    assert Inorder(t)[i..] == [t.node] + Inorder(t.right);
    InsertedSorted(Inorder(t), i, n);
  }

  lemma PutAboveOk(t: Shape, n: Node)
    requires t.Branch? && Near(t, At(n.key)) && Sorted(Inorder(t)) && Sep(t) && n !in Elems(t) && n.key > t.node.key
    ensures var u, i := PutAbove(t, n), |Inorder(t.left)| + 1;
            Sep(u) && Elems(u) == Elems(t) + {n} && i <= |Inorder(t)|
            && Inorder(u) == Inserted(Inorder(t), i, n) && Sorted(Inorder(u))
  {
    hide Inorder, Sorted, Sep, Elems, Near;
    var u, v, i := PutAbove(t, n), Branch(t.left, t.node, Leaf), |Inorder(t.left)| + 1;
    LeafOk();
    NearCut(t, n.key);
    RootAt(t); RootAt(u); RootAt(v);
    RepBranch(t); RepBranch(u); RepBranch(v);
    assert Inorder(t)[..i] == Inorder(t.left) + [t.node];
    InsertedSorted(Inorder(t), i, n);
  }

  method RelinkBelow(root: Node, n: Node, ghost t: Shape)
    requires Rep(t) && Sep(t) && t.Branch? && root == t.node && n !in Elems(t)
    modifies root, n
    ensures Rep(PutBelow(t, n))
  {
    hide Rep, Sep, Elems;
    RepBranch(t);
    LeafOk();
    n.left := root.left;
    n.right := root;
    root.left := null;
    RepBranch(PutBelow(t, n).right);
    RepBranch(PutBelow(t, n));
  }

  method RelinkAbove(root: Node, n: Node, ghost t: Shape)
    requires Rep(t) && Sep(t) && t.Branch? && root == t.node && n !in Elems(t)
    modifies root, n
    ensures Rep(PutAbove(t, n))
  {
    hide Rep, Sep, Elems;
    RepBranch(t);
    LeafOk();
    n.right := root.right;
    n.left := root;
    root.right := null;
    RepBranch(PutAbove(t, n).left);
    RepBranch(PutAbove(t, n));
  }

  /** What SPLAY_REMOVE makes of the two subtrees of the node it takes out. */
  ghost function Join(u: Shape, r: Shape): Shape
    requires u.Branch?
  {
    Branch(u.left, u.node, r)
  }

  lemma JoinOk(t: Shape, u: Shape)
    requires t.Branch? && u.Branch? && u.right.Leaf? && Sep(t) && Sep(u)
    requires Elems(u) == Elems(t.left) && Inorder(u) == Inorder(t.left)
    ensures var s := Join(u, t.right);
            Sep(s) && Elems(s) == Elems(t) - {t.node} && Inorder(s) == Removed(Inorder(t), |Inorder(t.left)|)
  {
    hide Inorder, Sep, Elems;
    LeafOk();
    RootAt(t); RootAt(u); RootAt(Join(u, t.right));
    RepBranch(t); RepBranch(u); RepBranch(Join(u, t.right));
  }

  lemma SameKey(s: seq<Node>, i: nat, j: nat)
    requires Sorted(s) && i < |s| && j < |s| && s[i].key == s[j].key
    ensures i == j
  {}

  lemma FirstOf(t: Shape)
    requires t.Branch?
    ensures Inorder(t) != [] && (t.left.Leaf? ==> Inorder(t)[0] == t.node)
    ensures t.left.Branch? ==> Inorder(t.left) != [] && Inorder(t)[0] == Inorder(t.left)[0]
  {
    EmptyInorder(t.left);
  }

  method Leftmost(from: Node, ghost t: Shape) returns (n: Node)
    requires Rep(t) && from == Head(t)
    ensures Inorder(t) != [] && n == Inorder(t)[0]
  {
    hide Inorder, Rep;
    ghost var w := t;
    n := from;
    FirstOf(w);
    while n.left != null
      invariant Rep(w) && n == Head(w) && Inorder(w) != [] && Inorder(t) != [] && Inorder(w)[0] == Inorder(t)[0]
      decreases w
    {
      FirstOf(w);
      RepBranch(w);
      n := n.left;
      w := w.left;
    }
    FirstOf(w);
    RepBranch(w);
  }

  class Tree {
    var root: Node?
    ghost var nodes: set<Node>
    ghost var shape: Shape
    ghost var order: seq<Node>

    ghost predicate Valid()
      reads this, nodes
    {
      && Elems(shape) == nodes && Sep(shape) && Rep(shape)
      && root == Head(shape) && order == Inorder(shape) && Sorted(order)
    }

    constructor ()
      ensures Valid() && order == [] && nodes == {}
    {
      root, nodes, shape, order := null, {}, Leaf, [];
    }

    /** SPLAY_FIND and the splay step of the other operations. */
    method SplayTo(p: Probe)
      requires Valid() && root != null
      modifies this, nodes
      ensures Valid() && order == old(order) && nodes == old(nodes) && root != null && Near(shape, p)
    {
      hide Rep, Elems, Sep, Inorder, Sorted, Near;
      ghost var u;
      root, u := Splay(root, p, shape, nodes);
      shape := u;
    }

    method Find(k: int) returns (n: Node?)
      requires Valid()
      modifies this, nodes
      ensures Valid() && order == old(order) && nodes == old(nodes)
      ensures n == null <==> Absent(order, k)
      ensures n != null ==> n in order && n.key == k && root == n
    {
      if root == null { return null; }
      SplayTo(At(k));
      NearAbsent(shape, k);
      RootAt(shape);
      n := if root.key == k then root else null;
    }

    /** SPLAY_MIN and SPLAY_MAX. */
    method MinMax(low: bool) returns (n: Node?)
      requires Valid()
      modifies this, nodes
      ensures Valid() && order == old(order) && nodes == old(nodes)
      ensures n == null <==> order == []
      ensures order != [] ==> n == order[if low then 0 else |order| - 1] && root == n
    {
      if root == null { return null; }
      SplayTo(if low then NegInf else Inf);
      RootAt(shape);
      NearEnd(shape);
      n := root;
    }

    /** SPLAY_NEXT. */
    method Next(elm: Node, ghost i: nat) returns (n: Node?)
      requires Valid() && i < |order| && elm == order[i]
      modifies this, nodes
      ensures Valid() && order == old(order) && nodes == old(nodes)
      ensures n == if i + 1 < |order| then order[i + 1] else null
    {
      hide Rep, Elems, Sep, Inorder, Near, Sorted;
      ElemsInorder(shape);
      LeafOk();
      SplayTo(At(elm.key));
      NearAbsent(shape, elm.key);
      RootAt(shape);
      RepBranch(shape);
      SameKey(order, i, |Inorder(shape.left)|);
      n := elm.right;
      if n != null { n := Leftmost(n, shape.right); }
    }

    /** SPLAY_INSERT; a node that is in the tree already is found there. */
    method Insert(elm: Node) returns (r: Node?, ghost i: nat)
      requires Valid()
      modifies this, nodes, elm
      ensures Valid()
      ensures r == null <==> Absent(old(order), elm.key)
      ensures r == null ==> i <= |old(order)| && order == Inserted(old(order), i, elm) && nodes == old(nodes) + {elm}
      ensures r != null ==> r in old(order) && r.key == elm.key && order == old(order) && nodes == old(nodes)
    {
      hide Rep, Elems, Sep, Inorder, Sorted, Near, Absent;
      if root == null {
        elm.left, elm.right := null, null;
        shape := Branch(Leaf, elm, Leaf);
        i := 0;
        SingleOk(elm);
        assert Absent(order, elm.key) by { AbsentEmpty(elm.key); }
      } else {
        SplayTo(At(elm.key));
        ghost var t := shape;
        NearAbsent(t, elm.key);
        NotElem(t, elm);
        RepBranch(t);
        if elm.key < root.key {
          PutBelowOk(t, elm);
          RelinkBelow(root, elm, t);
          i := |Inorder(t.left)|;
          shape := PutBelow(t, elm);
        } else if elm.key > root.key {
          PutAboveOk(t, elm);
          RelinkAbove(root, elm, t);
          i := |Inorder(t.left)| + 1;
          shape := PutAbove(t, elm);
        } else {
          RootAt(t);
          return root, 0;
        }
      }
      root := elm;
      nodes := nodes + {elm};
      order := Inorder(shape);
      r := null;
    }

    /** SPLAY_REMOVE: the node with elm's key leaves; elm itself, which need not be that node, is returned. */
    method Remove(elm: Node) returns (r: Node?, ghost i: nat)
      requires Valid()
      modifies this, nodes
      ensures Valid()
      ensures r == null <==> Absent(old(order), elm.key)
      ensures r == null ==> order == old(order) && nodes == old(nodes)
      ensures r != null ==> r == elm && i < |old(order)| && old(order)[i].key == elm.key
                            && order == Removed(old(order), i) && nodes == old(nodes) - {old(order)[i]}
    {
      hide Rep, Elems, Sep, Inorder, Sorted, Near;
      if root == null { LeafOk(); return null, 0; }
      SplayTo(At(elm.key));
      ghost var t := shape;
      NearCut(t, elm.key);
      NearAbsent(t, elm.key);
      RepBranch(t);
      RootAt(t);
      if elm.key != root.key { return null, 0; }
      i := |Inorder(t.left)|;
      RemovedSorted(order, i);
      if root.left == null {
        root := root.right;
        shape := t.right;
        LeafOk();
      } else {
        var tmp := root.right;
        PrefixSorted(order, i);
        ghost var u;
        root, u := Splay(root.left, At(elm.key), t.left, Elems(t.left));
        NearGreatest(u, elm.key);
        JoinOk(t, u);
        RepBranch(u);
        root.right := tmp;
        shape := Join(u, t.right);
        RepBranch(shape);
      }
      assert Inorder(shape) == Removed(order, i);
      nodes := nodes - {t.node};
      order := Inorder(shape);
      r := elm;
    }
  }

  lemma LeafOk()
    ensures Rep(Leaf) && Sep(Leaf) && Elems(Leaf) == {} && Inorder(Leaf) == []
  {}

  lemma AbsentEmpty(k: int)
    ensures Absent([], k)
  {}

  lemma SingleOk(n: Node)
    requires n.left == null && n.right == null
    ensures var t := Branch(Leaf, n, Leaf); Rep(t) && Sep(t) && Elems(t) == {n} && Inorder(t) == [n] && Sorted(Inorder(t))
    ensures Inorder(Leaf) == [] && Elems(Leaf) == {}
  {}

  lemma RemovedSorted(s: seq<Node>, i: nat)
    requires Sorted(s) && i < |s|
    ensures Sorted(Removed(s, i))
  {}

  lemma PrefixSorted(s: seq<Node>, i: nat)
    requires Sorted(s) && i <= |s|
    ensures Sorted(s[..i])
  {}

  // ---------------------------------------------------------------- whole runs

  datatype Op = Put(key: int) | Delete(key: int) | Look(key: int)

  ghost function KeysAfter(ops: seq<Op>): set<int> {
    if ops == [] then {}
    else
      var ks := KeysAfter(ops[..|ops| - 1]);
      match ops[|ops| - 1]
      case Put(k) => ks + {k}
      case Delete(k) => ks - {k}
      case Look(_) => ks
  }

  ghost function Keys(s: seq<Node>): set<int> {
    set n | n in s :: n.key
  }

  lemma KeysInserted(s: seq<Node>, i: nat, n: Node)
    requires i <= |s|
    ensures Keys(Inserted(s, i, n)) == Keys(s) + {n.key}
  {
    forall x | x in s ensures x in Inserted(s, i, n) {
      assert s == s[..i] + s[i..];
    }
    assert n in Inserted(s, i, n);
  }

  lemma KeysRemoved(s: seq<Node>, i: nat)
    requires i < |s| && Sorted(s)
    ensures Keys(Removed(s, i)) == Keys(s) - {s[i].key}
  {
    var r := Removed(s, i);
    assert s == s[..i] + [s[i]] + s[i + 1..];
    forall x | x in r ensures x in s && x.key != s[i].key {
      var j :| 0 <= j < |r| && r[j] == x;
      assert x == if j < i then s[j] else s[j + 1];
    }
    forall x | x in s && x != s[i] ensures x in r {}
  }

  lemma AbsentKeys(s: seq<Node>, k: int)
    ensures Absent(s, k) <==> k !in Keys(s)
  {
    if k in Keys(s) {
      var n :| n in s && n.key == k;
    }
  }

  /** After any run the tree is a search tree of exactly the keys put and not deleted since. */
  method Run(ops: seq<Op>) returns (t: Tree)
    ensures t.Valid() && Keys(t.order) == KeysAfter(ops)
  {
    hide Tree.Valid, Absent, Inserted, Removed, Keys, Sorted;
    t := new Tree();
    assert Keys(t.order) == {} by { KeysEmpty(); }
    for i := 0 to |ops|
      invariant fresh(t) && fresh(t.nodes) && t.Valid() && Keys(t.order) == KeysAfter(ops[..i])
    {
      ghost var was := t.order;
      assert ops[..i + 1][..i] == ops[..i];
      AbsentKeys(was, ops[i].key);
      SortedOrder(t);
      match ops[i] {
        case Put(k) =>
          var n := new Node(k);
          ghost var at;
          var r;
          r, at := t.Insert(n);
          if r == null { KeysInserted(was, at, n); }
        case Delete(k) =>
          var n := new Node(k);
          ghost var at;
          var r;
          r, at := t.Remove(n);
          if r != null { KeysRemoved(was, at); }
        case Look(k) =>
          var r := t.Find(k);
      }
    }
    assert ops[..|ops|] == ops;
  }

  lemma KeysEmpty()
    ensures Keys([]) == {}
  {}

  lemma SortedOrder(t: Tree)
    requires t.Valid()
    ensures Sorted(t.order)
  {}
}
