/** The rebalancing steps of RB_INSERT_COLOR and RB_REMOVE_COLOR on shapes. */
module RbFixup {
  import opened RbShapes

  ghost function Child(t: Shape, s: Side): Shape
    requires t.Branch?
  {
    if s.L? then t.left else t.right
  }

  /** RB_SET_BLACKRED on a node and its parent. */
  ghost function BlackRed(t: Shape, s: Side): Shape
    requires t.Branch? && Child(t, s).Branch?
  {
    if s.L? then Branch(Red, t.left.(color := Black), t.node, t.right)
    else Branch(Red, t.left, t.node, t.right.(color := Black))
  }

  ghost predicate SameNodes(t: Shape, u: Shape) {
    Elems(t) == Elems(u) && Inorder(t) == Inorder(u) && (Sep(t) ==> Sep(u))
  }

  lemma RecolorSame(t: Shape, c: Color)
    requires t.Branch?
    ensures SameNodes(t, t.(color := c))
  {}

  // ---------------------------------------------------------------- rotations

  ghost predicate CanRotate(t: Shape, s: Side) { t.Branch? && (if s.L? then t.right.Branch? else t.left.Branch?) }

  /** The shape after RB_ROTATE_LEFT or RB_ROTATE_RIGHT. */
  ghost function Rotated(t: Shape, s: Side): Shape
    requires CanRotate(t, s)
  {
    if s.L? then
      Branch(t.right.color, Branch(t.color, t.left, t.node, t.right.left), t.right.node, t.right.right)
    else
      Branch(t.left.color, t.left.left, t.left.node, Branch(t.color, t.left.right, t.node, t.right))
  }

  lemma RotatedInorder(t: Shape, s: Side)
    requires CanRotate(t, s)
    ensures Inorder(Rotated(t, s)) == Inorder(t)
  {
    if s.L? {
      var a, b, e := Inorder(t.left), Inorder(t.right.left), Inorder(t.right.right);
      var x, y := t.node, t.right.node;
      assert Inorder(t.right) == b + [y] + e;
      assert Inorder(Rotated(t, s).left) == a + [x] + b;
      assert a + [x] + (b + [y] + e) == (a + [x] + b) + [y] + e;
    } else {
      var a, b, e := Inorder(t.left.left), Inorder(t.left.right), Inorder(t.right);
      var x, y := t.node, t.left.node;
      assert Inorder(t.left) == a + [y] + b;
      assert Inorder(Rotated(t, s).right) == b + [x] + e;
      assert (a + [y] + b) + [x] + e == a + [y] + (b + [x] + e);
    }
  }

  lemma RotatedElems(t: Shape, s: Side)
    requires CanRotate(t, s)
    ensures Elems(Rotated(t, s)) == Elems(t)
  {
    if s.L? {
      assert Elems(t.right) == Elems(t.right.left) + {t.right.node} + Elems(t.right.right);
    } else {
      assert Elems(t.left) == Elems(t.left.left) + {t.left.node} + Elems(t.left.right);
    }
  }

  lemma RotatedSep(t: Shape, s: Side)
    requires CanRotate(t, s) && Sep(t)
    ensures Sep(Rotated(t, s))
  {
    RotatedElems(t, s);
    var u := Rotated(t, s);
    if s.L? {
      assert Elems(t.right) == Elems(t.right.left) + {t.right.node} + Elems(t.right.right) && Sep(t.right);
      assert Sep(u.left) && Elems(u.left) == Elems(t.left) + {t.node} + Elems(t.right.left);
    } else {
      assert Elems(t.left) == Elems(t.left.left) + {t.left.node} + Elems(t.left.right) && Sep(t.left);
      assert Sep(u.right) && Elems(u.right) == Elems(t.left.right) + {t.node} + Elems(t.right);
    }
  }

  lemma RotatedSame(t: Shape, s: Side)
    requires CanRotate(t, s)
    ensures SameNodes(t, Rotated(t, s))
  {
    RotatedInorder(t, s);
    RotatedElems(t, s);
    if Sep(t) { RotatedSep(t, s); }
  }

  // ---------------------------------------------------------------- insertion

  /** Only the red node at the hole may have a red parent. */
  ghost predicate InsertInv(p: Path, t: Shape) {
    Balanced(t) && RedOk(t) && IsRed(t) && PathBal(p, Bh(t)) && PathRed(p)
  }

  lemma InsertStart(p: Path, n: Node)
    requires RbOk(Plug(p, Leaf))
    ensures InsertInv(p, Branch(Red, Leaf, n, Leaf))
  {
    UnplugRb(p, Leaf);
  }

  ghost predicate RedParent(p: Path) { p.Down? && p.color.Red? && p.up.Down? }

  ghost function Wrapped(p: Path, t: Shape): Shape
    requires p.Down?
  {
    Wrap(p.side, p.color, p.node, p.sib, t)
  }

  /** Parent, grandparent and uncle together with the subtree at the hole. */
  ghost function Family(p: Path, t: Shape): Shape
    requires RedParent(p)
  {
    Wrapped(p.up, Wrapped(p, t))
  }

  ghost function Recolored(p: Path, t: Shape): Shape
    requires RedParent(p) && IsRed(p.up.sib)
  {
    Wrap(p.up.side, Red, p.up.node, p.up.sib.(color := Black), Wrap(p.side, Black, p.node, p.sib, t))
  }

  lemma InsertLooks(p: Path, t: Shape)
    requires InsertInv(p, t)
    ensures IsRed(t) && (p.Down? && p.color.Red? ==> RedParent(p) && p.up.color.Black?)
  {}

  /** The walk stops below a black node or at the root, which is then painted black. */
  lemma InsertDone(p: Path, t: Shape)
    requires InsertInv(p, t) && (p.Top? || p.color.Black?)
    ensures Plug(p, t).Branch? && RbOk(Plug(p, t).(color := Black))
  {
    if p.Down? {
      PlugRb(p, t);
    } else {
      assert Balanced(t.(color := Black));
    }
  }

  /** A red uncle: the redness moves two levels up. */
  lemma InsertRecolor(p: Path, t: Shape)
    requires RedParent(p) && IsRed(p.up.sib) && InsertInv(p, t)
    ensures InsertInv(p.up.up, Recolored(p, t))
  {
    var g := p.up;
    assert PathBal(g, Bh(t)) && PathRed(g) && g.color.Black?;
    var w := Wrap(p.side, Black, p.node, p.sib, t);
    assert Balanced(w) && RedOk(w) && Bh(w) == Bh(t) + 1;
    var b := g.sib.(color := Black);
    assert Balanced(b) && RedOk(b) && Bh(b) == Bh(g.sib) + 1;
  }

  /** The hole and the parent lie on different sides: the state after the first rotation. */
  ghost function InnerPath(p: Path, t: Shape): Path
    requires RedParent(p) && t.Branch?
  {
    Down(p.up, if p.side.L? then R else L, Red, t.node, Child(t, p.side))
  }

  ghost function InnerShape(p: Path, t: Shape): Shape
    requires RedParent(p) && t.Branch?
  {
    if p.side.L? then Branch(Red, t.right, p.node, p.sib) else Branch(Red, p.sib, p.node, t.left)
  }

  lemma InsertInner(p: Path, t: Shape)
    requires RedParent(p) && InsertInv(p, t) && p.side != p.up.side
    ensures InsertInv(InnerPath(p, t), InnerShape(p, t))
    ensures CanRotate(Wrapped(p, t), p.up.side)
    ensures Rotated(Wrapped(p, t), p.up.side) == Wrapped(InnerPath(p, t), InnerShape(p, t))
  {}

  /** Both on one side: the state after the second rotation, where the parent is black. */
  ghost function OuterPath(p: Path): Path
    requires RedParent(p)
  {
    Down(p.up.up, p.side, Black, p.node, Wrap(p.up.side, Red, p.up.node, p.up.sib, p.sib))
  }

  lemma InsertOuter(p: Path, t: Shape)
    requires RedParent(p) && InsertInv(p, t) && p.side == p.up.side && !IsRed(p.up.sib)
    ensures InsertInv(OuterPath(p), t)
    ensures CanRotate(BlackRed(Family(p, t), p.side), if p.side.L? then R else L)
    ensures Rotated(BlackRed(Family(p, t), p.side), if p.side.L? then R else L) == Wrapped(OuterPath(p), t)
  {
    var g, w := p.up, OuterPath(p).sib;
    assert PathBal(g, Bh(t)) && PathRed(g) && g.color.Black?;
    assert Balanced(w) && RedOk(w) && Bh(w) == Bh(t);
  }

  // ---------------------------------------------------------------- removal

  ghost function Other(s: Side): Side { if s.L? then R else L }

  /** The hole is one black node short, and may be a red node with red children. */
  ghost predicate RemoveInv(p: Path, t: Shape) {
    Balanced(t) && RedInner(t) && PathBal(p, Bh(t) + 1) && PathRed(p)
  }

  lemma RemoveSibling(p: Path, t: Shape)
    requires p.Down? && RemoveInv(p, t)
    ensures p.sib.Branch? && (p.color.Red? ==> !IsRed(p.sib))
  {}

  /** The path seen from the sibling. */
  ghost function SibPath(p: Path, t: Shape): Path
    requires p.Down?
  {
    Down(p.up, Other(p.side), p.color, p.node, t)
  }

  /** A red sibling: after recoloring and one rotation the hole has a black sibling. */
  ghost function RedSibPath(p: Path): Path
    requires p.Down? && p.sib.Branch?
  {
    Down(Down(p.up, p.side, Black, p.sib.node, Child(p.sib, Other(p.side))),
         p.side, Red, p.node, Child(p.sib, p.side))
  }

  lemma RemoveRedSibling(p: Path, t: Shape)
    requires p.Down? && IsRed(p.sib) && RemoveInv(p, t)
    ensures RemoveInv(RedSibPath(p), t) && Child(p.sib, p.side).Branch? && !IsRed(Child(p.sib, p.side))
    ensures var w := Wrapped(p.(color := Red, sib := p.sib.(color := Black)), t);
            CanRotate(w, p.side) && Rotated(w, p.side) == Wrapped(RedSibPath(p).up, Wrapped(RedSibPath(p), t))
  {
    assert p.color.Black?;
    var near := Child(p.sib, p.side);
    assert Balanced(near) && Bh(near) == Bh(t) + 1;
  }

  /** Two black nephews: the shortage moves one level up. */
  lemma RemoveUp(p: Path, t: Shape)
    requires p.Down? && RemoveInv(p, t) && !IsRed(t) && p.sib.Branch? && p.sib.color.Black?
    requires !IsRed(p.sib.left) && !IsRed(p.sib.right)
    ensures RemoveInv(p.up, Wrapped(p.(sib := p.sib.(color := Red)), t))
  {
    var u := p.sib.(color := Red);
    assert RedOk(u) && Balanced(u) && Bh(u) == Bh(t);
  }

  /** Only the near nephew is red: recolored and rotated, the far one is. */
  ghost function NearRotated(p: Path): (r: Shape)
    requires p.Down? && p.sib.Branch? && IsRed(Child(p.sib, p.side))
    ensures r.Branch?
  {
    Rotated(BlackRed(p.sib, p.side), Other(p.side))
  }

  lemma RemoveNear(p: Path, t: Shape)
    requires p.Down? && RemoveInv(p, t) && p.sib.Branch? && p.sib.color.Black?
    requires IsRed(Child(p.sib, p.side)) && !IsRed(Child(p.sib, Other(p.side)))
    ensures var q := p.(sib := NearRotated(p));
            RemoveInv(q, t) && q.sib.color.Black? && IsRed(Child(q.sib, Other(p.side)))
  {
    var near, u := Child(p.sib, p.side), NearRotated(p);
    assert Balanced(near) && RedOk(near);
    var v := Child(u, Other(p.side));
    assert Balanced(v) && RedOk(v) && Bh(v) == Bh(t);
    assert Balanced(u) && RedOk(u) && Bh(u) == Bh(t) + 1;
  }

  /** The far nephew is red: one rotation makes up for the missing black node. */
  ghost function FarPainted(p: Path): (r: Path)
    requires p.Down? && p.sib.Branch? && IsRed(Child(p.sib, Other(p.side)))
    ensures r.Down?
  {
    var far := Child(p.sib, Other(p.side)).(color := Black);
    var sib := if p.side.L? then Branch(p.color, p.sib.left, p.sib.node, far)
               else Branch(p.color, far, p.sib.node, p.sib.right);
    p.(color := Black, sib := sib)
  }

  lemma RemoveFar(p: Path, t: Shape)
    requires p.Down? && RemoveInv(p, t) && !IsRed(t) && p.sib.Branch? && p.sib.color.Black?
    requires IsRed(Child(p.sib, Other(p.side)))
    ensures CanRotate(Wrapped(FarPainted(p), t), p.side)
    ensures RbOk(Plug(p.up, Rotated(Wrapped(FarPainted(p), t), p.side)))
  {
    var w := Rotated(Wrapped(FarPainted(p), t), p.side);
    var near, red := Child(p.sib, p.side), Child(p.sib, Other(p.side));
    assert Balanced(red) && RedOk(red) && Bh(red) == Bh(t);
    var far := red.(color := Black);
    assert Balanced(far) && RedOk(far) && Bh(far) == Bh(t) + 1;
    var u := Wrap(p.side, Black, p.node, near, t);
    assert Balanced(u) && RedOk(u) && Bh(u) == Bh(t) + 1;
    assert w == Wrap(p.side, p.color, p.sib.node, far, u);
    assert Balanced(w) && RedOk(w) && Bh(w) == Bh(t) + 1 + Weight(p.color);
    PlugRb(p.up, w);
  }

  /** When the walk stops at a red node or at the root, painting it black restores the tree. */
  lemma RemoveDone(p: Path, t: Shape)
    requires RemoveInv(p, t) && (p.Top? || IsRed(t))
    ensures t.Branch? ==> RbOk(Plug(p, t.(color := Black)))
    ensures t.Leaf? ==> RbOk(Plug(p, t))
  {
    if t.Branch? {
      var u := t.(color := Black);
      assert Balanced(u) && RedOk(u);
      if IsRed(t) {
        assert Bh(u) == Bh(t) + 1;
      }
      PlugRb(p, u);
    }
  }

  /** `u` is what remains of `t` when its root, which has at most one child, is taken out. */
  ghost predicate Thin(t: Shape, u: Shape) {
    t.Branch? && ((t.left.Leaf? && u == t.right) || (t.right.Leaf? && u == t.left))
  }

  lemma RemoveThin(p: Path, t: Shape, u: Shape)
    requires RbOk(Plug(p, t)) && Thin(t, u)
    ensures t.color.Black? ==> RemoveInv(p, u)
    ensures t.color.Red? ==> RbOk(Plug(p, u))
  {
    hide Plug, PathBal, PathRed;
    UnplugRb(p, t);
    if t.color.Red? {
      assert Bh(u) == 0 && !IsRed(u);
      PlugRb(p, u);
    }
  }

  /** Which node heads a frame is irrelevant to the colors. */
  lemma {:induction false} GraftNode(p: Path, s: Side, c: Color, a: Node, b: Node, l: Shape, q: Path, h: int)
    ensures var pa, pb := Graft(Down(p, s, c, a, l), q), Graft(Down(p, s, c, b, l), q);
            pa.Down? && pb.Down? && pa.color == pb.color && (PathBal(pa, h) ==> PathBal(pb, h))
            && (PathRed(pa) ==> PathRed(pb))
    decreases q
  {
    match q
    case Top =>
    case Down(up, _, qc, _, _) => GraftNode(p, s, c, a, b, l, up, h + Weight(qc));
  }

  lemma RemoveThinSwapped(p: Path, c: Color, a: Node, b: Node, l: Shape, q: Path, t: Shape, u: Shape)
    requires RbOk(Plug(Graft(Down(p, R, c, a, l), q), t)) && Thin(t, u)
    ensures t.color.Black? ==> RemoveInv(Graft(Down(p, R, c, b, l), q), u)
    ensures t.color.Red? ==> RbOk(Plug(Graft(Down(p, R, c, b, l), q), u))
  {
    hide Graft, PathRed, PathBal;
    var pa, pb := Graft(Down(p, R, c, a, l), q), Graft(Down(p, R, c, b, l), q);
    RemoveThin(pa, t, u);
    if t.color.Red? {
      UnplugRb(pa, u);
      GraftNode(p, R, c, a, b, l, q, Bh(u));
      PlugRb(pb, u);
    } else {
      GraftNode(p, R, c, a, b, l, q, Bh(u) + 1);
    }
  }
}
