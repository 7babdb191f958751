/** The red-black tree of include/tree.h: nodes linked by left, right and parent
    pointers and rebalanced in place. */
module RbTree {
  import opened Powers
  import opened RbShapes
  import opened RbFixup

  // ---------------------------------------------------------------- links represent a shape

  ghost function Par(p: Path): (r: Node?)
    ensures r == null <==> p.Top?
  {
    match p case Top => null case Down(_, _, _, n, _) => n
  }

  ghost function Head(t: Shape): (r: Node?)
    ensures r == null <==> t.Leaf?
  {
    match t case Leaf => null case Branch(_, _, n, _) => n
  }

  lemma {:induction false} ElemsAllocated(t: Shape)
    ensures forall x :: x in Elems(t) ==> allocated(x)
  {
    match t
    case Leaf =>
    case Branch(_, l, _, r) => ElemsAllocated(l); ElemsAllocated(r);
  }

  lemma {:induction false} PathElemsAllocated(p: Path)
    ensures forall x :: x in PathElems(p) ==> allocated(x)
  {
    match p
    case Top =>
    case Down(up, _, _, _, sib) => PathElemsAllocated(up); ElemsAllocated(sib);
  }

  /** The nodes of `t` are linked as `t` says, below the node `p`. */
  ghost predicate Rep(t: Shape, p: Node?)
    reads Elems(t)
  {
    match t
    case Leaf => true
    case Branch(c, l, x, r) =>
      && x.color == c && x.parent == p
      && x.left == Head(l) && x.right == Head(r)
      && Rep(l, x) && Rep(r, x)
  }

  /** The nodes of `p` are linked, with `hole` where the path ends and `root` where it starts. */
  ghost predicate PathRep(p: Path, root: Node?, hole: Node?)
    reads PathElems(p)
  {
    match p
    case Top => root == hole
    case Down(up, s, c, n, sib) =>
      && n.color == c && n.parent == Par(up)
      && n.left == (if s.L? then hole else Head(sib))
      && n.right == (if s.L? then Head(sib) else hole)
      && Rep(sib, n)
      && PathRep(up, root, n)
  }

  /** The whole linked tree is `Plug(p, t)`, looked at from the place of `t`. */
  ghost predicate Linked(p: Path, t: Shape, root: Node?)
    reads PathElems(p), Elems(t)
  {
    && PathSep(p) && Sep(t) && PathElems(p) !! Elems(t)
    && PathRep(p, root, Head(t))
    && Rep(t, Par(p))
  }

  /** Moving the point of view one node up or down changes nothing. */
  lemma LinkedUp(p: Path, t: Shape, root: Node?)
    requires p.Down?
    ensures Linked(p, t, root) <==> Linked(p.up, Wrap(p.side, p.color, p.node, p.sib, t), root)
  {
    if p.side.L? {} else {}
  }

  lemma {:induction false} RootAbove(p: Path, root: Node?, hole: Node?)
    requires p.Down? && PathRep(p, root, hole)
    ensures root != null && root in PathElems(p)
    decreases p
  {
    if p.up.Down? {
      RootAbove(p.up, root, p.node);
    }
  }

  lemma {:induction false} LinkedGraft(base: Path, q: Path, t: Shape, root: Node?)
    ensures Linked(Graft(base, q), t, root) <==> Linked(base, Plug(q, t), root)
    decreases q
  {
    hide Linked;
    if q.Down? {
      LinkedUp(Graft(base, q), t, root);
      LinkedGraft(base, q.up, Wrapped(q, t), root);
    }
  }

  lemma RepBranch(t: Shape, p: Node?)
    requires t.Branch?
    ensures Rep(t, p) <==>
            && t.node.color == t.color && t.node.parent == p
            && t.node.left == Head(t.left) && t.node.right == Head(t.right)
            && Rep(t.left, t.node) && Rep(t.right, t.node)
  {}

  lemma Parent(t: Shape, p: Node?)
    requires t.Branch? && Rep(t, p)
    ensures t.node in Elems(t) && t.node.parent == p
  {}

  // ---------------------------------------------------------------- pieces of the rotations

  /** The assignment `RB_PARENT(child) = parent`, guarded as in the source. */
  method SetParent(child: Node?, parent: Node?, ghost t: Shape, ghost was: Node?)
    requires Sep(t) && Rep(t, was) && child == Head(t)
    modifies Elems(t)
    ensures Rep(t, parent)
  {
    if child != null {
      assert Rep(t.left, child) && Rep(t.right, child);
      child.parent := parent;
    }
  }

  /** The first lines of RB_ROTATE_LEFT: the inner child of `tmp` moves over to `elm`. */
  method TakeInnerOfRight(elm: Node, ghost t: Shape, ghost p: Node?) returns (tmp: Node)
    requires Sep(t) && CanRotate(t, L) && Rep(t, p) && elm == t.node
    modifies Elems(t)
    ensures tmp == t.right.node && tmp.color == t.right.color && tmp.right == Head(t.right.right)
    ensures Rep(Rotated(t, L).left, p) && Rep(t.right.right, tmp)
  {
    ElemsAllocated(t);
    ghost var a, b, e := t.left, t.right.left, t.right.right;
    tmp := elm.right;
    assert Rep(t.right, elm) && Sep(t.right);
    elm.right := tmp.left;
    SetParent(elm.right, elm, b, tmp);
  }

  method TakeInnerOfLeft(elm: Node, ghost t: Shape, ghost p: Node?) returns (tmp: Node)
    requires Sep(t) && CanRotate(t, R) && Rep(t, p) && elm == t.node
    modifies Elems(t)
    ensures tmp == t.left.node && tmp.color == t.left.color && tmp.left == Head(t.left.left)
    ensures Rep(Rotated(t, R).right, p) && Rep(t.left.left, tmp)
  {
    ElemsAllocated(t);
    ghost var a, b, e := t.left.left, t.left.right, t.right;
    tmp := elm.left;
    assert Rep(t.left, elm) && Sep(t.left);
    elm.left := tmp.right;
    SetParent(elm.left, elm, b, tmp);
  }

  /** The last lines of RB_ROTATE_LEFT: `elm` becomes the left child of `tmp`. */
  method HangLeft(tmp: Node, elm: Node, ghost u: Shape, ghost e: Shape, ghost p: Node?)
    requires Sep(u) && Rep(u, p) && elm == Head(u)
    requires Sep(e) && Rep(e, tmp) && tmp.right == Head(e)
    requires tmp !in Elems(u) && tmp !in Elems(e) && elm !in Elems(e)
    modifies tmp, elm
    ensures Rep(Branch(old(tmp.color), u, tmp, e), old(tmp.parent))
  {
    assert Rep(u.left, elm) && Rep(u.right, elm);
    tmp.left := elm;
    elm.parent := tmp;
  }

  method HangRight(tmp: Node, elm: Node, ghost u: Shape, ghost e: Shape, ghost p: Node?)
    requires Sep(u) && Rep(u, p) && elm == Head(u)
    requires Sep(e) && Rep(e, tmp) && tmp.left == Head(e)
    requires tmp !in Elems(u) && tmp !in Elems(e) && elm !in Elems(e)
    modifies tmp, elm
    ensures Rep(Branch(old(tmp.color), e, tmp, u), old(tmp.parent))
  {
    assert Rep(u.left, elm) && Rep(u.right, elm);
    tmp.right := elm;
    elm.parent := tmp;
  }

  class Tree {
    var root: Node?
    ghost var nodes: set<Node>
    ghost var order: seq<Node>
    ghost var shape: Shape

    /** The link to `elm` from its parent, or from the head, now leads to `child`. */
    method Relink(parent: Node?, elm: Node, child: Node?, ghost p: Path)
      requires PathSep(p) && PathRep(p, root, elm) && parent == Par(p) && elm !in PathElems(p)
      modifies this`root, PathElems(p)
      ensures PathRep(p, root, child)
    {
      if parent != null {
        assert Rep(p.sib, parent) && PathRep(p.up, root, parent);
        if parent.left == elm {
          parent.left := child;
        } else {
          parent.right := child;
        }
      } else {
        root := child;
      }
    }

    /** RB_ROTATE_LEFT. */
    method RotateLeftLinks(elm: Node, ghost p: Path, ghost t: Shape) returns (tmp: Node)
      requires Linked(p, t, root) && CanRotate(t, L) && elm == t.node
      modifies this`root, PathElems(p), Elems(t)
      ensures Linked(p, Rotated(t, L), root) && tmp == t.right.node
    {
      hide Rep, PathRep;
      ElemsAllocated(t);
      PathElemsAllocated(p);
      RotatedSame(t, L);
      assert elm in Elems(t) && elm.parent == Par(p) by { Parent(t, Par(p)); }
      tmp := TakeInnerOfRight(elm, t, Par(p));
      assert elm.parent == Par(p) by { Parent(Rotated(t, L).left, Par(p)); }
      tmp.parent := elm.parent;
      Relink(elm.parent, elm, tmp, p);
      HangLeft(tmp, elm, Rotated(t, L).left, t.right.right, Par(p));
    }

    /** RB_ROTATE_RIGHT. */
    method RotateRightLinks(elm: Node, ghost p: Path, ghost t: Shape) returns (tmp: Node)
      requires Linked(p, t, root) && CanRotate(t, R) && elm == t.node
      modifies this`root, PathElems(p), Elems(t)
      ensures Linked(p, Rotated(t, R), root) && tmp == t.left.node
    {
      hide Rep, PathRep;
      ElemsAllocated(t);
      PathElemsAllocated(p);
      RotatedSame(t, R);
      assert elm in Elems(t) && elm.parent == Par(p) by { Parent(t, Par(p)); }
      tmp := TakeInnerOfLeft(elm, t, Par(p));
      assert elm.parent == Par(p) by { Parent(Rotated(t, R).right, Par(p)); }
      tmp.parent := elm.parent;
      Relink(elm.parent, elm, tmp, p);
      HangRight(tmp, elm, Rotated(t, R).right, t.left.left, Par(p));
    }

    // -------------------------------------------------------------- the tree seen from one place

    /** The linked tree is `t` below `p`; `nodes` and `order` are its nodes, in key order. */
    ghost predicate At(p: Path, t: Shape)
      reads this`root, this`nodes, this`order, nodes
    {
      && nodes == PathElems(p) + Elems(t)
      && order == Before(p) + Inorder(t) + After(p)
      && Linked(p, t, root)
    }

    /** What the links of the nodes around the hole are. */
    lemma Links(p: Path, t: Shape)
      requires At(p, t)
      ensures t.Branch? ==> t.node in nodes && t.node.color == t.color && t.node.parent == Par(p)
                            && t.node.left == Head(t.left) && t.node.right == Head(t.right)
      ensures p.Down? ==> p.node in nodes && p.node.color == p.color && p.node.parent == Par(p.up)
                          && p.node.left == Head(Wrapped(p, t).left) && p.node.right == Head(Wrapped(p, t).right)
      ensures p.Down? && p.sib.Branch? ==> p.sib.node in nodes && p.sib.node.color == p.sib.color
      ensures p.Top? ==> root == Head(t)
      ensures p.Down? ==> root != null && root != Head(t)
      ensures t.Branch? && p.Down? ==> t.node != p.node
      ensures p.Down? && t.Branch? && p.sib.Branch? ==> t.node != p.sib.node
    {
      if p.Down? { RootAbove(p, root, Head(t)); }
      assert t.Branch? ==> t.node in Elems(t);
      assert p.Down? ==> p.node in PathElems(p);
      assert p.Down? && p.sib.Branch? ==> p.sib.node in Elems(p.sib);
    }

    /** Moving the point of view one node up or down. */
    lemma AtUp(p: Path, t: Shape)
      requires p.Down?
      ensures At(p, t) <==> At(p.up, Wrapped(p, t))
    {
      LinkedUp(p, t, root);
      assert PathElems(p) + Elems(t) == PathElems(p.up) + Elems(Wrapped(p, t));
      assert Before(p) + Inorder(t) + After(p)
          == Before(p.up) + Inorder(Wrapped(p, t)) + After(p.up);
    }

    method Paint(n: Node, c: Color, ghost p: Path, ghost t: Shape)
      requires At(p, t) && n == Head(t)
      modifies nodes
      ensures At(p, t.(color := c))
    {
      n.color := c;
      assert Rep(t.left, n) && Rep(t.right, n);
      RecolorSame(t, c);
    }

    method RotateLeft(elm: Node, ghost p: Path, ghost t: Shape) returns (tmp: Node)
      requires At(p, t) && CanRotate(t, L) && elm == t.node
      modifies this`root, nodes
      ensures At(p, Rotated(t, L)) && tmp == t.right.node
    {
      hide Linked, Elems, PathElems, Inorder, Before, After, Rotated, Sep;
      tmp := RotateLeftLinks(elm, p, t);
      RotatedSame(t, L);
    }

    method RotateRight(elm: Node, ghost p: Path, ghost t: Shape) returns (tmp: Node)
      requires At(p, t) && CanRotate(t, R) && elm == t.node
      modifies this`root, nodes
      ensures At(p, Rotated(t, R)) && tmp == t.left.node
    {
      hide Linked, Elems, PathElems, Inorder, Before, After, Rotated, Sep;
      tmp := RotateRightLinks(elm, p, t);
      RotatedSame(t, R);
    }

    /** The same moves for a node next to the point of view. */
    method PaintParent(n: Node, c: Color, ghost p: Path, ghost t: Shape)
      requires At(p, t) && n == Par(p)
      modifies nodes
      ensures At(p.(color := c), t)
    {
      hide At;
      AtUp(p, t);
      Paint(n, c, p.up, Wrapped(p, t));
      AtUp(p.(color := c), t);
    }

    method PaintSibling(n: Node, c: Color, ghost p: Path, ghost t: Shape)
      requires At(p, t) && p.Down? && n == Head(p.sib)
      modifies nodes
      ensures At(p.(sib := p.sib.(color := c)), t)
    {
      hide At;
      AtUp(p, t);
      AtUp(SibPath(p, t), p.sib);
      Paint(n, c, SibPath(p, t), p.sib);
      AtUp(SibPath(p, t), p.sib.(color := c));
      AtUp(p.(sib := p.sib.(color := c)), t);
    }

    lemma {:induction false} AtTop(p: Path, t: Shape)
      ensures At(p, t) <==> At(Top, Plug(p, t))
      decreases p
    {
      hide At;
      if p.Down? {
        AtUp(p, t);
        AtTop(p.up, Wrapped(p, t));
      }
    }

    /** RB_SET_BLACKRED, where `red` is the parent of `black`. */
    method SetBlackRed(black: Node, red: Node, ghost p: Path, ghost t: Shape)
      requires At(p, t) && black == Head(t) && red == Par(p)
      modifies nodes
      ensures At(p.(color := Red), t.(color := Black))
    {
      hide At;
      Paint(black, Black, p, t);
      PaintParent(red, Red, p, t.(color := Black));
    }

    // -------------------------------------------------------------- insertion

    /** RB_INSERT_COLOR. */
    method InsertColor(elm0: Node, ghost p0: Path, ghost t0: Shape) returns (ghost shape: Shape)
      requires At(p0, t0) && elm0 == Head(t0) && InsertInv(p0, t0)
      modifies this`root, nodes
      ensures At(Top, shape) && RbOk(shape)
    {
      hide At, InsertInv, RbOk, Plug;
      var elm := elm0;
      ghost var p, t := p0, t0;
      Links(p, t);
      var parent := elm.parent;
      while parent != null && parent.color.Red?
        invariant At(p, t) && t.Branch? && elm == t.node && parent == Par(p)
        invariant InsertInv(p, t)
        decreases Depth(p)
      {
        Links(p, t);
        InsertLooks(p, t);
        AtUp(p, t);
        ghost var w := Wrapped(p, t);
        Links(p.up, w);
        assert Depth(p) == 2 + Depth(p.up.up);
        var gparent := parent.parent;
        if parent == gparent.left {
          var tmp := gparent.right;
          if tmp != null && tmp.color.Red? {
            RecolorFamily(parent, gparent, tmp, p, t);
            elm := gparent;
            InsertRecolor(p, t);
            p, t := p.up.up, Recolored(p, t);
          } else {
            elm, p, t := InsertTurnLeft(elm, parent, gparent, p, t);
          }
        } else {
          var tmp := gparent.left;
          if tmp != null && tmp.color.Red? {
            RecolorFamily(parent, gparent, tmp, p, t);
            elm := gparent;
            InsertRecolor(p, t);
            p, t := p.up.up, Recolored(p, t);
          } else {
            elm, p, t := InsertTurnRight(elm, parent, gparent, p, t);
          }
        }
        Links(p, t);
        parent := elm.parent;
      }
      Links(p, t);
      InsertDone(p, t);
      AtTop(p, t);
      shape := Plug(p, t);
      Links(Top, shape);
      Paint(root, Black, Top, shape);
      shape := shape.(color := Black);
    }

    /** Lines 417-418 and 433-434: a red uncle. */
    method RecolorFamily(parent: Node, gparent: Node, uncle: Node, ghost p: Path, ghost t: Shape)
      requires RedParent(p) && IsRed(p.up.sib) && At(p, t)
      requires parent == p.node && gparent == p.up.node && uncle == p.up.sib.node
      modifies nodes
      ensures At(p.up.up, Recolored(p, t))
    {
      hide At;
      AtUp(p, t);
      ghost var w := Wrapped(p, t);
      PaintSibling(uncle, Black, p.up, w);
      ghost var g := p.up.(sib := p.up.sib.(color := Black));
      SetBlackRed(parent, gparent, g, w);
      AtUp(g.(color := Red), w.(color := Black));
    }

    /** Lines 422-429: a black uncle on the other side of the grandparent. */
    method InsertTurnLeft(elm0: Node, parent0: Node, gparent: Node, ghost p0: Path, ghost t0: Shape)
      returns (elm: Node, ghost p: Path, ghost t: Shape)
      requires At(p0, t0) && RedParent(p0) && InsertInv(p0, t0) && p0.up.side == L && !IsRed(p0.up.sib)
      requires elm0 == Head(t0) && parent0 == p0.node && gparent == p0.up.node
      modifies this`root, nodes
      ensures At(p, t) && InsertInv(p, t) && elm == Head(t) && Depth(p) < Depth(p0)
    {
      hide At, InsertInv;
      elm, p, t := elm0, p0, t0;
      Links(p, t);
      AtUp(p, t);
      InsertLooks(p, t);
      ghost var w := Wrapped(p, t);
      var parent := parent0;
      if parent.right == elm {
        InsertInner(p, t);
        var tmp := RotateLeft(parent, p.up, w);
        tmp := parent;
        parent := elm;
        elm := tmp;
        p, t := InnerPath(p, t), InnerShape(p, t);
        AtUp(p, t);
        w := Wrapped(p, t);
      }
      InsertOuter(p, t);
      SetBlackRed(parent, gparent, p.up, w);
      AtUp(p.up.(color := Red), w.(color := Black));
      var tmp := RotateRight(gparent, p.up.up, BlackRed(Family(p, t), L));
      p := OuterPath(p);
      AtUp(p, t);
      assert Depth(p0) == 2 + Depth(p0.up.up);
    }

    /** Lines 438-445: a black uncle on the other side of the grandparent. */
    method InsertTurnRight(elm0: Node, parent0: Node, gparent: Node, ghost p0: Path, ghost t0: Shape)
      returns (elm: Node, ghost p: Path, ghost t: Shape)
      requires At(p0, t0) && RedParent(p0) && InsertInv(p0, t0) && p0.up.side == R && !IsRed(p0.up.sib)
      requires elm0 == Head(t0) && parent0 == p0.node && gparent == p0.up.node
      modifies this`root, nodes
      ensures At(p, t) && InsertInv(p, t) && elm == Head(t) && Depth(p) < Depth(p0)
    {
      hide At, InsertInv;
      elm, p, t := elm0, p0, t0;
      Links(p, t);
      AtUp(p, t);
      InsertLooks(p, t);
      ghost var w := Wrapped(p, t);
      var parent := parent0;
      if parent.left == elm {
        InsertInner(p, t);
        var tmp := RotateRight(parent, p.up, w);
        tmp := parent;
        parent := elm;
        elm := tmp;
        p, t := InnerPath(p, t), InnerShape(p, t);
        AtUp(p, t);
        w := Wrapped(p, t);
      }
      InsertOuter(p, t);
      SetBlackRed(parent, gparent, p.up, w);
      AtUp(p.up.(color := Red), w.(color := Black));
      var tmp := RotateLeft(gparent, p.up.up, BlackRed(Family(p, t), R));
      p := OuterPath(p);
      AtUp(p, t);
      assert Depth(p0) == 2 + Depth(p0.up.up);
    }

    /** The tree as its callers see it. */
    ghost predicate Valid()
      reads this, nodes
    {
      At(Top, shape) && RbOk(shape) && Sorted(order)
    }

    lemma NodesInOrder(p: Path, t: Shape)
      requires At(p, t)
      ensures forall x :: x in nodes <==> x in order
    {
      PathOrderElems(p);
      InorderElems(t);
    }

    /** Two nodes of the tree never share a key. */
    lemma UniqueKey(n: Node)
      requires Valid() && n in nodes
      ensures forall x :: x in nodes && x.key == n.key ==> x == n
    {
      hide At, RbOk, Less;
      NodesInOrder(Top, shape);
      forall x | x in nodes && x.key == n.key ensures x == n {
        var i :| 0 <= i < |order| && order[i] == n;
        var j :| 0 <= j < |order| && order[j] == x;
        CompareLess(x.key, n.key);
      }
    }

    lemma ValidHeight()
      requires Valid()
      ensures Pow(Height(shape)) <= (|order| + 1) * (|order| + 1)
    {
      HeightBound(shape);
    }

    constructor ()
      ensures Valid() && nodes == {} && order == []
    {
      root, nodes, order, shape := null, {}, [], Leaf;
    }

    /** RB_SET and the three assignments after it: `elm` becomes a red leaf below `parent`. */
    method Attach(elm: Node, parent: Node?, comp: int, ghost p: Path)
      requires Linked(p, Leaf, root) && parent == Par(p) && elm !in PathElems(p)
      requires p.Down? ==> (comp < 0 <==> p.side.L?)
      modifies this`root, PathElems(p), elm
      ensures Linked(p, Branch(Red, Leaf, elm, Leaf), root)
    {
      elm.parent := parent;
      elm.left, elm.right := null, null;
      elm.color := Red;
      hide Rep;
      if parent != null {
        if comp < 0 {
          parent.left := elm;
        } else {
          parent.right := elm;
        }
      } else {
        root := elm;
      }
      RepBranch(Branch(Red, Leaf, elm, Leaf), parent);
    }

    /** A walk down the tree in search of key `k` has come to `t`. */
    ghost predicate Search(p: Path, t: Shape, k: Key)
      reads this, nodes
    {
      At(p, t) && Plug(p, t) == shape && Sorted(order) && Around(p, k)
    }

    lemma SearchStart(k: Key)
      requires Valid()
      ensures Search(Top, shape, k) && root == Head(shape) && RbOk(shape)
    {}

    lemma SearchLeft(p: Path, t: Shape, k: Key)
      requires Search(p, t, k) && t.Branch? && Less(k, t.node.key)
      ensures Search(Down(p, L, t.color, t.node, t.right), t.left, k)
    {
      hide Sorted, Around, Less, Linked;
      DescendLeft(p, t, k);
      AtUp(Down(p, L, t.color, t.node, t.right), t.left);
    }

    lemma SearchRight(p: Path, t: Shape, k: Key)
      requires Search(p, t, k) && t.Branch? && Less(t.node.key, k)
      ensures Search(Down(p, R, t.color, t.node, t.left), t.right, k)
    {
      hide Sorted, Around, Less, Linked;
      DescendRight(p, t, k);
      AtUp(Down(p, R, t.color, t.node, t.left), t.right);
    }

    /** At the bottom, the key is known to be missing. */
    lemma SearchEnd(p: Path, k: Key)
      requires Search(p, Leaf, k)
      ensures forall x :: x in nodes ==> x.key != k
      ensures order == Before(p) + After(p) && nodes == PathElems(p)
    {
      hide Less, Linked, Before, After, PathElems;
      NodesInOrder(p, Leaf);
      NotAmong(p, k);
    }

    lemma NotAmong(p: Path, k: Key)
      requires Around(p, k)
      ensures forall x :: x in Before(p) || x in After(p) ==> x.key != k
    {
      forall x | x in Before(p) || x in After(p) ensures x.key != k { CompareLess(x.key, k); }
    }

    /** RB_INSERT. */
    method Insert(elm: Node) returns (r: Node?)
      requires Valid()
      modifies this, nodes, elm
      ensures Valid()
      ensures r != null ==> r in nodes && r.key == elm.key
      ensures r != null ==> nodes == old(nodes) && order == old(order) && shape == old(shape)
      ensures r == null ==> nodes == old(nodes) + {elm} && forall x :: x in old(nodes) ==> x.key != elm.key
      ensures r == null ==> exists i :: 0 <= i <= |old(order)| &&
                                        order == old(order)[..i] + [elm] + old(order)[i..]
    {
      hide Search, At, Valid, Less, Compare, RbOk;
      var tmp := root;
      var parent: Node? := null;
      var comp := 0;
      ghost var p, t := Top, shape;
      SearchStart(elm.key);
      while tmp != null
        invariant Search(p, t, elm.key) && tmp == Head(t) && parent == Par(p)
        invariant p.Down? ==> (comp < 0 <==> p.side.L?)
        modifies {}
        decreases t
      {
        SearchLinks(p, t, elm.key);
        CompareLess(elm.key, tmp.key);
        parent := tmp;
        comp := Compare(elm.key, parent.key);
        if comp < 0 {
          tmp := tmp.left;
          SearchLeft(p, t, elm.key);
          p, t := Down(p, L, t.color, t.node, t.right), t.left;
        } else if comp > 0 {
          tmp := tmp.right;
          SearchRight(p, t, elm.key);
          p, t := Down(p, R, t.color, t.node, t.left), t.right;
        } else {
          return tmp;
        }
      }
      InsertAt(elm, parent, comp, p);
      return null;
    }

    lemma SearchLinks(p: Path, t: Shape, k: Key)
      requires Search(p, t, k) && t.Branch?
      ensures t.node in nodes && t.node.left == Head(t.left) && t.node.right == Head(t.right)
    {
      hide At;
      Links(p, t);
    }

    /** Lines 615-624: the new node is linked in and the colors are repaired. */
    method InsertAt(elm: Node, parent: Node?, comp: int, ghost p: Path)
      requires Search(p, Leaf, elm.key) && RbOk(shape)
      requires parent == Par(p) && (p.Down? ==> (comp < 0 <==> p.side.L?))
      modifies this, nodes, elm
      ensures Valid() && nodes == old(nodes) + {elm}
      ensures forall x :: x in old(nodes) ==> x.key != elm.key
      ensures exists i :: 0 <= i <= |old(order)| && order == old(order)[..i] + [elm] + old(order)[i..]
    {
      hide Linked, PathElems, Before, After, RbOk, Plug, InsertInv, Less;
      SearchEnd(p, elm.key);
      InsertStart(p, elm);
      ghost var t := Branch(Red, Leaf, elm, Leaf);
      Attach(elm, parent, comp, p);
      nodes := nodes + {elm};
      ghost var i := |Before(p)|;
      assert order[..i] == Before(p) && order[i..] == After(p);
      SortedInsert(Before(p), elm, After(p));
      order := order[..i] + [elm] + order[i..];
      shape := InsertColor(elm, p, t);
    }

    // -------------------------------------------------------------- removal

    lemma NephewLinks(p: Path, t: Shape)
      requires At(p, t) && p.Down? && p.sib.Branch?
      ensures p.sib.node in nodes
      ensures p.sib.node.left == Head(p.sib.left) && p.sib.node.right == Head(p.sib.right)
      ensures p.sib.left.Branch? ==> p.sib.left.node in nodes && p.sib.left.node.color == p.sib.left.color
      ensures p.sib.right.Branch? ==> p.sib.right.node in nodes && p.sib.right.node.color == p.sib.right.color
    {
      hide At;
      var q := SibPath(p, t);
      AtUp(p, t);
      AtUp(q, p.sib);
      Links(q, p.sib);
      var n := Down(q, L, p.sib.color, p.sib.node, p.sib.right);
      AtUp(n, p.sib.left);
      Links(n, p.sib.left);
    }

    /** Lines 461-462: a red sibling. */
    method LiftRedSiblingLeft(parent: Node, tmp: Node, ghost p: Path, ghost t: Shape)
      requires At(p, t) && p.Down? && p.side.L? && IsRed(p.sib) && RemoveInv(p, t)
      requires parent == p.node && tmp == p.sib.node
      modifies this`root, nodes
      ensures At(RedSibPath(p), t)
    {
      hide At, RemoveInv;
      RemoveRedSibling(p, t);
      PaintSibling(tmp, Black, p, t);
      ghost var q := p.(sib := p.sib.(color := Black));
      PaintParent(parent, Red, q, t);
      q := q.(color := Red);
      AtUp(q, t);
      var tmp' := RotateLeft(parent, q.up, Wrapped(q, t));
      AtUp(RedSibPath(p).up, Wrapped(RedSibPath(p), t));
      AtUp(RedSibPath(p), t);
    }

    /** Lines 475-480: only the nephew next to the hole is red. */
    method TurnNearLeft(tmp: Node, near: Node, ghost p: Path, ghost t: Shape)
      requires At(p, t) && p.Down? && p.side.L? && p.sib.Branch? && IsRed(p.sib.left)
      requires tmp == p.sib.node && near == p.sib.left.node
      modifies this`root, nodes
      ensures At(p.(sib := NearRotated(p)), t)
    {
      hide At;
      ghost var q := SibPath(p, t);
      AtUp(p, t);
      AtUp(q, p.sib);
      ghost var np := Down(q, L, p.sib.color, tmp, p.sib.right);
      AtUp(np, p.sib.left);
      SetBlackRed(near, tmp, np, p.sib.left);
      AtUp(np.(color := Red), p.sib.left.(color := Black));
      var near' := RotateRight(tmp, q, BlackRed(p.sib, L));
      AtUp(q, NearRotated(p));
      AtUp(p.(sib := NearRotated(p)), t);
    }

    /** Lines 483-487: the far nephew is red. */
    method TurnFarLeft(parent: Node, tmp: Node, far: Node, ghost p: Path, ghost t: Shape)
      requires At(p, t) && p.Down? && p.side.L? && p.sib.Branch? && IsRed(p.sib.right)
      requires parent == p.node && tmp == p.sib.node && far == p.sib.right.node
      modifies this`root, nodes
      ensures At(p.up, Rotated(Wrapped(FarPainted(p), t), L))
    {
      hide At;
      Links(p, t);
      ghost var q := p.(sib := p.sib.(color := p.color));
      PaintSibling(tmp, parent.color, p, t);
      PaintParent(parent, Black, q, t);
      q := q.(color := Black);
      AtUp(q, t);
      ghost var sp := SibPath(q, t);
      AtUp(sp, q.sib);
      ghost var fp := Down(sp, Other(L), q.sib.color, tmp, q.sib.left);
      AtUp(fp, q.sib.right);
      Paint(far, Black, fp, q.sib.right);
      AtUp(fp, q.sib.right.(color := Black));
      AtUp(sp, FarPainted(p).sib);
      var tmp' := RotateLeft(parent, p.up, Wrapped(FarPainted(p), t));
    }

    /** Lines 494-495: a red sibling. */
    method LiftRedSiblingRight(parent: Node, tmp: Node, ghost p: Path, ghost t: Shape)
      requires At(p, t) && p.Down? && p.side.R? && IsRed(p.sib) && RemoveInv(p, t)
      requires parent == p.node && tmp == p.sib.node
      modifies this`root, nodes
      ensures At(RedSibPath(p), t)
    {
      hide At, RemoveInv;
      RemoveRedSibling(p, t);
      PaintSibling(tmp, Black, p, t);
      ghost var q := p.(sib := p.sib.(color := Black));
      PaintParent(parent, Red, q, t);
      q := q.(color := Red);
      AtUp(q, t);
      var tmp' := RotateRight(parent, q.up, Wrapped(q, t));
      AtUp(RedSibPath(p).up, Wrapped(RedSibPath(p), t));
      AtUp(RedSibPath(p), t);
    }

    /** Lines 508-513: only the nephew next to the hole is red. */
    method TurnNearRight(tmp: Node, near: Node, ghost p: Path, ghost t: Shape)
      requires At(p, t) && p.Down? && p.side.R? && p.sib.Branch? && IsRed(p.sib.right)
      requires tmp == p.sib.node && near == p.sib.right.node
      modifies this`root, nodes
      ensures At(p.(sib := NearRotated(p)), t)
    {
      hide At;
      ghost var q := SibPath(p, t);
      AtUp(p, t);
      AtUp(q, p.sib);
      ghost var np := Down(q, R, p.sib.color, tmp, p.sib.left);
      AtUp(np, p.sib.right);
      SetBlackRed(near, tmp, np, p.sib.right);
      AtUp(np.(color := Red), p.sib.right.(color := Black));
      var near' := RotateLeft(tmp, q, BlackRed(p.sib, R));
      AtUp(q, NearRotated(p));
      AtUp(p.(sib := NearRotated(p)), t);
    }

    /** Lines 516-520: the far nephew is red. */
    method TurnFarRight(parent: Node, tmp: Node, far: Node, ghost p: Path, ghost t: Shape)
      requires At(p, t) && p.Down? && p.side.R? && p.sib.Branch? && IsRed(p.sib.left)
      requires parent == p.node && tmp == p.sib.node && far == p.sib.left.node
      modifies this`root, nodes
      ensures At(p.up, Rotated(Wrapped(FarPainted(p), t), R))
    {
      hide At;
      Links(p, t);
      ghost var q := p.(sib := p.sib.(color := p.color));
      PaintSibling(tmp, parent.color, p, t);
      PaintParent(parent, Black, q, t);
      q := q.(color := Black);
      AtUp(q, t);
      ghost var sp := SibPath(q, t);
      AtUp(sp, q.sib);
      ghost var fp := Down(sp, Other(R), q.sib.color, tmp, q.sib.right);
      AtUp(fp, q.sib.left);
      Paint(far, Black, fp, q.sib.left);
      AtUp(fp, q.sib.left.(color := Black));
      AtUp(sp, FarPainted(p).sib);
      var tmp' := RotateRight(parent, p.up, Wrapped(FarPainted(p), t));
    }

    predicate BlackOrNull(n: Node?)
      reads if n == null then {} else {n}
    {
      n == null || n.color.Black?
    }

    ghost function Measure(p: Path, t: Shape): nat { Depth(p) + if IsRed(t) then 0 else 1 }

    /** Lines 459-490: one round for a hole that is a left child. */
    method RemoveRoundLeft(parent0: Node, elm0: Node?, ghost p0: Path, ghost t0: Shape)
      returns (stop: bool, parent: Node?, elm: Node?, ghost p: Path, ghost t: Shape)
      requires At(p0, t0) && p0.Down? && p0.side.L? && RemoveInv(p0, t0) && !IsRed(t0)
      requires parent0 == p0.node && elm0 == Head(t0)
      modifies this`root, nodes
      ensures At(p, t) && (stop ==> RbOk(Plug(p, t)))
      ensures !stop ==> RemoveInv(p, t) && parent == Par(p) && elm == Head(t)
      ensures !stop ==> Measure(p, t) < Measure(p0, t0)
    {
      hide At, RemoveInv, RbOk, Plug, Rotated, FarPainted, NearRotated;
      parent, elm, p, t := parent0, elm0, p0, t0;
      Links(p, t);
      RemoveSibling(p, t);
      var tmp := parent.right;
      if tmp.color.Red? {
        RemoveRedSibling(p, t);
        LiftRedSiblingLeft(parent, tmp, p, t);
        p := RedSibPath(p);
        Links(p, t);
        tmp := parent.right;
      }
      NephewLinks(p, t);
      if BlackOrNull(tmp.left) && BlackOrNull(tmp.right) {
        RemoveUp(p, t);
        PaintSibling(tmp, Red, p, t);
        p := p.(sib := p.sib.(color := Red));
        AtUp(p, t);
        p, t := p.up, Wrapped(p, t);
        elm := parent;
        Links(p, t);
        parent := elm.parent;
        stop := false;
      } else {
        if BlackOrNull(tmp.right) {
          RemoveNear(p, t);
          TurnNearLeft(tmp, tmp.left, p, t);
          p := p.(sib := NearRotated(p));
          Links(p, t);
          NephewLinks(p, t);
          tmp := parent.right;
        }
        RemoveFar(p, t);
        TurnFarLeft(parent, tmp, tmp.right, p, t);
        p, t := p.up, Rotated(Wrapped(FarPainted(p), t), L);
        stop := true;
      }
    }

    /** Lines 492-523: one round for a hole that is a right child. */
    method RemoveRoundRight(parent0: Node, elm0: Node?, ghost p0: Path, ghost t0: Shape)
      returns (stop: bool, parent: Node?, elm: Node?, ghost p: Path, ghost t: Shape)
      requires At(p0, t0) && p0.Down? && p0.side.R? && RemoveInv(p0, t0) && !IsRed(t0)
      requires parent0 == p0.node && elm0 == Head(t0)
      modifies this`root, nodes
      ensures At(p, t) && (stop ==> RbOk(Plug(p, t)))
      ensures !stop ==> RemoveInv(p, t) && parent == Par(p) && elm == Head(t)
      ensures !stop ==> Measure(p, t) < Measure(p0, t0)
    {
      hide At, RemoveInv, RbOk, Plug, Rotated, FarPainted, NearRotated;
      parent, elm, p, t := parent0, elm0, p0, t0;
      Links(p, t);
      RemoveSibling(p, t);
      var tmp := parent.left;
      if tmp.color.Red? {
        RemoveRedSibling(p, t);
        LiftRedSiblingRight(parent, tmp, p, t);
        p := RedSibPath(p);
        Links(p, t);
        tmp := parent.left;
      }
      NephewLinks(p, t);
      if BlackOrNull(tmp.left) && BlackOrNull(tmp.right) {
        RemoveUp(p, t);
        PaintSibling(tmp, Red, p, t);
        p := p.(sib := p.sib.(color := Red));
        AtUp(p, t);
        p, t := p.up, Wrapped(p, t);
        elm := parent;
        Links(p, t);
        parent := elm.parent;
        stop := false;
      } else {
        if BlackOrNull(tmp.left) {
          RemoveNear(p, t);
          TurnNearRight(tmp, tmp.right, p, t);
          p := p.(sib := NearRotated(p));
          Links(p, t);
          NephewLinks(p, t);
          tmp := parent.left;
        }
        RemoveFar(p, t);
        TurnFarRight(parent, tmp, tmp.left, p, t);
        p, t := p.up, Rotated(Wrapped(FarPainted(p), t), R);
        stop := true;
      }
    }

    /** RB_REMOVE_COLOR. */
    method RemoveColor(parent0: Node?, elm0: Node?, ghost p0: Path, ghost t0: Shape) returns (ghost shape': Shape)
      requires At(p0, t0) && parent0 == Par(p0) && elm0 == Head(t0) && RemoveInv(p0, t0)
      modifies this`root, nodes
      ensures At(Top, shape') && RbOk(shape')
    {
      hide At, RemoveInv, Balanced, RedOk;
      var parent, elm, stop := parent0, elm0, false;
      ghost var p, t := p0, t0;
      Links(p, t);
      while BlackOrNull(elm) && elm != root
        invariant At(p, t) && !stop
        invariant parent == Par(p) && elm == Head(t) && RemoveInv(p, t)
        invariant elm != null ==> elm in nodes
        decreases Measure(p, t)
      {
        Links(p, t);
        RemoveSibling(p, t);
        if parent.left == elm {
          stop, parent, elm, p, t := RemoveRoundLeft(parent, elm, p, t);
        } else {
          stop, parent, elm, p, t := RemoveRoundRight(parent, elm, p, t);
        }
        if stop {
          elm := root;
          AtTop(p, t);
          p, t := Top, Plug(p, t);
          break;
        }
        Links(p, t);
      }
      Links(p, t);
      if !stop {
        RemoveDone(p, t);
      }
      if elm != null {
        Paint(elm, Black, p, t);
        t := if stop then t else t.(color := Black);
      }
      AtTop(p, t);
      shape' := Plug(p, t);
    }

    /** Lines 547-556 and 581-590: the only child of `elm` takes its place. */
    method Unlink(elm: Node, child: Node?, parent: Node?, ghost p: Path, ghost t: Shape, ghost u: Shape)
      requires Linked(p, t, root) && Thin(t, u) && elm == t.node && child == Head(u) && parent == Par(p)
      modifies this`root, PathElems(p), Elems(t)
      ensures Linked(p, u, root) && elm.parent == old(elm.parent)
      ensures elm !in PathElems(p) && elm !in Elems(u)
    {
      hide PathRep;
      ElemsAllocated(t);
      PathElemsAllocated(p);
      assert Sep(u) && Rep(u, elm);
      SetParent(child, parent, u, elm);
      Relink(parent, elm, child, p);
    }

    /** Lines 559-570: `elm`, not in the tree, takes the place of `old'`. */
    method Replace(old': Node, elm: Node, ghost p: Path, ghost t: Shape)
      requires Linked(p, t, root) && t.Branch? && t.node == old' && t.left.Branch?
      requires elm !in PathElems(p) && elm !in Elems(t)
      modifies this`root, PathElems(p), Elems(t), elm
      ensures Linked(p, t.(node := elm), root)
    {
      hide PathRep, Rep;
      ElemsAllocated(t);
      PathElemsAllocated(p);
      RepBranch(t, Par(p));
      elm.left, elm.right, elm.parent, elm.color := old'.left, old'.right, old'.parent, old'.color;
      Relink(old'.parent, old', elm, p);
      SetParent(old'.left, elm, t.left, old');
      SetParent(old'.right, elm, t.right, old');
      RepBranch(t.(node := elm), Par(p));
    }

    lemma AtWhole(p: Path, t: Shape)
      ensures At(p, t) <==> Linked(p, t, root) && nodes == Elems(Plug(p, t)) && order == Inorder(Plug(p, t))
    {
      hide Linked, Elems, PathElems, Inorder, Before, After, Plug;
      PlugElems(p, t);
      PlugInorder(p, t);
    }

    /** Lines 541-577: the successor of `old'` is unlinked and takes its place. */
    method SwapWithSuccessor(old': Node, ghost p: Path, ghost t: Shape)
      returns (elm: Node, child: Node?, parent: Node?, color: Color, ghost q: Path, ghost t2: Shape)
      requires At(p, t) && t.Branch? && t.node == old' && t.left.Branch? && t.right.Branch?
      modifies this`root, nodes
      ensures Plug(q, t2) == t.right && Before(q) == [] && t2.Branch? && t2.left.Leaf?
      ensures elm == t2.node && color == t2.color && child == Head(t2.right)
      ensures Linked(Graft(Down(p, R, t.color, elm, t.left), q), t2.right, root)
      ensures parent == Par(Graft(Down(p, R, t.color, elm, t.left), q))
    {
      hide At, Linked;
      ghost var base := Down(p, R, t.color, old', t.left);
      q, t2 := Top, t.right;
      Links(p, t);
      AtUp(base, t2);
      elm := old'.right;
      Links(base, t2);
      var left := elm.left;
      while left != null
        invariant At(Graft(base, q), t2) && Plug(q, t2) == t.right && Before(q) == []
        invariant t2.Branch? && elm == t2.node && left == Head(t2.left)
        modifies {}
        decreases t2
      {
        elm := left;
        q, t2 := Down(q, L, t2.color, t2.node, t2.right), t2.left;
        AtUp(Graft(base, q), t2);
        Links(Graft(base, q), t2);
        left := elm.left;
      }
      Links(Graft(base, q), t2);
      child := elm.right;
      parent := elm.parent;
      color := elm.color;
      parent := TakePlace(old', elm, child, parent, p, t, q, t2);
    }

    lemma AtParts(p: Path, t: Shape)
      requires At(p, t)
      ensures Linked(p, t, root) && PathElems(p) <= nodes && Elems(t) <= nodes && PathSep(p)
    {}

    /** Lines 547-570. */
    method TakePlace(old': Node, elm: Node, child: Node?, parent0: Node?,
                     ghost p: Path, ghost t: Shape, ghost q: Path, ghost t2: Shape)
      returns (parent: Node?)
      requires t.Branch? && t.node == old' && t.left.Branch? && t2.Branch? && t2.left.Leaf?
      requires At(Graft(Down(p, R, t.color, old', t.left), q), t2)
      requires elm == t2.node && child == Head(t2.right)
      requires parent0 == Par(Graft(Down(p, R, t.color, old', t.left), q))
      modifies this`root, nodes
      ensures Linked(Graft(Down(p, R, t.color, elm, t.left), q), t2.right, root)
      ensures parent == Par(Graft(Down(p, R, t.color, elm, t.left), q))
    {
      hide At, Linked;
      parent := parent0;
      ghost var u := t2.right;
      ghost var base, base' := Down(p, R, t.color, old', t.left), Down(p, R, t.color, elm, t.left);
      ghost var rest := Plug(q, u);
      AtParts(Graft(base, q), t2);
      Links(Graft(base, q), t2);
      if q.Down? { GraftDistinct(base, q); }
      Unlink(elm, child, parent, Graft(base, q), t2, u);
      if elm.parent == old' {
        parent := elm;
      }
      GraftElems(base, q);
      PlugElems(q, u);
      LinkedGraft(base, q, u, root);
      LinkedUp(base, rest, root);
      Replace(old', elm, p, Branch(t.color, t.left, old', rest));
      LinkedUp(base', rest, root);
      LinkedGraft(base', q, u, root);
    }

    static ghost predicate WithoutNode(w: Shape, ns: set<Node>, o: seq<Node>, x: Node, i: nat) {
      && Elems(w) == ns - {x}
      && i < |o| && o[i] == x && Inorder(w) == o[..i] + o[i + 1..]
    }

    static ghost predicate Consists(p: Path, t: Shape, ns: set<Node>, o: seq<Node>) {
      && ns == PathElems(p) + Elems(t) && o == Before(p) + Inorder(t) + After(p)
      && Sep(t) && PathElems(p) !! Elems(t)
    }

    /** Replacing the subtree `t` by one that lacks just the node `x`. */
    static lemma WholeWithout(p: Path, t: Shape, w: Shape, x: Node, i: nat, ns: set<Node>, o: seq<Node>)
      requires Consists(p, t, ns, o) && x in Elems(t) && Elems(w) == Elems(t) - {x}
      requires i < |Inorder(t)| && Inorder(t)[i] == x && Inorder(w) == Inorder(t)[..i] + Inorder(t)[i + 1..]
      ensures WithoutNode(Plug(p, w), ns, o, x, |Before(p)| + i)
    {
      hide Plug, Before, After, PathElems, PathSep, Elems, Inorder, Sep;
      PlugElems(p, w);
      PlugInorder(p, w);
      CutMiddle(Before(p), Inorder(t), After(p), i);
    }

    static lemma CutMiddle(a: seq<Node>, m: seq<Node>, b: seq<Node>, i: nat)
      requires i < |m|
      ensures var o, k := a + m + b, |a| + i;
              o[k] == m[i] && a + (m[..i] + m[i + 1..]) + b == o[..k] + o[k + 1..]
    {
      var o, k := a + m + b, |a| + i;
      assert o[..k] == a + m[..i] && o[k + 1..] == m[i + 1..] + b;
    }

    static lemma RootWithout(t: Shape, w: Shape)
      requires t.Branch? && Sep(t) && Elems(w) == Elems(t.left) + Elems(t.right)
      requires Inorder(w) == Inorder(t.left) + Inorder(t.right)
      ensures var i := |Inorder(t.left)|;
              && t.node in Elems(t) && Elems(w) == Elems(t) - {t.node}
              && i < |Inorder(t)| && Inorder(t)[i] == t.node
              && Inorder(w) == Inorder(t)[..i] + Inorder(t)[i + 1..]
    {
      var i := |Inorder(t.left)|;
      assert Inorder(t)[..i] == Inorder(t.left) && Inorder(t)[i + 1..] == Inorder(t.right);
    }

    static lemma SwappedWhole(p: Path, t: Shape, q: Path, t2: Shape, ns: set<Node>, o: seq<Node>) returns (i: nat)
      requires Consists(p, t, ns, o) && t.Branch? && Plug(q, t2) == t.right && Before(q) == []
      requires t2.Branch? && t2.left.Leaf?
      ensures WithoutNode(Plug(Graft(Down(p, R, t.color, t2.node, t.left), q), t2.right), ns, o, t.node, i)
      ensures Plug(p, t) == Plug(Graft(Down(p, R, t.color, t.node, t.left), q), t2)
    {
      hide Graft, Plug, Before, After, Elems, Inorder, PathElems, PathSep, WithoutNode, Sep;
      var base, rest := Down(p, R, t.color, t2.node, t.left), Plug(q, t2.right);
      var w := Branch(t.color, t.left, t2.node, rest);
      GraftPlug(base, q, t2.right);
      PlugDown(base, rest);
      SwappedShape(t, q, t2);
      RootWithout(t, w);
      WholeWithout(p, t, w, t.node, |Inorder(t.left)|, ns, o);
      i := |Before(p)| + |Inorder(t.left)|;
      var base' := Down(p, R, t.color, t.node, t.left);
      GraftPlug(base', q, t2);
      PlugDown(base', t.right);
    }

    static lemma SwappedShape(t: Shape, q: Path, t2: Shape)
      requires t.Branch? && Plug(q, t2) == t.right && Before(q) == [] && t2.Branch? && t2.left.Leaf?
      ensures var w := Branch(t.color, t.left, t2.node, Plug(q, t2.right));
              Elems(w) == Elems(t.left) + Elems(t.right) && Inorder(w) == Inorder(t.left) + Inorder(t.right)
    {
      hide Before, After, PathElems, Plug;
      PlugElems(q, t2);
      PlugElems(q, t2.right);
      PlugInorder(q, t2);
      PlugInorder(q, t2.right);
      assert Inorder(t2) == [t2.node] + Inorder(t2.right);
      assert Inorder(t.right) == [t2.node] + Inorder(Plug(q, t2.right));
      assert Elems(t2) == {t2.node} + Elems(t2.right);
    }

    lemma AtConsists(p: Path, t: Shape)
      requires At(p, t)
      ensures Consists(p, t, nodes, order)
    {}

    static lemma ThinWhole(p: Path, t: Shape, u: Shape, ns: set<Node>, o: seq<Node>) returns (i: nat)
      requires Consists(p, t, ns, o) && Thin(t, u)
      ensures WithoutNode(Plug(p, u), ns, o, t.node, i)
    {
      hide Plug, Before, After, PathElems, PathSep, WithoutNode, Sep;
      RootWithout(t, u);
      WholeWithout(p, t, u, t.node, |Inorder(t.left)|, ns, o);
      i := |Before(p)| + |Inorder(t.left)|;
    }

    /** Lines 533-590: `elm0` is taken out of the links; the colors are still to be repaired. */
    method TakeOut(elm0: Node, ghost p: Path, ghost t: Shape)
      returns (child: Node?, parent: Node?, color: Color, ghost q: Path, ghost u: Shape, ghost i: nat)
      requires At(p, t) && t.Branch? && t.node == elm0 && RbOk(Plug(p, t))
      modifies this`root, nodes
      ensures Linked(q, u, root) && parent == Par(q) && child == Head(u)
      ensures WithoutNode(Plug(q, u), nodes, order, elm0, i)
      ensures color.Black? ==> RemoveInv(q, u)
      ensures color.Red? ==> RbOk(Plug(q, u))
    {
      hide At, RbOk, RemoveInv, Linked, Graft, Plug, WithoutNode, Consists;
      Links(p, t);
      AtConsists(p, t);
      if elm0.left == null || elm0.right == null {
        if elm0.left == null {
          child := elm0.right;
          u := t.right;
        } else {
          child := elm0.left;
          u := t.left;
        }
        q := p;
        parent := elm0.parent;
        color := elm0.color;
        i := ThinWhole(p, t, u, nodes, order);
        RemoveThin(p, t, u);
        AtParts(p, t);
        Unlink(elm0, child, parent, p, t, u);
      } else {
        var elm: Node;
        ghost var r, t2;
        elm, child, parent, color, r, t2 := SwapWithSuccessor(elm0, p, t);
        q, u := Graft(Down(p, R, t.color, elm, t.left), r), t2.right;
        i := SwappedWhole(p, t, r, t2, nodes, order);
        RemoveThinSwapped(p, t.color, elm0, elm, t.left, r, t2, u);
      }
    }

    ghost predicate RemovedFrom(s: seq<Node>, x: Node)
      reads this
    {
      exists i :: 0 <= i < |s| && s[i] == x && order == s[..i] + s[i + 1..]
    }

    /** RB_REMOVE. */
    method Remove(elm0: Node) returns (r: Node)
      requires Valid() && elm0 in nodes
      modifies this, nodes
      ensures Valid() && r == elm0 && nodes == old(nodes) - {elm0}
      ensures RemovedFrom(old(order), elm0)
    {
      hide At, RbOk, RemoveInv, Linked, Sorted;
      AtWhole(Top, shape);
      ghost var at := Locate(shape, elm0, Top);
      ghost var p, t := at.0, at.1;
      AtTop(p, t);
      ghost var o := order;
      var child, parent, color;
      ghost var q, u, i;
      child, parent, color, q, u, i := TakeOut(elm0, p, t);
      assert o == o[..i] + [elm0] + o[i + 1..];
      SortedRemove(o[..i], elm0, o[i + 1..]);
      PlugElems(q, u);
      assert forall x: object :: x in PathElems(q) + Elems(u) ==> x != this;
      nodes := nodes - {elm0};
      assert Linked(q, u, root);
      order := o[..i] + o[i + 1..];
      AtWhole(q, u);
      if color.Black? {
        shape := RemoveColor(parent, child, q, u);
      } else {
        AtTop(q, u);
        shape := Plug(q, u);
      }
      return elm0;
    }

    // -------------------------------------------------------------- lookup and iteration

    /** RB_FIND. */
    method Find(k: Key) returns (r: Node?)
      requires Valid()
      ensures r != null ==> r in nodes && r.key == k
      ensures r == null ==> forall x :: x in nodes ==> x.key != k
    {
      hide Search, At, Valid, Less, Compare, RbOk;
      var tmp := root;
      ghost var p, t := Top, shape;
      SearchStart(k);
      while tmp != null
        invariant Search(p, t, k) && tmp == Head(t)
        decreases t
      {
        SearchLinks(p, t, k);
        CompareLess(k, tmp.key);
        var comp := Compare(k, tmp.key);
        if comp < 0 {
          tmp := tmp.left;
          SearchLeft(p, t, k);
          p, t := Down(p, L, t.color, t.node, t.right), t.left;
        } else if comp > 0 {
          tmp := tmp.right;
          SearchRight(p, t, k);
          p, t := Down(p, R, t.color, t.node, t.left), t.right;
        } else {
          return tmp;
        }
      }
      SearchEnd(p, k);
      return null;
    }

    /** `order` has exactly its first `i` keys below `k`. */
    ghost predicate CutAt(k: Key, i: nat)
      reads this`order
    {
      && i <= |order|
      && (forall j :: 0 <= j < i ==> Less(order[j].key, k))
      && (forall j :: i <= j < |order| ==> !Less(order[j].key, k))
    }

    ghost function Nth(i: int): Node?
      reads this`order
    {
      if 0 <= i < |order| then order[i] else null
    }

    lemma CutAtLeaf(p: Path, k: Key)
      requires Search(p, Leaf, k)
      ensures CutAt(k, |Before(p)|) && Nth(|Before(p)|) == First(After(p))
    {
      hide Less;
      SearchEnd(p, k);
      forall j | |Before(p)| <= j < |order| ensures !Less(order[j].key, k) {
        assert order[j] in After(p);
        CompareLess(order[j].key, k);
      }
    }

    lemma CutAtNode(p: Path, t: Shape)
      requires At(p, t) && Sorted(order) && t.Branch?
      ensures CutAt(t.node.key, |Before(p)| + |Inorder(t.left)|)
      ensures Nth(|Before(p)| + |Inorder(t.left)|) == t.node
    {
      hide Less, Linked, PathElems, Elems, Before, After;
      var i := |Before(p)| + |Inorder(t.left)|;
      assert order == Before(p) + Inorder(t.left) + [t.node] + Inorder(t.right) + After(p);
      assert order[i] == t.node;
      forall j | i <= j < |order| ensures !Less(order[j].key, t.node.key) {
        CompareLess(order[j].key, t.node.key);
      }
    }

    static ghost function First(s: seq<Node>): Node? { if s == [] then null else s[0] }
    static ghost function Last(s: seq<Node>): Node? { if s == [] then null else s[|s| - 1] }

    /** RB_NFIND: the first node that is not below `k`. */
    method NFind(k: Key) returns (r: Node?, ghost i: nat)
      requires Valid()
      ensures CutAt(k, i) && r == Nth(i)
    {
      hide Search, At, Less, Compare, RbOk, CutAt, Nth;
      var tmp, res: Node? := root, null;
      ghost var p, t := Top, shape;
      SearchStart(k);
      while tmp != null
        invariant Search(p, t, k) && tmp == Head(t) && res == First(After(p))
        decreases t
      {
        SearchLinks(p, t, k);
        CompareLess(k, tmp.key);
        var comp := Compare(k, tmp.key);
        if comp < 0 {
          res := tmp;
          tmp := tmp.left;
          SearchLeft(p, t, k);
          p, t := Down(p, L, t.color, t.node, t.right), t.left;
        } else if comp > 0 {
          tmp := tmp.right;
          SearchRight(p, t, k);
          p, t := Down(p, R, t.color, t.node, t.left), t.right;
        } else {
          SearchAt(p, t, k);
          CutAtNode(p, t);
          return tmp, |Before(p)| + |Inorder(t.left)|;
        }
      }
      CutAtLeaf(p, k);
      return res, |Before(p)|;
    }

    lemma SearchAt(p: Path, t: Shape, k: Key)
      requires Search(p, t, k)
      ensures At(p, t) && Sorted(order)
    {}

    /** Where the node at the point of view stands in `order`. */
    lemma Position(p: Path, t: Shape)
      requires At(p, t) && t.Branch?
      ensures Nth(|Before(p)| + |Inorder(t.left)|) == t.node
      ensures t.right.Leaf? ==> Nth(|Before(p)| + |Inorder(t.left)| + 1) == First(After(p))
      ensures t.left.Leaf? ==> Nth(|Before(p)| - 1) == Last(Before(p))
    {
      hide Linked, PathElems, Elems, Before, After;
      assert order == Before(p) + Inorder(t.left) + [t.node] + Inorder(t.right) + After(p);
    }

    /** RB_NEXT. */
    method Next(elm0: Node) returns (r: Node?, ghost i: nat)
      requires Valid() && elm0 in nodes
      ensures Nth(i) == elm0 && r == Nth(i + 1)
    {
      hide At, RbOk, Nth, Sorted;
      var elm: Node := elm0;
      AtWhole(Top, shape);
      ghost var at := Locate(shape, elm0, Top);
      ghost var p, t := at.0, at.1;
      AtTop(p, t);
      Links(p, t);
      Position(p, t);
      i := |Before(p)| + |Inorder(t.left)|;
      if elm.right != null {
        elm := elm.right;
        p, t := Down(p, R, t.color, t.node, t.left), t.right;
        AtUp(p, t);
        Links(p, t);
        while elm.left != null
          invariant At(p, t) && t.Branch? && elm == t.node && elm.left == Head(t.left) && |Before(p)| == i + 1
          decreases t
        {
          elm := elm.left;
          p, t := Down(p, L, t.color, t.node, t.right), t.left;
          AtUp(p, t);
          Links(p, t);
        }
        Position(p, t);
        return elm, i;
      }
      if elm.parent != null && elm == elm.parent.left {
        return elm.parent, i;
      }
      while elm.parent != null && elm == elm.parent.right
        invariant At(p, t) && t.Branch? && elm == t.node && Nth(i + 1) == First(After(p))
        invariant elm.parent == Par(p)
        invariant p.Down? ==> p.node in nodes && p.node.left == Head(Wrapped(p, t).left)
        invariant p.Down? ==> p.node.right == Head(Wrapped(p, t).right)
        invariant p.Down? && p.sib.Branch? ==> p.sib.node != t.node
        decreases p
      {
        elm := elm.parent;
        AtUp(p, t);
        p, t := p.up, Wrapped(p, t);
        Links(p, t);
      }
      return elm.parent, i;
    }

    /** RB_PREV. */
    method Prev(elm0: Node) returns (r: Node?, ghost i: nat)
      requires Valid() && elm0 in nodes
      ensures Nth(i) == elm0 && r == Nth(i - 1)
    {
      hide At, RbOk, Nth, Sorted;
      var elm: Node := elm0;
      AtWhole(Top, shape);
      ghost var at := Locate(shape, elm0, Top);
      ghost var p, t := at.0, at.1;
      AtTop(p, t);
      Links(p, t);
      Position(p, t);
      i := |Before(p)| + |Inorder(t.left)|;
      if elm.left != null {
        elm := elm.left;
        p, t := Down(p, L, t.color, t.node, t.right), t.left;
        AtUp(p, t);
        Links(p, t);
        while elm.right != null
          invariant At(p, t) && t.Branch? && elm == t.node && elm.right == Head(t.right)
          invariant |Before(p)| + |Inorder(t)| == i
          decreases t
        {
          elm := elm.right;
          p, t := Down(p, R, t.color, t.node, t.left), t.right;
          AtUp(p, t);
          Links(p, t);
        }
        Position(p, t);
        return elm, i;
      }
      if elm.parent != null && elm == elm.parent.right {
        return elm.parent, i;
      }
      while elm.parent != null && elm == elm.parent.left
        invariant At(p, t) && t.Branch? && elm == t.node && Nth(i - 1) == Last(Before(p))
        invariant elm.parent == Par(p)
        invariant p.Down? ==> p.node in nodes && p.node.left == Head(Wrapped(p, t).left)
        invariant p.Down? ==> p.node.right == Head(Wrapped(p, t).right)
        invariant p.Down? && p.sib.Branch? ==> p.sib.node != t.node
        decreases p
      {
        elm := elm.parent;
        AtUp(p, t);
        p, t := p.up, Wrapped(p, t);
        Links(p, t);
      }
      return elm.parent, i;
    }

    /** RB_MINMAX. */
    method MinMax(val: int) returns (r: Node?)
      requires Valid()
      ensures r == if val < 0 then First(order) else Last(order)
    {
      hide At, RbOk, Sorted;
      var tmp, parent: Node? := root, null;
      ghost var p, t := Top, shape;
      AtOrder(p, t);
      Links(p, t);
      while tmp != null
        invariant At(p, t) && tmp == Head(t)
        invariant val < 0 ==> Before(p) == [] && parent == First(After(p))
        invariant val >= 0 ==> After(p) == [] && parent == Last(Before(p))
        decreases t
      {
        Links(p, t);
        parent := tmp;
        if val < 0 {
          tmp := tmp.left;
          p, t := Down(p, L, t.color, t.node, t.right), t.left;
        } else {
          tmp := tmp.right;
          p, t := Down(p, R, t.color, t.node, t.left), t.right;
        }
        AtUp(p, t);
      }
      AtOrder(p, t);
      return parent;
    }

    lemma AtOrder(p: Path, t: Shape)
      requires At(p, t)
      ensures order == Before(p) + Inorder(t) + After(p)
    {}
  }

  // ---------------------------------------------------------------- whole runs

  datatype Op = Put(key: Key) | Delete(key: Key)

  ghost function KeysAfter(ops: seq<Op>): set<Key> {
    if ops == [] then {}
    else
      var ks := KeysAfter(ops[..|ops| - 1]);
      match ops[|ops| - 1]
      case Put(k) => ks + {k}
      case Delete(k) => ks - {k}
  }

  /** After any sequence of insertions and removals the tree is a red-black search tree
      that holds exactly the keys put and not deleted since, at a logarithmic height. */
  method Run(ops: seq<Op>) returns (t: Tree)
    ensures t.Valid() && (set x | x in t.nodes :: x.key) == KeysAfter(ops)
    ensures Pow(Height(t.shape)) <= (|t.order| + 1) * (|t.order| + 1)
  {
    hide Tree.Valid, Less;
    t := new Tree();
    for i := 0 to |ops|
      invariant fresh(t) && fresh(t.nodes)
      invariant t.Valid() && (set x | x in t.nodes :: x.key) == KeysAfter(ops[..i])
    {
      ghost var was := set x | x in t.nodes :: x.key;
      ghost var before := t.nodes;
      assert ops[..i + 1][..i] == ops[..i];
      match ops[i] {
        case Put(k) =>
          var n := new Node(k);
          var r := t.Insert(n);
        case Delete(k) =>
          var n := t.Find(k);
          if n != null {
            t.UniqueKey(n);
            var r := t.Remove(n);
          }
      }
    }
    assert ops[..|ops|] == ops;
    t.ValidHeight();
  }
}
