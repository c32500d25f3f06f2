
/** The four rotations, as changes of shape. The node that comes up, and the ones that go down,
    are given new colours. */
module Rotations {
  import opened TreeZipper

  ghost function RotatedRight(t: Tree, up: Color, down: Color): Tree
    requires t.Bin? && t.left.Bin?
  {
    var l := t.left;
    Bin(l.at, l.val, up, l.left, Bin(t.at, t.val, down, l.right, t.right))
  }

  ghost function RotatedLeft(t: Tree, up: Color, down: Color): Tree
    requires t.Bin? && t.right.Bin?
  {
    var r := t.right;
    Bin(r.at, r.val, up, Bin(t.at, t.val, down, t.left, r.left), r.right)
  }

  // The right child of the left child comes up.
  ghost function RotatedLeftRight(t: Tree, up: Color, lcol: Color, tcol: Color): Tree
    requires t.Bin? && t.left.Bin? && t.left.right.Bin?
  {
    var l, x := t.left, t.left.right;
    Bin(x.at, x.val, up, Bin(l.at, l.val, lcol, l.left, x.left), Bin(t.at, t.val, tcol, x.right, t.right))
  }

  // The left child of the right child comes up.
  ghost function RotatedRightLeft(t: Tree, up: Color, rcol: Color, tcol: Color): Tree
    requires t.Bin? && t.right.Bin? && t.right.left.Bin?
  {
    var r, x := t.right, t.right.left;
    Bin(x.at, x.val, up, Bin(t.at, t.val, tcol, t.left, x.left), Bin(r.at, r.val, rcol, x.right, r.right))
  }

  lemma SingleRotationsKeepKeys(t: Tree, a: Color, b: Color)
    requires t.Bin?
    ensures t.left.Bin? ==> Keys(RotatedRight(t, a, b)) == Keys(t)
    ensures t.right.Bin? ==> Keys(RotatedLeft(t, a, b)) == Keys(t)
  {
  }

  // A double rotation is a rotation of a child followed by one of the node itself.
  lemma DoubleRotationsKeepKeys(t: Tree, a: Color, b: Color, k: Color)
    requires t.Bin?
    ensures t.left.Bin? && t.left.right.Bin? ==> Keys(RotatedLeftRight(t, a, b, k)) == Keys(t)
    ensures t.right.Bin? && t.right.left.Bin? ==> Keys(RotatedRightLeft(t, a, b, k)) == Keys(t)
  {
    if t.left.Bin? && t.left.right.Bin? {
      var t1 := t.(left := RotatedLeft(t.left, a, b));
      assert RotatedLeftRight(t, a, b, k) == RotatedRight(t1, a, k);
      SingleRotationsKeepKeys(t.left, a, b);
      SingleRotationsKeepKeys(t1, a, k);
    }
    if t.right.Bin? && t.right.left.Bin? {
      var t1 := t.(right := RotatedRight(t.right, a, b));
      assert RotatedRightLeft(t, a, b, k) == RotatedLeft(t1, a, k);
      SingleRotationsKeepKeys(t.right, a, b);
      SingleRotationsKeepKeys(t1, a, k);
    }
  }

  lemma SingleRotationsKeepNodes(t: Tree, a: Color, b: Color)
    requires t.Bin?
    ensures t.left.Bin? ==> Nodes(RotatedRight(t, a, b)) == Nodes(t)
    ensures t.right.Bin? ==> Nodes(RotatedLeft(t, a, b)) == Nodes(t)
  {
  }

  lemma DoubleRotationsKeepNodes(t: Tree, a: Color, b: Color, k: Color)
    requires t.Bin?
    ensures t.left.Bin? && t.left.right.Bin? ==> Nodes(RotatedLeftRight(t, a, b, k)) == Nodes(t)
    ensures t.right.Bin? && t.right.left.Bin? ==> Nodes(RotatedRightLeft(t, a, b, k)) == Nodes(t)
  {
    if t.left.Bin? && t.left.right.Bin? {
      var t1 := t.(left := RotatedLeft(t.left, a, b));
      assert RotatedLeftRight(t, a, b, k) == RotatedRight(t1, a, k);
      SingleRotationsKeepNodes(t.left, a, b);
      SingleRotationsKeepNodes(t1, a, k);
    }
    if t.right.Bin? && t.right.left.Bin? {
      var t1 := t.(right := RotatedRight(t.right, a, b));
      assert RotatedRightLeft(t, a, b, k) == RotatedLeft(t1, a, k);
      SingleRotationsKeepNodes(t.right, a, b);
      SingleRotationsKeepNodes(t1, a, k);
    }
  }

  lemma SingleRotationsKeepPlaceholders(t: Tree, a: Color, b: Color)
    requires t.Bin?
    ensures t.left.Bin? ==> Placeholders(RotatedRight(t, a, b)) == Placeholders(t)
    ensures t.right.Bin? ==> Placeholders(RotatedLeft(t, a, b)) == Placeholders(t)
  {
  }

  lemma DoubleRotationsKeepPlaceholders(t: Tree, a: Color, b: Color, k: Color)
    requires t.Bin?
    ensures t.left.Bin? && t.left.right.Bin? ==> Placeholders(RotatedLeftRight(t, a, b, k)) == Placeholders(t)
    ensures t.right.Bin? && t.right.left.Bin? ==> Placeholders(RotatedRightLeft(t, a, b, k)) == Placeholders(t)
  {
    if t.left.Bin? && t.left.right.Bin? {
      var t1 := t.(left := RotatedLeft(t.left, a, b));
      assert RotatedLeftRight(t, a, b, k) == RotatedRight(t1, a, k);
      SingleRotationsKeepPlaceholders(t.left, a, b);
      SingleRotationsKeepPlaceholders(t1, a, k);
    }
    if t.right.Bin? && t.right.left.Bin? {
      var t1 := t.(right := RotatedRight(t.right, a, b));
      assert RotatedRightLeft(t, a, b, k) == RotatedLeft(t1, a, k);
      SingleRotationsKeepPlaceholders(t.right, a, b);
      SingleRotationsKeepPlaceholders(t1, a, k);
    }
  }

  lemma NodesOfBin(t: Tree)
    requires t.Bin?
    ensures Nodes(t) == {t.at} + Nodes(t.left) + Nodes(t.right)
  {
  }

  // Two subtrees hung under the node `n`.
  lemma {:induction false} Graft(h: Store, g: Store, n: Node, v: uint32, k: Color, l: Tree, lp: Node, r: Tree, rp: Node, p: Node?)
    requires Shape(h, l, lp) && Shape(h, r, rp)
    requires n in g && g[n] == Cell(v, k, Link(l), Link(r), p)
    requires n !in Nodes(l) && n !in Nodes(r) && Nodes(l) !! Nodes(r)
    requires !l.Empty? && l.at in h ==> l.at in g && g[l.at] == h[l.at].(pa := n)
    requires !r.Empty? && r.at in h ==> r.at in g && g[r.at] == h[r.at].(pa := n)
    requires forall o :: o in Nodes(l) && o != Link(l) ==> Same(h, g, o)
    requires forall o :: o in Nodes(r) && o != Link(r) ==> Same(h, g, o)
    ensures Shape(g, Bin(n, v, k, l, r), p)
    ensures Nodes(Bin(n, v, k, l, r)) == {n} + Nodes(l) + Nodes(r)
  {
    Reparent(h, g, l, lp, n);
    Reparent(h, g, r, rp, n);
  }

  lemma {:induction false} RotateRightShape(h: Store, g: Store, t: Tree, p: Node?, up: Color, down: Color)
    requires Shape(h, t, p) && t.Bin? && t.left.Bin?
    requires t.at in g && t.left.at in g
    requires var b := t.left.right;
      && g[t.left.at] == Cell(t.left.val, up, Link(t.left.left), t.at, p)
      && g[t.at] == Cell(t.val, down, Link(b), Link(t.right), t.left.at)
      && (!b.Empty? && b.at in h ==> b.at in g && g[b.at] == h[b.at].(pa := t.at))
      && forall o :: o in Nodes(t) && o != t.at && o != t.left.at && o != Link(b) ==> Same(h, g, o)
    ensures Shape(g, RotatedRight(t, up, down), p) && Nodes(RotatedRight(t, up, down)) == Nodes(t)
  {
    var l := t.left;
    Split(h, t, p);
    Split(h, l, t.at);
    hide Shape, Nodes;
    Reparent(h, g, l.left, l.at, l.at);
    Reparent(h, g, l.right, l.at, t.at);
    Reparent(h, g, t.right, t.at, t.at);
    Join(g, t.at, t.val, down, l.right, t.right, l.at);
    Join(g, l.at, l.val, up, l.left, Bin(t.at, t.val, down, l.right, t.right), p);
  }

  lemma {:induction false} RotateLeftShape(h: Store, g: Store, t: Tree, p: Node?, up: Color, down: Color)
    requires Shape(h, t, p) && t.Bin? && t.right.Bin?
    requires t.at in g && t.right.at in g
    requires var b := t.right.left;
      && g[t.right.at] == Cell(t.right.val, up, t.at, Link(t.right.right), p)
      && g[t.at] == Cell(t.val, down, Link(t.left), Link(b), t.right.at)
      && (!b.Empty? && b.at in h ==> b.at in g && g[b.at] == h[b.at].(pa := t.at))
      && forall o :: o in Nodes(t) && o != t.at && o != t.right.at && o != Link(b) ==> Same(h, g, o)
    ensures Shape(g, RotatedLeft(t, up, down), p) && Nodes(RotatedLeft(t, up, down)) == Nodes(t)
  {
    var r := t.right;
    Split(h, t, p);
    Split(h, r, t.at);
    hide Shape, Nodes;
    Reparent(h, g, r.right, r.at, r.at);
    Reparent(h, g, r.left, r.at, t.at);
    Reparent(h, g, t.left, t.at, t.at);
    Join(g, t.at, t.val, down, t.left, r.left, r.at);
    Join(g, r.at, r.val, up, Bin(t.at, t.val, down, t.left, r.left), r.right, p);
  }

  /** In `g` the right child of the left child of `t` has come up; below, nothing but two parents has changed. */
  ghost predicate TurnedLeftRight(h: Store, g: Store, t: Tree, p: Node?, up: Color, lcol: Color, tcol: Color)
    requires t.Bin? && t.left.Bin? && t.left.right.Bin?
  {
    var l, x := t.left, t.left.right;
    && t.at in g && l.at in g && x.at in g
    && g[x.at] == Cell(x.val, up, l.at, t.at, p)
    && g[l.at] == Cell(l.val, lcol, Link(l.left), Link(x.left), x.at)
    && g[t.at] == Cell(t.val, tcol, Link(x.right), Link(t.right), x.at)
    && (!x.left.Empty? && x.left.at in h ==> x.left.at in g && g[x.left.at] == h[x.left.at].(pa := l.at))
    && (!x.right.Empty? && x.right.at in h ==> x.right.at in g && g[x.right.at] == h[x.right.at].(pa := t.at))
    && forall o :: o in Nodes(t) && o != t.at && o != l.at && o != x.at && o != Link(x.left) && o != Link(x.right) ==> Same(h, g, o)
  }

  lemma {:induction false} LeftRightBelowLeft(h: Store, g: Store, t: Tree, p: Node?, up: Color, lcol: Color, tcol: Color)
    requires Shape(h, t, p) && t.Bin? && t.left.Bin? && t.left.right.Bin? && TurnedLeftRight(h, g, t, p, up, lcol, tcol)
    ensures Shape(g, RotatedLeftRight(t, up, lcol, tcol).left, t.left.right.at)
  {
    var l, x := t.left, t.left.right;
    Split(h, t, p);
    Split(h, l, t.at);
    Split(h, x, l.at);
    hide Shape, Nodes;
    Graft(h, g, l.at, l.val, lcol, l.left, l.at, x.left, x.at, x.at);
  }

  lemma {:induction false} LeftRightBelowRight(h: Store, g: Store, t: Tree, p: Node?, up: Color, lcol: Color, tcol: Color)
    requires Shape(h, t, p) && t.Bin? && t.left.Bin? && t.left.right.Bin? && TurnedLeftRight(h, g, t, p, up, lcol, tcol)
    ensures Shape(g, RotatedLeftRight(t, up, lcol, tcol).right, t.left.right.at)
  {
    var l, x := t.left, t.left.right;
    Split(h, t, p);
    Split(h, l, t.at);
    Split(h, x, l.at);
    hide Shape, Nodes;
    Graft(h, g, t.at, t.val, tcol, x.right, x.at, t.right, t.at, x.at);
  }

  lemma {:induction false} RotateLeftRightShape(h: Store, g: Store, t: Tree, p: Node?, up: Color, lcol: Color, tcol: Color)
    requires Shape(h, t, p) && t.Bin? && t.left.Bin? && t.left.right.Bin? && TurnedLeftRight(h, g, t, p, up, lcol, tcol)
    ensures Shape(g, RotatedLeftRight(t, up, lcol, tcol), p)
  {
    var l, x, turned := t.left, t.left.right, RotatedLeftRight(t, up, lcol, tcol);
    LeftRightBelowLeft(h, g, t, p, up, lcol, tcol);
    LeftRightBelowRight(h, g, t, p, up, lcol, tcol);
    Split(h, t, p);
    Split(h, l, t.at);
    Split(h, x, l.at);
    NodesOfBin(turned.left);
    NodesOfBin(turned.right);
    hide Shape, Nodes;
    Join(g, x.at, x.val, up, turned.left, turned.right, p);
  }

  /** In `g` the left child of the right child of `t` has come up; below, nothing but two parents has changed. */
  ghost predicate TurnedRightLeft(h: Store, g: Store, t: Tree, p: Node?, up: Color, rcol: Color, tcol: Color)
    requires t.Bin? && t.right.Bin? && t.right.left.Bin?
  {
    var r, x := t.right, t.right.left;
    && t.at in g && r.at in g && x.at in g
    && g[x.at] == Cell(x.val, up, t.at, r.at, p)
    && g[r.at] == Cell(r.val, rcol, Link(x.right), Link(r.right), x.at)
    && g[t.at] == Cell(t.val, tcol, Link(t.left), Link(x.left), x.at)
    && (!x.left.Empty? && x.left.at in h ==> x.left.at in g && g[x.left.at] == h[x.left.at].(pa := t.at))
    && (!x.right.Empty? && x.right.at in h ==> x.right.at in g && g[x.right.at] == h[x.right.at].(pa := r.at))
    && forall o :: o in Nodes(t) && o != t.at && o != r.at && o != x.at && o != Link(x.left) && o != Link(x.right) ==> Same(h, g, o)
  }

  lemma {:induction false} RightLeftBelowLeft(h: Store, g: Store, t: Tree, p: Node?, up: Color, rcol: Color, tcol: Color)
    requires Shape(h, t, p) && t.Bin? && t.right.Bin? && t.right.left.Bin? && TurnedRightLeft(h, g, t, p, up, rcol, tcol)
    ensures Shape(g, RotatedRightLeft(t, up, rcol, tcol).left, t.right.left.at)
  {
    var r, x := t.right, t.right.left;
    Split(h, t, p);
    Split(h, r, t.at);
    Split(h, x, r.at);
    hide Shape, Nodes;
    Graft(h, g, t.at, t.val, tcol, t.left, t.at, x.left, x.at, x.at);
  }

  lemma {:induction false} RightLeftBelowRight(h: Store, g: Store, t: Tree, p: Node?, up: Color, rcol: Color, tcol: Color)
    requires Shape(h, t, p) && t.Bin? && t.right.Bin? && t.right.left.Bin? && TurnedRightLeft(h, g, t, p, up, rcol, tcol)
    ensures Shape(g, RotatedRightLeft(t, up, rcol, tcol).right, t.right.left.at)
  {
    var r, x := t.right, t.right.left;
    Split(h, t, p);
    Split(h, r, t.at);
    Split(h, x, r.at);
    hide Shape, Nodes;
    Graft(h, g, r.at, r.val, rcol, x.right, x.at, r.right, r.at, x.at);
  }

  lemma {:induction false} RotateRightLeftShape(h: Store, g: Store, t: Tree, p: Node?, up: Color, rcol: Color, tcol: Color)
    requires Shape(h, t, p) && t.Bin? && t.right.Bin? && t.right.left.Bin? && TurnedRightLeft(h, g, t, p, up, rcol, tcol)
    ensures Shape(g, RotatedRightLeft(t, up, rcol, tcol), p)
  {
    var r, x, turned := t.right, t.right.left, RotatedRightLeft(t, up, rcol, tcol);
    RightLeftBelowLeft(h, g, t, p, up, rcol, tcol);
    RightLeftBelowRight(h, g, t, p, up, rcol, tcol);
    Split(h, t, p);
    Split(h, r, t.at);
    Split(h, x, r.at);
    NodesOfBin(turned.left);
    NodesOfBin(turned.right);
    hide Shape, Nodes;
    Join(g, x.at, x.val, up, turned.left, turned.right, p);
  }
}
