
/** The red-black tree: node fields and the root are rewritten in place. */
module RedBlackTree {
  import opened TreeZipper
  import opened Rotations

  ghost function Some(n: Node?): set<Node> {
    if n == null then {} else {n}
  }

  ghost function Depth(c: Ctx): nat {
    if c.Top? then 0 else 1 + Depth(c.up)
  }

  /** Insertion repair at the subtree `t`, whose root is under inspection: its children are fine, and
      when it is red itself then either one child is red, or (what a double rotation leaves behind)
      its sibling is. */
  ghost predicate Repairable(c: Ctx, t: Tree) {
    && t.Bin? && Accepts(c, BlackHeight(t))
    && BlackHeight(t.left) == BlackHeight(t.right) && RB(t.left) && RB(t.right)
    && (t.color.Red? ==>
          && c.Under? && c.color.Black?
          && !(IsRed(t.left) && IsRed(t.right))
          && (IsRed(t.left) || IsRed(t.right) || IsRed(c.sib)))
  }

  ghost predicate RepairState(cur: Node?, c: Ctx, t: Tree) {
    if cur == null then c.Top? && t.Bin? && RB(t) else Link(t) == cur && Repairable(c, t)
  }

  /** What a repair step keeps: the keys in order; and it either moves up or makes the sibling red. */
  ghost predicate RepairStep(c: Ctx, t: Tree, next: Node?, c': Ctx, t': Tree) {
    && RepairState(next, c', t')
    && Keys(Plug(c', t')) == Keys(Plug(c, t))
    && Placeholders(Plug(c', t')) == Placeholders(Plug(c, t))
    && (Depth(c') < Depth(c) || (Depth(c') == Depth(c) && c.Under? && c'.Under? && IsRed(c'.sib) && !IsRed(c.sib)))
  }

  ghost function Flipped(t: Tree): Tree
    requires t.Bin? && t.left.Bin? && t.right.Bin?
  {
    t.(color := Red, left := t.left.(color := Black), right := t.right.(color := Black))
  }

  /** Deletion repair: the context expects one more black node than `t` has. */
  ghost predicate Deficit(c: Ctx, t: Tree) {
    Accepts(c, BlackHeight(t) + 1) && RB(t) && CtxPlaceholders(c) == {} && (t.Placeholder? ==> c.Under?)
  }

  // A red parent always ends the repair.
  ghost function Rank(c: Ctx): nat {
    if RedAbove(c) then 0 else Depth(c) + 1
  }

  ghost predicate FixStep(c: Ctx, t: Tree, flag: bool, next: Node, c': Ctx, t': Tree) {
    && Keys(Plug(c', t')) == Keys(Plug(c, t))
    && Placeholders(Plug(c', t')) == Placeholders(Plug(c, t))
    && (if flag then Deficit(c', t') && Link(t') == next && Rank(c') < Rank(c) else Fits(c', t'))
  }

  // 'a' adds a key, 'd' deletes one.
  datatype Token = Token(optr: char, val: uint32)

  ghost function Applied(s: set<uint32>, t: Token): set<uint32> {
    if t.optr == 'a' then s + {t.val} else s - {t.val}
  }

  ghost function Outcome(s: set<uint32>, ts: seq<Token>): set<uint32>
    decreases |ts|
  {
    if ts == [] then s else Outcome(Applied(s, ts[0]), ts[1..])
  }

  /** Only absent keys are added and only present keys are deleted. */
  ghost predicate Legal(s: set<uint32>, ts: seq<Token>)
    decreases |ts|
  {
    ts != [] ==>
      && (if ts[0].optr == 'a' then ts[0].val !in s else ts[0].optr == 'd' && ts[0].val in s)
      && Legal(Applied(s, ts[0]), ts[1..])
  }

  class RBT {
    var root: Node?
    ghost var tree: Tree

    ghost predicate Valid()
      reads this, Nodes(tree)
    {
      && At(View(Nodes(tree)), Top, tree, root)
      && Sorted(Keys(tree)) && Balanced(tree) && Placeholders(tree) == {}
    }

    constructor ()
      ensures Valid() && tree == Empty
    {
      root, tree := null, Empty;
    }

    // `n` has taken the place of `m` under `mp`.
    twostate predicate Relinked(mp: Node?, m: Node, n: Node)
      reads this, mp
    {
      && root == (if mp == null then n else old(root))
      && (mp != null ==> if old(mp.lc) == m then mp.lc == n && mp.rc == old(mp.rc) else mp.lc == old(mp.lc) && mp.rc == n)
    }

    method Relink(mp: Node?, m: Node, n: Node)
      modifies this`root, n`pa, Some(mp)`lc, Some(mp)`rc
      ensures Relinked(mp, m, n) && n.pa == mp
    {
      if mp == null {
        root := n;
        n.pa := null;
      } else if mp.lc == m {
        mp.lc := n;
        n.pa := mp;
      } else {
        mp.rc := n;
        n.pa := mp;
      }
    }

    // The assignments of a right rotation at `m`.
    method LinkRight(mp: Node?, m: Node, l: Node, up: Color, down: Color)
      requires m.lc == l && m.pa == mp && m != l && mp !in {m, l} && l.rc !in {m, l} && (mp != null ==> l.rc != mp)
      modifies this`root, l, m, Some(l.rc)`pa, Some(mp)`lc, Some(mp)`rc
      ensures CellOf(l) == Cell(old(l.val), up, old(l.lc), m, mp)
      ensures CellOf(m) == Cell(old(m.val), down, old(l.rc), old(m.rc), l)
      ensures old(l.rc) != null ==> old(l.rc).pa == m
      ensures Relinked(mp, m, l)
    {
      var b := l.rc;
      m.lc := b;
      if b != null { b.pa := m; }
      l.rc := m;
      m.pa := l;
      Relink(mp, m, l);
      l.color := up;
      m.color := down;
    }

    /** The left child of `m` comes up. */
    method RotateRight(m: Node, up: Color, down: Color, ghost s: set<Node>, ghost c: Ctx, ghost t: Tree)
      requires At(View(s), c, t, root) && t.Bin? && t.left.Bin? && t.at == m
      modifies this`root, s
      ensures At(View(s), c, RotatedRight(t, up, down), root)
    {
      ghost var h := View(s);
      hide At, Shape, Around, Nodes, CtxNodes;
      RightSpot(h, c, t, root);
      LinkRight(m.pa, m, m.lc, up, down);
      RotateRightAt(h, View(s), c, t, old(root), root, up, down);
    }

    method HangRight(n: Node, child: Node?)
      requires child != n
      modifies n`rc, Some(child)`pa
      ensures n.rc == child && (child != null ==> child.pa == n)
    {
      n.rc := child;
      if child != null { child.pa := n; }
    }

    method HangLeft(n: Node, child: Node?)
      requires child != n
      modifies n`lc, Some(child)`pa
      ensures n.lc == child && (child != null ==> child.pa == n)
    {
      n.lc := child;
      if child != null { child.pa := n; }
    }

    // The assignments of a double rotation: `x`, right child of the left child `l` of `m`, comes up.
    method LinkLeftRight(mp: Node?, m: Node, l: Node, x: Node, up: Color, lcol: Color, tcol: Color)
      requires m.lc == l && m.pa == mp && l.rc == x && m != l && m != x && l != x && mp !in {m, l, x}
      requires x.lc !in {m, l, x} && x.rc !in {m, l, x} && (x.lc != null ==> x.lc != x.rc)
      requires mp != null ==> x.lc != mp && x.rc != mp
      modifies this`root, l, m, x, Some(x.lc)`pa, Some(x.rc)`pa, Some(mp)`lc, Some(mp)`rc
      ensures CellOf(x) == Cell(old(x.val), up, l, m, mp)
      ensures CellOf(l) == Cell(old(l.val), lcol, old(l.lc), old(x.lc), x)
      ensures CellOf(m) == Cell(old(m.val), tcol, old(x.rc), old(m.rc), x)
      ensures old(x.lc) != null ==> old(x.lc).pa == l
      ensures old(x.rc) != null ==> old(x.rc).pa == m
      ensures Relinked(mp, m, x)
    {
      HangRight(l, x.lc);
      HangLeft(m, x.rc);
      x.lc := l;
      l.pa := x;
      x.rc := m;
      m.pa := x;
      Relink(mp, m, x);
      x.color := up;
      l.color := lcol;
      m.color := tcol;
    }

    /** The right child of the left child of `m` comes up. */
    method RotateLeftRight(m: Node, up: Color, lcol: Color, tcol: Color, ghost s: set<Node>, ghost c: Ctx, ghost t: Tree)
      requires At(View(s), c, t, root) && t.Bin? && t.left.Bin? && t.left.right.Bin? && t.at == m
      modifies this`root, s
      ensures At(View(s), c, RotatedLeftRight(t, up, lcol, tcol), root)
    {
      ghost var h := View(s);
      hide At, Shape, Around, Nodes, CtxNodes;
      LeftRightSpot(h, c, t, root);
      LinkLeftRight(m.pa, m, m.lc, m.lc.rc, up, lcol, tcol);
      RotateLeftRightAt(h, View(s), c, t, old(root), root, up, lcol, tcol);
    }

    // The assignments of a left rotation at `m`.
    method LinkLeft(mp: Node?, m: Node, r: Node, up: Color, down: Color)
      requires m.rc == r && m.pa == mp && m != r && mp !in {m, r} && r.lc !in {m, r} && (mp != null ==> r.lc != mp)
      modifies this`root, r, m, Some(r.lc)`pa, Some(mp)`lc, Some(mp)`rc
      ensures CellOf(r) == Cell(old(r.val), up, m, old(r.rc), mp)
      ensures CellOf(m) == Cell(old(m.val), down, old(m.lc), old(r.lc), r)
      ensures old(r.lc) != null ==> old(r.lc).pa == m
      ensures Relinked(mp, m, r)
    {
      var b := r.lc;
      m.rc := b;
      if b != null { b.pa := m; }
      r.lc := m;
      m.pa := r;
      Relink(mp, m, r);
      r.color := up;
      m.color := down;
    }

    /** The right child of `m` comes up. */
    method RotateLeft(m: Node, up: Color, down: Color, ghost s: set<Node>, ghost c: Ctx, ghost t: Tree)
      requires At(View(s), c, t, root) && t.Bin? && t.right.Bin? && t.at == m
      modifies this`root, s
      ensures At(View(s), c, RotatedLeft(t, up, down), root)
    {
      ghost var h := View(s);
      hide At, Shape, Around, Nodes, CtxNodes;
      LeftSpot(h, c, t, root);
      LinkLeft(m.pa, m, m.rc, up, down);
      RotateLeftAt(h, View(s), c, t, old(root), root, up, down);
    }

    // The assignments of a double rotation: `x`, left child of the right child `r` of `m`, comes up.
    method LinkRightLeft(mp: Node?, m: Node, r: Node, x: Node, up: Color, rcol: Color, tcol: Color)
      requires m.rc == r && m.pa == mp && r.lc == x && m != r && m != x && r != x && mp !in {m, r, x}
      requires x.rc !in {m, r, x} && x.lc !in {m, r, x} && (x.rc != null ==> x.rc != x.lc)
      requires mp != null ==> x.rc != mp && x.lc != mp
      modifies this`root, r, m, x, Some(x.rc)`pa, Some(x.lc)`pa, Some(mp)`lc, Some(mp)`rc
      ensures CellOf(x) == Cell(old(x.val), up, m, r, mp)
      ensures CellOf(r) == Cell(old(r.val), rcol, old(x.rc), old(r.rc), x)
      ensures CellOf(m) == Cell(old(m.val), tcol, old(m.lc), old(x.lc), x)
      ensures old(x.rc) != null ==> old(x.rc).pa == r
      ensures old(x.lc) != null ==> old(x.lc).pa == m
      ensures Relinked(mp, m, x)
    {
      HangRight(m, x.lc);
      HangLeft(r, x.rc);
      x.lc := m;
      m.pa := x;
      x.rc := r;
      r.pa := x;
      Relink(mp, m, x);
      x.color := up;
      r.color := rcol;
      m.color := tcol;
    }

    /** The left child of the right child of `m` comes up. */
    method RotateRightLeft(m: Node, up: Color, rcol: Color, tcol: Color, ghost s: set<Node>, ghost c: Ctx, ghost t: Tree)
      requires At(View(s), c, t, root) && t.Bin? && t.right.Bin? && t.right.left.Bin? && t.at == m
      modifies this`root, s
      ensures At(View(s), c, RotatedRightLeft(t, up, rcol, tcol), root)
    {
      ghost var h := View(s);
      hide At, Shape, Around, Nodes, CtxNodes;
      RightLeftSpot(h, c, t, root);
      LinkRightLeft(m.pa, m, m.rc, m.rc.lc, up, rcol, tcol);
      RotateRightLeftAt(h, View(s), c, t, old(root), root, up, rcol, tcol);
    }

    method Paint(n: Node, k: Color, ghost s: set<Node>, ghost c: Ctx, ghost t: Tree)
      requires At(View(s), c, t, root) && t.Bin? && t.at == n
      modifies n`color
      ensures At(View(s), c, t.(color := k), root)
    {
      ghost var h := View(s);
      hide At, Shape, Around, Nodes, CtxNodes;
      Anchored(h, c, t, root);
      n.color := k;
      PaintAt(h, View(s), c, t, root, k);
    }

    // ---------- insertion ----------

    /** A red uncle: recolour the parent and both its children. */
    method Flip(m: Node, l: Node, r: Node, ghost s: set<Node>, ghost c: Ctx, ghost t: Tree)
      requires At(View(s), c, t, root) && t.Bin? && t.left.Bin? && t.right.Bin?
      requires t.at == m && t.left.at == l && t.right.at == r
      modifies m`color, l`color, r`color
      ensures At(View(s), c, Flipped(t), root)
    {
      hide At, Shape, Around, Nodes, CtxNodes;
      Paint(m, Red, s, c, t);
      ghost var t1 := t.(color := Red);
      Descend(View(s), c, t1, root);
      Paint(r, Black, s, GoRight(c, t1), t1.right);
      ghost var t2 := t1.(right := t1.right.(color := Black));
      Ascend(View(s), GoRight(c, t1), t2.right, root);
      Descend(View(s), c, t2, root);
      Paint(l, Black, s, GoLeft(c, t2), t2.left);
      Ascend(View(s), GoLeft(c, t2), t2.left.(color := Black), root);
    }

    method RepairLeft(cur: Node, ghost s: set<Node>, ghost c: Ctx, ghost t: Tree)
      returns (next: Node?, ghost c': Ctx, ghost t': Tree)
      requires At(View(s), c, t, root) && Link(t) == cur && Repairable(c, t) && t.color.Red? && c.side.OnLeft?
      modifies this`root, s
      ensures At(View(s), c', t', root) && RepairStep(c, t, next, c', t')
    {
      hide At, Shape, Around, Nodes, CtxNodes, Keys, Placeholders, Plug, Accepts, BlackHeight, RepairStep;
      next, c', t' := cur, c, t;
      ghost var up, top := c.up, Grow(c, t);
      RepairSpot(View(s), c, t, root);
      Ascend(View(s), c, t, root);
      var m, l := cur.pa, cur;
      var r := m.rc;
      if r != null && r.color == Red {
        Flip(m, l, r, s, up, top);
        next := m.pa;
        c', t' := FlipStep(View(s), c, t, root);
      } else if l.lc != null && l.lc.color == Red {
        var ll := l.lc;
        RotateRight(m, Black, Red, s, up, top);
        next, c', t' := cur, up, RotatedRight(top, Black, Red);
        Descend(View(s), c', t', root);
        Paint(ll, Red, s, GoLeft(c', t'), t'.left);
        Ascend(View(s), GoLeft(c', t'), t'.left, root);
        LiftOuter(c, t);
      } else if l.rc != null && l.rc.color == Red {
        RotateLeftRight(m, Black, Red, Red, s, up, top);
        ghost var done := RotatedLeftRight(top, Black, Red, Red);
        next, c', t' := cur, GoLeft(up, done), done.left;
        Descend(View(s), up, done, root);
        LiftInner(c, t);
      } else {
        assert false;
      }
    }

    method RepairRight(cur: Node, ghost s: set<Node>, ghost c: Ctx, ghost t: Tree)
      returns (next: Node?, ghost c': Ctx, ghost t': Tree)
      requires At(View(s), c, t, root) && Link(t) == cur && Repairable(c, t) && t.color.Red? && c.side.OnRight?
      modifies this`root, s
      ensures At(View(s), c', t', root) && RepairStep(c, t, next, c', t')
    {
      hide At, Shape, Around, Nodes, CtxNodes, Keys, Placeholders, Plug, Accepts, BlackHeight, RepairStep;
      next, c', t' := cur, c, t;
      ghost var up, top := c.up, Grow(c, t);
      RepairSpot(View(s), c, t, root);
      Ascend(View(s), c, t, root);
      var m, r := cur.pa, cur;
      var l := m.lc;
      if l != null && l.color == Red {
        Flip(m, l, r, s, up, top);
        next := m.pa;
        c', t' := FlipStep(View(s), c, t, root);
      } else if r.lc != null && r.lc.color == Red {
        RotateRightLeft(m, Black, Red, Red, s, up, top);
        ghost var done := RotatedRightLeft(top, Black, Red, Red);
        next, c', t' := cur, GoRight(up, done), done.right;
        Descend(View(s), up, done, root);
        LiftInnerRight(c, t);
      } else if r.rc != null && r.rc.color == Red {
        var rr := r.rc;
        RotateLeft(m, Black, Red, s, up, top);
        next, c', t' := cur, up, RotatedLeft(top, Black, Red);
        Descend(View(s), c', t', root);
        Paint(rr, Red, s, GoRight(c', t'), t'.right);
        Ascend(View(s), GoRight(c', t'), t'.right, root);
        LiftOuterRight(c, t);
      } else {
        assert false;
      }
    }

    /** One turn of the insertion loop: repair on the proper side, then keep the root black. */
    method RepairOnce(cur: Node, ghost s: set<Node>, ghost c: Ctx, ghost t: Tree)
      returns (next: Node?, ghost c': Ctx, ghost t': Tree)
      requires At(View(s), c, t, root) && Link(t) == cur && Repairable(c, t) && t.color.Red?
      modifies this`root, s
      ensures At(View(s), c', t', root) && RepairStep(c, t, next, c', t')
      ensures next == null ==> t'.color.Black?
    {
      hide At, Shape, Around, Nodes, CtxNodes, Keys, Placeholders, Plug, Accepts, BlackHeight;
      RepairSpot(View(s), c, t, root);
      if cur.pa.lc == cur {
        next, c', t' := RepairLeft(cur, s, c, t);
      } else {
        next, c', t' := RepairRight(cur, s, c, t);
      }
      RootColor(View(s), c', t', root);
      if root.color == Red {
        RedRoot(c', t', next);
        Paint(root, Black, s, c', t');
        t' := t'.(color := Black);
      }
    }

    method InsertFix(start: Node, ghost s: set<Node>, ghost c0: Ctx, ghost t0: Tree)
      requires At(View(s), c0, t0, root) && Link(t0) == start && Repairable(c0, t0)
      modifies this`root, this`tree, s
      ensures At(View(s), Top, tree, root) && Balanced(tree)
      ensures Keys(tree) == Keys(Plug(c0, t0)) && Placeholders(tree) == Placeholders(Plug(c0, t0))
    {
      hide At, Shape, Around, Nodes, CtxNodes, Keys, Placeholders, Plug, Accepts, BlackHeight;
      var cur: Node? := start;
      ghost var c, t := c0, t0;
      Anchored(View(s), c, t, root);
      while cur != null && cur.color == Red
        invariant At(View(s), c, t, root) && RepairState(cur, c, t)
        invariant if cur == null then t.color.Black? else cur in s && cur.color == t.color
        invariant Keys(Plug(c, t)) == Keys(Plug(c0, t0)) && Placeholders(Plug(c, t)) == Placeholders(Plug(c0, t0))
        decreases Depth(c), if c.Under? && IsRed(c.sib) then 0 else 1
      {
        cur, c, t := RepairOnce(cur, s, c, t);
        Anchored(View(s), c, t, root);
      }
      PlugShape(View(s), c, t, root);
      RepairDone(c, t, cur);
      tree := Plug(c, t);
    }

    // The descent for `x` has come to the node `cur`.
    ghost predicate Reached(cur: Node, x: uint32, c: Ctx, t: Tree)
      reads this, Nodes(tree)
    {
      && Valid() && At(View(Nodes(tree)), c, t, root) && Plug(c, t) == tree && Link(t) == cur && Fits(c, t)
      && (forall k :: k in Before(c) ==> k < x) && (forall k :: k in After(c) ==> x < k)
      && (x !in Keys(tree) || AtLeaf(t, x))
    }

    lemma StepDown(cur: Node, x: uint32, c: Ctx, t: Tree)
      requires Reached(cur, x, c, t)
      ensures cur in Nodes(tree) && t.Bin? && CellOf(cur) == Cell(t.val, t.color, Link(t.left), Link(t.right), Parent(c))
      ensures x == cur.val ==> cur.lc == null && cur.rc == null && x in Keys(tree)
      ensures x < cur.val && cur.lc != null ==> Reached(cur.lc, x, GoLeft(c, t), t.left)
      ensures x > cur.val && cur.rc != null ==> Reached(cur.rc, x, GoRight(c, t), t.right)
    {
      Reading(View(Nodes(tree)), c, t, root);
      RootKey(c, t);
      Descend(View(Nodes(tree)), c, t, root);
      DescendFits(c, t, x);
    }

    lemma PlaceFor(cur: Node, x: uint32, side: Side, c: Ctx, t: Tree)
      requires Reached(cur, x, c, t)
      requires if side.OnLeft? then cur.lc == null && x < cur.val else cur.rc == null && cur.val < x
      ensures cur in Nodes(tree) && t.Bin? && t.at == cur && At(View(Nodes(tree)), c, t, root)
      ensures Fits(c, t) && Room(c, t, x, side) && Plug(c, t) == tree
      ensures Sorted(Keys(tree)) && Placeholders(tree) == {}
    {
      StepDown(cur, x, c, t);
    }

    /** Hang a new red node below `cur` and repair upwards from `cur`. */
    method Attach(cur: Node, x: uint32, side: Side, ghost c: Ctx, ghost t: Tree)
      requires Reached(cur, x, c, t)
      requires if side.OnLeft? then cur.lc == null && x < cur.val else cur.rc == null && cur.val < x
      modifies this, Nodes(tree)
      ensures Valid() && (forall n :: n in Nodes(tree) ==> n in old(Nodes(tree)) || fresh(n))
      ensures Elements(Keys(tree)) == old(Elements(Keys(tree))) + {x}
    {
      ghost var s, h := Nodes(tree), View(Nodes(tree));
      hide Reached, At, Shape, Around, Nodes, CtxNodes, Keys, Placeholders, Plug, Accepts, BlackHeight, RB;
      PlaceFor(cur, x, side, c, t);
      Anchored(h, c, t, root);
      StoreNodes(h, c, t, root);
      var n := new Node(x);
      if side.OnLeft? { cur.lc := n; } else { cur.rc := n; }
      n.pa := cur;
      ghost var s' := s + {n};
      AttachAt(h, View(s'), c, t, root, n, x, side);
      ghost var t' := WithChild(t, n, x, side);
      AttachTree(c, t, n, x, side);
      InsertFix(cur, s', c, t');
      StoreNodes(View(s'), Top, tree, root);
    }

    /** A key that is present already is accepted only at a leaf, where it changes nothing: at an
        inner node the descent would not move on. */
    method Insert(x: uint32)
      requires Valid() && (x !in Keys(tree) || AtLeaf(tree, x))
      modifies this, Nodes(tree)
      ensures Valid() && (forall n :: n in Nodes(tree) ==> n in old(Nodes(tree)) || fresh(n))
      ensures Elements(Keys(tree)) == old(Elements(Keys(tree))) + {x}
    {
      if root == null {
        var n := new Node(x);
        root := n;
        n.color := Black;
        tree := Bin(n, x, Black, Empty, Empty);
        SingleNode(View({n}), tree, root);
      } else {
        InsertBelow(root, x);
      }
    }

    method InsertBelow(start: Node, x: uint32)
      requires Valid() && root == start && (x !in Keys(tree) || AtLeaf(tree, x))
      modifies this, Nodes(tree)
      ensures Valid() && (forall n :: n in Nodes(tree) ==> n in old(Nodes(tree)) || fresh(n))
      ensures Elements(Keys(tree)) == old(Elements(Keys(tree))) + {x}
    {
      var cur: Node := start;
      ghost var c, t, s, known := Top, tree, Nodes(tree), Elements(Keys(tree));
      Balance(tree);
      assert Reached(cur, x, c, t);
      hide Valid, Reached, Nodes, Keys, Elements;
      while true
        invariant Reached(cur, x, c, t) && Valid() && Nodes(tree) == s && Elements(Keys(tree)) == known
        decreases t
      {
        StepDown(cur, x, c, t);
        if cur.lc == null && cur.rc == null {
          if x < cur.val {
            Attach(cur, x, OnLeft, c, t);
          } else if x > cur.val {
            Attach(cur, x, OnRight, c, t);
          } else {
            KnownElement(Keys(tree), x);
          }
          break;
        } else if cur.lc == null && x < cur.val {
          Attach(cur, x, OnLeft, c, t);
          break;
        } else if cur.rc == null && x > cur.val {
          Attach(cur, x, OnRight, c, t);
          break;
        } else {
          if x < cur.val {
            cur, c, t := cur.lc, GoLeft(c, t), t.left;
          } else if x > cur.val {
            cur, c, t := cur.rc, GoRight(c, t), t.right;
          } else {
            assert false;
          }
        }
      }
    }

    // ---------- deletion ----------

    // The position on which a deletion step works: `pdc` is black, below `p` and beside `b`.
    ghost predicate Short(pdc: Node, p: Node, b: Node, s: set<Node>, c: Ctx, t: Tree)
      reads this`root, s
    {
      && At(View(s), c, t, root) && Link(t) == pdc && Deficit(c, t) && !IsRed(t)
      && c.Under? && c.at == p && c.sib.Bin? && c.sib.at == b
    }

    ghost predicate Fixed(pdc: Node, s: set<Node>, c: Ctx, t: Tree, flag: bool, next: Node, c': Ctx, t': Tree)
      reads this`root, s
    {
      && At(View(s), c', t', root) && FixStep(c, t, flag, next, c', t')
      && (!flag ==> next == pdc && pdc in s && pdc.color == Black)
    }

    // Case 5: the inner nephew is red.
    method RaiseInnerLeft(pdc: Node, p: Node, b: Node, ghost s: set<Node>, ghost c: Ctx, ghost t: Tree)
      returns (ghost c': Ctx, ghost t': Tree)
      requires Short(pdc, p, b, s, c, t) && c.side.OnLeft? && IsRed(c.sib.left) && p.color == c.color && b.color == c.sib.color
      modifies this`root, s
      ensures Fixed(pdc, s, c, t, false, pdc, c', t')
    {
      hide At, Shape, Around, Nodes, CtxNodes, Keys, Placeholders, Plug, Accepts, BlackHeight, Deficit, FixStep;
      Ascend(View(s), c, t, root);
      DoubleFix(c, t);
      RotateRightLeft(p, p.color, b.color, Black, s, c.up, Grow(c, t));
      c', t' := c.up, RotatedRightLeft(Grow(c, t), c.color, c.sib.color, Black);
      OuterColors(View(s), c', t', root);
    }

    // Case 4: the parent is red.
    method RaiseUnderRedLeft(pdc: Node, p: Node, b: Node, ghost s: set<Node>, ghost c: Ctx, ghost t: Tree)
      returns (ghost c': Ctx, ghost t': Tree)
      requires Short(pdc, p, b, s, c, t) && c.side.OnLeft? && !IsRed(c.sib.left) && c.color.Red? && c.sib.color.Black?
      requires p.color == Red && b.color == Black
      modifies this`root, s
      ensures Fixed(pdc, s, c, t, false, pdc, c', t')
    {
      hide At, Shape, Around, Nodes, CtxNodes, Keys, Placeholders, Plug, Accepts, BlackHeight, Deficit, FixStep;
      Ascend(View(s), c, t, root);
      SingleFix(c, t);
      RotateLeft(p, b.color, p.color, s, c.up, Grow(c, t));
      c', t' := c.up, RotatedLeft(Grow(c, t), Black, Red);
      OuterColors(View(s), c', t', root);
    }

    // Case 3: the outer nephew is red.
    method RaiseOuterLeft(pdc: Node, p: Node, b: Node, r: Node, ghost s: set<Node>, ghost c: Ctx, ghost t: Tree)
      returns (ghost c': Ctx, ghost t': Tree)
      requires Short(pdc, p, b, s, c, t) && c.side.OnLeft? && !IsRed(c.sib.left) && IsRed(c.sib.right)
      requires c.color.Black? && c.sib.color.Black? && c.sib.right.at == r
      requires p.color == Black && b.color == Black && b != r && p != r && r in s
      modifies this`root, s
      ensures Fixed(pdc, s, c, t, false, pdc, c', t')
    {
      hide At, Shape, Around, Nodes, CtxNodes, Keys, Placeholders, Plug, Accepts, BlackHeight, Deficit, FixStep;
      Ascend(View(s), c, t, root);
      SingleFix(c, t);
      ghost var top := PaintRightmost(r, Black, s, c.up, Grow(c, t));
      RotateLeft(p, b.color, p.color, s, c.up, top);
      c', t' := c.up, RotatedLeft(top, Black, Black);
      OuterColors(View(s), c', t', root);
    }

    // Case 2: the sibling is red.
    method RaiseRedSiblingLeft(pdc: Node, p: Node, b: Node, ghost s: set<Node>, ghost c: Ctx, ghost t: Tree)
      returns (ghost c': Ctx, ghost t': Tree)
      requires Short(pdc, p, b, s, c, t) && c.side.OnLeft? && c.sib.color.Red?
      modifies this`root, s
      ensures Fixed(pdc, s, c, t, true, pdc, c', t')
    {
      hide At, Shape, Around, Nodes, CtxNodes, Keys, Placeholders, Plug, Accepts, BlackHeight, Deficit, FixStep;
      Ascend(View(s), c, t, root);
      RedSibling(c, t);
      RotateLeft(p, Black, Red, s, c.up, Grow(c, t));
      ghost var done := RotatedLeft(Grow(c, t), Black, Red);
      Descend(View(s), c.up, done, root);
      Descend(View(s), GoLeft(c.up, done), done.left, root);
      c', t' := GoLeft(GoLeft(c.up, done), done.left), t;
    }

    // Case 1: parent, sibling and nephews are black.
    method PassUpLeft(pdc: Node, p: Node, b: Node, ghost s: set<Node>, ghost c: Ctx, ghost t: Tree)
      returns (ghost c': Ctx, ghost t': Tree)
      requires Short(pdc, p, b, s, c, t) && c.side.OnLeft? && c.color.Black?
      requires c.sib.color.Black? && !IsRed(c.sib.left) && !IsRed(c.sib.right)
      modifies this`root, s
      ensures Fixed(pdc, s, c, t, true, p, c', t')
    {
      hide At, Shape, Around, Nodes, CtxNodes, Keys, Placeholders, Plug, Accepts, BlackHeight, Deficit, FixStep;
      Ascend(View(s), c, t, root);
      BlackSibling(c, t);
      ghost var top, x := Grow(c, t), c.sib.(color := Red);
      Descend(View(s), c.up, top, root);
      SiblingInStore(View(s), c, t, root);
      Paint(b, Red, s, GoRight(c.up, top), c.sib);
      Ascend(View(s), GoRight(c.up, top), x, root);
      c', t' := c.up, Grow(c.(sib := x), t);
    }

    /** The left child `pdc` is one black node short. */
    method FixLeft(pdc: Node, ghost s: set<Node>, ghost c: Ctx, ghost t: Tree)
      returns (next: Node, flag: bool, ghost c': Ctx, ghost t': Tree)
      requires At(View(s), c, t, root) && Link(t) == pdc && Deficit(c, t) && !IsRed(t) && c.Under? && c.side.OnLeft?
      modifies this`root, s
      ensures Fixed(pdc, s, c, t, flag, next, c', t')
    {
      next, flag := pdc, false;
      FixSpot(View(s), c, t, root);
      hide At, Shape, Around, Nodes, CtxNodes, Keys, Placeholders, Plug, Accepts, BlackHeight, Deficit, FixStep, Fixed;
      var p := pdc.pa;
      var b := p.rc;
      var l, r := b.lc, b.rc;
      if l != null && l.color == Red {
        c', t' := RaiseInnerLeft(pdc, p, b, s, c, t);
        return;
      }
      if p.color == Red && b.color == Black && l == null {
        c', t' := RaiseUnderRedLeft(pdc, p, b, s, c, t);
        return;
      } else if p.color == Red && b.color == Black && l.color == Black {
        c', t' := RaiseUnderRedLeft(pdc, p, b, s, c, t);
        return;
      }
      if r != null && p.color == Black && b.color == Black && r.color == Red && l == null {
        c', t' := RaiseOuterLeft(pdc, p, b, r, s, c, t);
        return;
      } else if r != null && p.color == Black && b.color == Black && r.color == Red && l.color == Black {
        c', t' := RaiseOuterLeft(pdc, p, b, r, s, c, t);
        return;
      }
      if b.color == Red {
        c', t' := RaiseRedSiblingLeft(pdc, p, b, s, c, t);
        flag := true;
        return;
      }
      if l == null && r == null && b.color == Black && p.color == Black {
        c', t' := PassUpLeft(pdc, p, b, s, c, t);
        next, flag := p, true;
      } else if l.color == Black && r.color == Black && b.color == Black && p.color == Black {
        c', t' := PassUpLeft(pdc, p, b, s, c, t);
        next, flag := p, true;
      } else {
        assert false;
      }
    }

    // The outer grandchild on the right is recoloured.
    method PaintRightmost(r: Node, k: Color, ghost s: set<Node>, ghost c: Ctx, ghost t: Tree) returns (ghost t': Tree)
      requires At(View(s), c, t, root) && t.Bin? && t.right.Bin? && t.right.right.Bin? && t.right.right.at == r
      modifies r`color
      ensures t' == t.(right := t.right.(right := t.right.right.(color := k)))
      ensures At(View(s), c, t', root)
    {
      hide At, Shape, Around, Nodes, CtxNodes;
      Descend(View(s), c, t, root);
      Descend(View(s), GoRight(c, t), t.right, root);
      Paint(r, k, s, GoRight(GoRight(c, t), t.right), t.right.right);
      ghost var x := t.right.right.(color := k);
      Ascend(View(s), GoRight(GoRight(c, t), t.right), x, root);
      Ascend(View(s), GoRight(c, t), t.right.(right := x), root);
      t' := t.(right := t.right.(right := x));
    }

    // Case 5: the inner nephew is red.
    method RaiseInnerRight(pdc: Node, p: Node, b: Node, ghost s: set<Node>, ghost c: Ctx, ghost t: Tree)
      returns (ghost c': Ctx, ghost t': Tree)
      requires Short(pdc, p, b, s, c, t) && c.side.OnRight? && IsRed(c.sib.right) && p.color == c.color && b.color == c.sib.color
      modifies this`root, s
      ensures Fixed(pdc, s, c, t, false, pdc, c', t')
    {
      hide At, Shape, Around, Nodes, CtxNodes, Keys, Placeholders, Plug, Accepts, BlackHeight, Deficit, FixStep;
      Ascend(View(s), c, t, root);
      DoubleFixRight(c, t);
      RotateLeftRight(p, p.color, b.color, Black, s, c.up, Grow(c, t));
      c', t' := c.up, RotatedLeftRight(Grow(c, t), c.color, c.sib.color, Black);
      OuterColors(View(s), c', t', root);
    }

    // Case 4: the parent is red.
    method RaiseUnderRedRight(pdc: Node, p: Node, b: Node, ghost s: set<Node>, ghost c: Ctx, ghost t: Tree)
      returns (ghost c': Ctx, ghost t': Tree)
      requires Short(pdc, p, b, s, c, t) && c.side.OnRight? && !IsRed(c.sib.right) && c.color.Red? && c.sib.color.Black?
      requires p.color == Red && b.color == Black
      modifies this`root, s
      ensures Fixed(pdc, s, c, t, false, pdc, c', t')
    {
      hide At, Shape, Around, Nodes, CtxNodes, Keys, Placeholders, Plug, Accepts, BlackHeight, Deficit, FixStep;
      Ascend(View(s), c, t, root);
      SingleFixRight(c, t);
      RotateRight(p, b.color, p.color, s, c.up, Grow(c, t));
      c', t' := c.up, RotatedRight(Grow(c, t), Black, Red);
      OuterColors(View(s), c', t', root);
    }

    // Case 3: the outer nephew is red.
    method RaiseOuterRight(pdc: Node, p: Node, b: Node, l: Node, ghost s: set<Node>, ghost c: Ctx, ghost t: Tree)
      returns (ghost c': Ctx, ghost t': Tree)
      requires Short(pdc, p, b, s, c, t) && c.side.OnRight? && !IsRed(c.sib.right) && IsRed(c.sib.left)
      requires c.color.Black? && c.sib.color.Black? && c.sib.left.at == l
      requires p.color == Black && b.color == Black && b != l && p != l && l in s
      modifies this`root, s
      ensures Fixed(pdc, s, c, t, false, pdc, c', t')
    {
      hide At, Shape, Around, Nodes, CtxNodes, Keys, Placeholders, Plug, Accepts, BlackHeight, Deficit, FixStep;
      Ascend(View(s), c, t, root);
      SingleFixRight(c, t);
      ghost var top := PaintLeftmost(l, Black, s, c.up, Grow(c, t));
      RotateRight(p, b.color, p.color, s, c.up, top);
      c', t' := c.up, RotatedRight(top, Black, Black);
      OuterColors(View(s), c', t', root);
    }

    // Case 2: the sibling is red.
    method RaiseRedSiblingRight(pdc: Node, p: Node, b: Node, ghost s: set<Node>, ghost c: Ctx, ghost t: Tree)
      returns (ghost c': Ctx, ghost t': Tree)
      requires Short(pdc, p, b, s, c, t) && c.side.OnRight? && c.sib.color.Red?
      modifies this`root, s
      ensures Fixed(pdc, s, c, t, true, pdc, c', t')
    {
      hide At, Shape, Around, Nodes, CtxNodes, Keys, Placeholders, Plug, Accepts, BlackHeight, Deficit, FixStep;
      Ascend(View(s), c, t, root);
      RedSiblingRight(c, t);
      RotateRight(p, Black, Red, s, c.up, Grow(c, t));
      ghost var done := RotatedRight(Grow(c, t), Black, Red);
      Descend(View(s), c.up, done, root);
      Descend(View(s), GoRight(c.up, done), done.right, root);
      c', t' := GoRight(GoRight(c.up, done), done.right), t;
    }

    // Case 1: parent, sibling and nephews are black.
    method PassUpRight(pdc: Node, p: Node, b: Node, ghost s: set<Node>, ghost c: Ctx, ghost t: Tree)
      returns (ghost c': Ctx, ghost t': Tree)
      requires Short(pdc, p, b, s, c, t) && c.side.OnRight? && c.color.Black?
      requires c.sib.color.Black? && !IsRed(c.sib.right) && !IsRed(c.sib.left)
      modifies this`root, s
      ensures Fixed(pdc, s, c, t, true, p, c', t')
    {
      hide At, Shape, Around, Nodes, CtxNodes, Keys, Placeholders, Plug, Accepts, BlackHeight, Deficit, FixStep;
      Ascend(View(s), c, t, root);
      BlackSiblingRight(c, t);
      ghost var top, x := Grow(c, t), c.sib.(color := Red);
      Descend(View(s), c.up, top, root);
      SiblingInStore(View(s), c, t, root);
      Paint(b, Red, s, GoLeft(c.up, top), c.sib);
      Ascend(View(s), GoLeft(c.up, top), x, root);
      c', t' := c.up, Grow(c.(sib := x), t);
    }

    /** The right child `pdc` is one black node short. */
    method FixRight(pdc: Node, ghost s: set<Node>, ghost c: Ctx, ghost t: Tree)
      returns (next: Node, flag: bool, ghost c': Ctx, ghost t': Tree)
      requires At(View(s), c, t, root) && Link(t) == pdc && Deficit(c, t) && !IsRed(t) && c.Under? && c.side.OnRight?
      modifies this`root, s
      ensures Fixed(pdc, s, c, t, flag, next, c', t')
    {
      next, flag := pdc, false;
      FixSpot(View(s), c, t, root);
      hide At, Shape, Around, Nodes, CtxNodes, Keys, Placeholders, Plug, Accepts, BlackHeight, Deficit, FixStep, Fixed;
      var p := pdc.pa;
      var b := p.lc;
      var l, r := b.lc, b.rc;
      if r != null && r.color == Red {
        c', t' := RaiseInnerRight(pdc, p, b, s, c, t);
        return;
      }
      if p.color == Red && b.color == Black && r == null {
        c', t' := RaiseUnderRedRight(pdc, p, b, s, c, t);
        return;
      } else if p.color == Red && b.color == Black && r.color == Black {
        c', t' := RaiseUnderRedRight(pdc, p, b, s, c, t);
        return;
      }
      if l != null && p.color == Black && b.color == Black && l.color == Red && r == null {
        c', t' := RaiseOuterRight(pdc, p, b, l, s, c, t);
        return;
      } else if l != null && p.color == Black && b.color == Black && l.color == Red && r.color == Black {
        c', t' := RaiseOuterRight(pdc, p, b, l, s, c, t);
        return;
      }
      if b.color == Red {
        c', t' := RaiseRedSiblingRight(pdc, p, b, s, c, t);
        flag := true;
        return;
      }
      if l == null && r == null && b.color == Black && p.color == Black {
        c', t' := PassUpRight(pdc, p, b, s, c, t);
        next, flag := p, true;
      } else if l.color == Black && r.color == Black && b.color == Black && p.color == Black {
        c', t' := PassUpRight(pdc, p, b, s, c, t);
        next, flag := p, true;
      } else {
        assert false;
      }
    }

    // The outer grandchild on the left is recoloured.
    method PaintLeftmost(l: Node, k: Color, ghost s: set<Node>, ghost c: Ctx, ghost t: Tree) returns (ghost t': Tree)
      requires At(View(s), c, t, root) && t.Bin? && t.left.Bin? && t.left.left.Bin? && t.left.left.at == l
      modifies l`color
      ensures t' == t.(left := t.left.(left := t.left.left.(color := k)))
      ensures At(View(s), c, t', root)
    {
      hide At, Shape, Around, Nodes, CtxNodes;
      Descend(View(s), c, t, root);
      Descend(View(s), GoLeft(c, t), t.left, root);
      Paint(l, k, s, GoLeft(GoLeft(c, t), t.left), t.left.left);
      ghost var x := t.left.left.(color := k);
      Ascend(View(s), GoLeft(GoLeft(c, t), t.left), x, root);
      Ascend(View(s), GoLeft(c, t), t.left.(left := x), root);
      t' := t.(left := t.left.(left := x));
    }

    method FixUp(start: Node, ghost s: set<Node>, ghost c0: Ctx, ghost t0: Tree)
      requires At(View(s), c0, t0, root) && Link(t0) == start && Deficit(c0, t0)
      modifies this`root, this`tree, s
      ensures At(View(s), Top, tree, root) && Balanced(tree)
      ensures Keys(tree) == Keys(Plug(c0, t0)) && Placeholders(tree) == Placeholders(Plug(c0, t0))
    {
      hide At, Shape, Around, Nodes, CtxNodes, Keys, Placeholders, Plug, Accepts, BlackHeight, Deficit, RB, Fits, CtxPlaceholders, Sorted;
      var pdc, flag := start, true;
      ghost var c, t := c0, t0;
      Position(View(s), c, t, root);
      while pdc != root && pdc.color == Black && flag
        invariant At(View(s), c, t, root) && pdc in s
        invariant Keys(Plug(c, t)) == Keys(Plug(c0, t0)) && Placeholders(Plug(c, t)) == Placeholders(Plug(c0, t0))
        invariant if flag then Deficit(c, t) && Link(t) == pdc else Fits(c, t) && pdc.color == Black
        decreases if flag then Rank(c) + 1 else 0
      {
        Position(View(s), c, t, root);
        if pdc == pdc.pa.lc {
          pdc, flag, c, t := FixLeft(pdc, s, c, t);
        } else {
          pdc, flag, c, t := FixRight(pdc, s, c, t);
        }
        if flag { Position(View(s), c, t, root); }
      }
      ghost var h := View(s);
      if flag { Position(h, c, t, root); }
      pdc.color := Black;
      if flag {
        Blacken(h, View(s), c, t, root);
        t := if t.Bin? then t.(color := Black) else t;
      } else {
        assert View(s) == h;
      }
      PlugShape(View(s), c, t, root);
      PlugBalanced(c, t);
      tree := Plug(c, t);
    }

    /** Hang a temporary black node in the empty place below `pdcf`. */
    method HangNil(pdcf: Node, ghost s: set<Node>, ghost c: Ctx) returns (nil: Node)
      requires At(View(s), c, Empty, root) && c.Under? && c.at == pdcf && c.sib.Bin?
      modifies pdcf`lc, pdcf`rc
      ensures fresh(nil) && At(View(s + {nil}), c, Placeholder(nil), root)
    {
      ghost var h := View(s);
      hide At, Shape, Around, Nodes, CtxNodes;
      EmptyPlace(h, c, root);
      nil := new Node(0);
      nil.color := Black;
      nil.pa := pdcf;
      if pdcf.lc == null {
        pdcf.lc := nil;
      } else if pdcf.rc == null {
        pdcf.rc := nil;
      }
      FillPlace(h, View(s + {nil}), c, root, nil);
    }

    method DropNil(nil: Node, ghost s: set<Node>)
      requires At(View(s), Top, tree, root) && Balanced(tree) && Placeholders(tree) == {nil} && Keys(tree) != []
      modifies this`tree, s
      ensures At(View(s - {nil}), Top, tree, root) && Balanced(tree)
      ensures Keys(tree) == old(Keys(tree)) && Placeholders(tree) == {}
    {
      hide At, Shape, Around, Nodes, CtxNodes, Keys, Placeholders, Plug, RB, Balanced;
      ghost var h := View(s);
      NilAlone(nil, tree);
      ghost var c := Locate(h, Top, tree, root, nil);
      NilSpot(h, c, nil, root);
      if nil.pa.lc == nil {
        nil.pa.lc := null;
      } else {
        nil.pa.rc := null;
      }
      ClearPlace(h, View(s - {nil}), c, nil, root);
      WithoutNil(c, nil);
      PlugShape(View(s - {nil}), c, Empty, root);
      tree := Plug(c, Empty);
    }

    method RemoveFix(pdc: Node?, pdcf: Node?, ghost s: set<Node>, ghost c: Ctx, ghost t: Tree)
      requires At(View(s), c, t, root) && Link(t) == pdc && Parent(c) == pdcf
      requires Deficit(c, t) && Placeholders(Plug(c, t)) == {}
      modifies this`root, this`tree, s
      ensures At(View(s), Top, tree, root) && Balanced(tree)
      ensures Keys(tree) == Keys(Plug(c, t)) && Placeholders(tree) == {}
    {
      hide At, Shape, Around, Nodes, CtxNodes, Keys, Placeholders, Plug, RB, Deficit;
      if pdc == null && pdcf == null {
        tree := Empty;
        EmptyTree(View(s), c, t, root);
        return;
      }
      if pdc == null {
        MissingSibling(View(s), c, root);
        if pdcf.lc == null && pdcf.rc == null {
          assert false;  // a black leaf that was removed had a sibling
        } else {
          var nil := HangNil(pdcf, s, c);
          ghost var s' := s + {nil};
          NilKeys(c, nil);
          FixUp(nil, s', c, Placeholder(nil));
          DropNil(nil, s');
          assert s' - {nil} == s;
        }
      } else if pdcf == null {
        Position(View(s), c, t, root);
        ghost var h := View(s);
        pdc.color := Black;
        Blacken(h, View(s), c, t, root);
        tree := t.(color := Black);
        RootRepaired(View(s), c, t, root);
      } else {
        FixUp(pdc, s, c, t);
      }
    }

    /** The node that holds `x`. */
    method Search(x: uint32) returns (cur: Node, ghost c: Ctx, ghost t: Tree)
      requires Valid() && x in Keys(tree)
      ensures Valid() && Standing(cur, c, t) && t.Bin? && t.val == x && cur.val == x
    {
      SomeRoot();
      cur := root;
      c, t := Top, tree;
      hide Valid, Standing, Keys;
      while cur.val != x
        invariant Valid() && Standing(cur, c, t) && x in Keys(t)
        decreases t
      {
        SearchStep(cur, x, c, t);
        if x < cur.val {
          cur, c, t := cur.lc, GoLeft(c, t), t.left;
        } else {
          cur, c, t := cur.rc, GoRight(c, t), t.right;
        }
      }
      NextStep(cur, c, t);
    }

    /** The successor of `px`: leftmost in its right subtree. */
    method GetNext(px: Node, ghost c0: Ctx, ghost t0: Tree) returns (cur: Node, ghost c: Ctx, ghost t: Tree)
      requires Valid() && Standing(px, c0, t0) && px.rc != null
      ensures Valid() && Standing(cur, c, t) && t.Bin? && t.left.Empty? && OnSpine(c, px) && SpineKey(c, px) == px.val && px != cur
    {
      hide Valid, Standing, Fits, Nodes;
      NextStep(px, c0, t0);
      cur := px.rc;
      c, t := GoRight(c0, t0), t0.right;
      while cur.lc != null
        invariant Valid() && Standing(cur, c, t) && OnSpine(c, px) && SpineKey(c, px) == px.val
        decreases t
      {
        NextStep(cur, c, t);
        SpineApart(cur, c, t, px);
        cur, c, t := cur.lc, GoLeft(c, t), t.left;
      }
      NextStep(cur, c, t);
      SpineApart(cur, c, t, px);
    }

    lemma SpineApart(cur: Node, c: Ctx, t: Tree, px: Node)
      requires Standing(cur, c, t) && OnSpine(c, px)
      ensures px != cur && px in Nodes(tree)
    {
      SpineInContext(c, px);
    }

    // `cur` is the root of the subtree `t` of the tree.
    ghost predicate Standing(cur: Node, c: Ctx, t: Tree)
      reads this, Nodes(tree)
    {
      At(View(Nodes(tree)), c, t, root) && Plug(c, t) == tree && t.Bin? && t.at == cur && Fits(c, t)
    }

    lemma SomeRoot()
      requires Valid() && Keys(tree) != []
      ensures tree.Bin? && root != null && Standing(root, Top, tree)
    {
      Balance(tree);
    }

    lemma SearchStep(cur: Node, x: uint32, c: Ctx, t: Tree)
      requires Valid() && Standing(cur, c, t) && x in Keys(t)
      ensures cur.val == t.val
      ensures x < cur.val ==> cur.lc != null && t.left.Bin? && Standing(cur.lc, GoLeft(c, t), t.left) && x in Keys(t.left)
      ensures x > cur.val ==> cur.rc != null && t.right.Bin? && Standing(cur.rc, GoRight(c, t), t.right) && x in Keys(t.right)
    {
      NextStep(cur, c, t);
      PlugKeys(c, t);
      AroundKey(Before(c), Keys(t.left), t.val, Keys(t.right), After(c));
    }

    lemma NextStep(cur: Node, c: Ctx, t: Tree)
      requires Valid() && Standing(cur, c, t)
      ensures cur in Nodes(tree) && t.Bin? && t.at == cur
      ensures CellOf(cur) == Cell(t.val, t.color, Link(t.left), Link(t.right), Parent(c))
      ensures !t.left.Placeholder? && !t.right.Placeholder?
      ensures t.left.Bin? ==> Standing(t.left.at, GoLeft(c, t), t.left)
      ensures t.right.Bin? ==> Standing(t.right.at, GoRight(c, t), t.right)
    {
      Reading(View(Nodes(tree)), c, t, root);
      PlugPlaceholders(c, t);
      Descend(View(Nodes(tree)), c, t, root);
      ChildrenFit(c, t);
    }

    /** Take `pd`, which has at most one child, out of the tree. */
    method Unlink(pd: Node, ghost s: set<Node>, ghost c: Ctx, ghost t: Tree) returns (pdc: Node?, ghost t': Tree)
      requires At(View(s), c, t, root) && t.Bin? && t.at == pd && (t.left.Empty? || t.right.Empty?)
      modifies this`root, s
      ensures t' == (if t.right.Empty? then t.left else t.right) && pdc == Link(t')
      ensures At(View(s - {pd}), c, t', root)
      ensures pd.val == old(pd.val) && pd.color == old(pd.color)
    {
      ghost var h := View(s);
      hide At, Shape, Around, Nodes, CtxNodes;
      UnlinkSpot(h, c, t, root);
      if pd.rc != null {
        pdc := pd.rc;
      } else if pd.lc != null {
        pdc := pd.lc;
      } else {
        pdc := null;
      }
      if pdc != null { pdc.pa := pd.pa; }
      if pd.pa == null {
        root := pdc;
      } else if pd.pa.lc == pd {
        pd.pa.lc := pdc;
      } else if pd.pa.rc == pd {
        pd.pa.rc := pdc;
      }
      t' := if t.right.Empty? then t.left else t.right;
      UnlinkAt(h, View(s - {pd}), c, t, t', old(root), root);
    }

    method Remove(x: uint32)
      requires Valid() && x in Keys(tree)
      modifies this, Nodes(tree)
      ensures Valid() && Nodes(tree) <= old(Nodes(tree))
      ensures Elements(Keys(tree)) == old(Elements(Keys(tree))) - {x}
    {
      hide Standing, At, Shape, Around, Nodes, CtxNodes, Keys, Placeholders, Plug, RB, Accepts, Elements, Sorted, BlackHeight, Fits, Deficit;
      var px, c, t := Search(x);
      NextStep(px, c, t);
      var pd := px;
      if px.lc != null && px.rc != null {
        pd, c, t := GetNext(px, c, t);
        NextStep(pd, c, t);
        SpineApart(pd, c, t, px);
      }
      Excise(x, px, pd, c, t);
    }

    /** Take out `pd` and leave its key in `px`. */
    method Excise(x: uint32, px: Node, pd: Node, ghost c: Ctx, ghost t: Tree)
      requires Valid() && Standing(pd, c, t) && t.Bin?
      requires if px == pd then t.val == x && (t.left.Empty? || t.right.Empty?)
               else t.left.Empty? && OnSpine(c, px) && px in Nodes(tree) && SpineKey(c, px) == x
      modifies this, Nodes(tree)
      ensures Valid() && Nodes(tree) <= old(Nodes(tree))
      ensures Elements(Keys(tree)) == old(Elements(Keys(tree))) - {x}
    {
      ghost var s, h := Nodes(tree), View(Nodes(tree));
      StandingAt(pd, c, t);
      hide Standing, At, Shape, Around, Nodes, CtxNodes, Keys, Placeholders, Plug, RB, Accepts, Elements, Sorted, BlackHeight, Fits, Deficit;
      var pdcf := pd.pa;
      var pdc, t' := Unlink(pd, s, c, t);
      ghost var c' := ExchangeKeys(px, pd, s - {pd}, c, t', x, t);
      Removed(c, t, c', t', px, x);
      Settle(pdc, pdcf, pd.color, s - {pd}, c', t');
    }

    // Repair, if a black node has gone.
    method Settle(pdc: Node?, pdcf: Node?, gone: Color, ghost s: set<Node>, ghost c: Ctx, ghost t: Tree)
      requires At(View(s), c, t, root) && Link(t) == pdc && Parent(c) == pdcf
      requires if gone.Black? then Deficit(c, t) else Fits(c, t)
      requires Sorted(Keys(Plug(c, t))) && Placeholders(Plug(c, t)) == {}
      modifies this, s
      ensures Valid() && Nodes(tree) == s && Keys(tree) == Keys(Plug(c, t))
    {
      hide At, Shape, Around, Nodes, CtxNodes, Keys, Placeholders, Plug, RB, Accepts, Sorted, BlackHeight, Fits, Deficit;
      if gone == Black {
        RemoveFix(pdc, pdcf, s, c, t);
      } else {
        Closed(View(s), c, t, root);
        tree := Plug(c, t);
      }
      StoreNodes(View(s), Top, tree, root);
      assert Nodes(tree) == s;
    }

    method ExchangeKeys(px: Node, pd: Node, ghost s: set<Node>, ghost c: Ctx, ghost t': Tree, x: uint32, ghost t: Tree) returns (ghost c': Ctx)
      requires At(View(s), c, t', root) && t.Bin? && t.val == pd.val && pd !in s
      requires px != pd ==> OnSpine(c, px)
      modifies px`val
      ensures At(View(s), c', t', root) && pd.color == old(pd.color)
      ensures c' == if px == pd then c else Renamed(c, px, t.val)
    {
      c' := c;
      ghost var h := View(s);
      hide At, Shape, Around, Nodes, CtxNodes;
      if px != pd {
        SpineNode(h, c, t', root, px);
        px.val := pd.val;
        RenameAt(h, View(s), c, t', root, px, pd.val);
        c' := Renamed(c, px, pd.val);
      }
    }

    lemma StandingAt(cur: Node, c: Ctx, t: Tree)
      requires Valid() && Standing(cur, c, t)
      ensures At(View(Nodes(tree)), c, t, root) && Plug(c, t) == tree && t.Bin? && t.at == cur && Fits(c, t)
      ensures cur in Nodes(tree) && cur.color == t.color && cur.val == t.val && cur.pa == Parent(c)
    {
      NextStep(cur, c, t);
    }

    /** A whole sequence of operations, one token each. */
    method Run(tokens: seq<Token>)
      requires Valid() && Legal(Elements(Keys(tree)), tokens)
      modifies this, Nodes(tree)
      ensures Valid() && Elements(Keys(tree)) == Outcome(old(Elements(Keys(tree))), tokens)
    {
      hide Valid, Nodes, Keys, Elements;
      ghost var start := Elements(Keys(tree));
      var i := 0;
      while i < |tokens|
        invariant Valid() && 0 <= i <= |tokens|
        invariant Legal(Elements(Keys(tree)), tokens[i..])
        invariant Outcome(Elements(Keys(tree)), tokens[i..]) == Outcome(start, tokens)
        invariant forall n :: n in Nodes(tree) ==> n in old(Nodes(tree)) || fresh(n)
      {
        KeyElements(Keys(tree), tokens[i].val);
        assert tokens[i..][1..] == tokens[i + 1..];
        if tokens[i].optr == 'a' {
          Insert(tokens[i].val);
        } else {
          Remove(tokens[i].val);
        }
        i := i + 1;
      }
    }
  }

  // The node above a position, told apart from the nodes below it.
  lemma Surroundings(h: Store, c: Ctx, t: Tree, root: Node?)
    requires At(h, c, t, root) && !t.Empty?
    ensures Shape(h, t, Parent(c)) && Around(h, c, t.at, root) && CtxNodes(c) !! Nodes(t) && h.Keys == CtxNodes(c) + Nodes(t)
    ensures t.at in Nodes(t) && h[t.at].pa == Parent(c)
    ensures c.Under? ==> c.at in CtxNodes(c) && c.at in h && (h[c.at].lc == t.at <==> c.side.OnLeft?)
    ensures c.Under? ==> (if c.side.OnLeft? then h[c.at].lc == t.at else h[c.at].rc == t.at)
  {
    InStore(h, t, Parent(c));
    if c.Under? {
      SplitCtx(h, c, t.at, root);
    }
  }

  lemma Within(t: Tree)
    requires t.Bin?
    ensures t.at in Nodes(t) && Nodes(t.left) <= Nodes(t) && Nodes(t.right) <= Nodes(t)
    ensures !t.left.Empty? ==> t.left.at in Nodes(t.left)
    ensures !t.right.Empty? ==> t.right.at in Nodes(t.right)
  {
  }

  // Outside the listed nodes `g` holds what `h` held.
  ghost predicate Kept(h: Store, g: Store, touched: set<Node?>) {
    g.Keys == h.Keys && forall o :: o in h && o !in touched ==> g[o] == h[o]
  }

  // `n` is the new subtree root below `c`.
  ghost predicate Hung(h: Store, g: Store, c: Ctx, n: Node, root: Node?, root': Node?) {
    && root' == (if c.Top? then n else root)
    && (c.Under? && c.at in h ==> c.at in g && g[c.at] == WithHole(h[c.at], c.side, n))
  }

  lemma RightSpot(h: Store, c: Ctx, t: Tree, root: Node?)
    requires At(h, c, t, root) && t.Bin? && t.left.Bin?
    ensures t.at in h && t.left.at in h
    ensures h[t.at] == Cell(t.val, t.color, t.left.at, Link(t.right), Parent(c))
    ensures h[t.left.at] == Cell(t.left.val, t.left.color, Link(t.left.left), Link(t.left.right), t.at)
    ensures var b := t.left.right; !b.Empty? ==> b.at in h && b.at !in {t.at, t.left.at} && b.at != Parent(c)
    ensures c.Under? ==> c.at in h && (h[c.at].lc == t.at <==> c.side.OnLeft?)
    ensures t.at != t.left.at && Parent(c) != t.at && Parent(c) != t.left.at
  {
    Surroundings(h, c, t, root);
    Split(h, t, Parent(c));
    Split(h, t.left, t.at);
    InStore(h, t.left.right, t.left.at);
  }

  lemma RotateRightAt(h: Store, g: Store, c: Ctx, t: Tree, root: Node?, root': Node?, up: Color, down: Color)
    requires At(h, c, t, root) && t.Bin? && t.left.Bin?
    requires t.at in h && t.left.at in h
    requires Kept(h, g, {t.at, t.left.at, Link(t.left.right), Parent(c)}) && Hung(h, g, c, t.left.at, root, root')
    requires g[t.left.at] == Cell(t.left.val, up, Link(t.left.left), t.at, Parent(c))
    requires g[t.at] == Cell(t.val, down, Link(t.left.right), Link(t.right), t.left.at)
    requires var b := t.left.right; !b.Empty? && b.at in h ==> g[b.at] == h[b.at].(pa := t.at)
    ensures At(g, c, RotatedRight(t, up, down), root')
  {
    Surroundings(h, c, t, root);
    Split(h, t, Parent(c));
    Split(h, t.left, t.at);
    SingleRotationsKeepNodes(t, up, down);
    hide Shape, Around, Nodes, CtxNodes;
    RotateRightShape(h, g, t, Parent(c), up, down);
    Replace(h, g, c, t, RotatedRight(t, up, down), root, root');
  }

  lemma LeftRightSpot(h: Store, c: Ctx, t: Tree, root: Node?)
    requires At(h, c, t, root) && t.Bin? && t.left.Bin? && t.left.right.Bin?
    ensures var l, x := t.left, t.left.right;
      && t.at in h && l.at in h && x.at in h
      && h[t.at] == Cell(t.val, t.color, l.at, Link(t.right), Parent(c))
      && h[l.at] == Cell(l.val, l.color, Link(l.left), x.at, t.at)
      && h[x.at] == Cell(x.val, x.color, Link(x.left), Link(x.right), l.at)
      && (!x.left.Empty? ==> x.left.at in h && x.left.at !in {t.at, l.at, x.at} && x.left.at != Parent(c) && x.left.at != Link(x.right))
      && (!x.right.Empty? ==> x.right.at in h && x.right.at !in {t.at, l.at, x.at} && x.right.at != Parent(c))
      && t.at != l.at && t.at != x.at && l.at != x.at && Parent(c) !in {t.at, l.at, x.at}
    ensures c.Under? ==> c.at in h && (h[c.at].lc == t.at <==> c.side.OnLeft?)
  {
    var l, x := t.left, t.left.right;
    Surroundings(h, c, t, root);
    Split(h, t, Parent(c));
    Split(h, l, t.at);
    Split(h, x, l.at);
    InStore(h, x.left, x.at);
    InStore(h, x.right, x.at);
  }

  // Nodes around the place of the change, which is inside `t` and at its parent.
  lemma Outside(h: Store, g: Store, c: Ctx, t: Tree, touched: set<Node?>, n: Node, root: Node?, root': Node?)
    requires Kept(h, g, touched) && Hung(h, g, c, n, root, root') && touched <= Nodes(t) + {null, Parent(c)}
    requires CtxNodes(c) !! Nodes(t) && h.Keys == CtxNodes(c) + Nodes(t)
    ensures g.Keys == h.Keys && forall o :: o in CtxNodes(c) && o != Parent(c) ==> Same(h, g, o)
    ensures c.Under? && c.at in h ==> c.at in g && g[c.at] == WithHole(h[c.at], c.side, n)
    ensures root' == if c.Top? then n else root
  {
    hide Nodes, CtxNodes;
  }

  lemma RotateLeftRightDone(h: Store, g: Store, c: Ctx, t: Tree, root: Node?, root': Node?, up: Color, lcol: Color, tcol: Color)
    requires At(h, c, t, root) && t.Bin? && t.left.Bin? && t.left.right.Bin?
    requires t.at in h && t.left.at in h && t.left.right.at in h
    requires var l, x := t.left, t.left.right;
      && Kept(h, g, {t.at, l.at, x.at, Link(x.left), Link(x.right), Parent(c)}) && Hung(h, g, c, x.at, root, root')
      && g[x.at] == Cell(x.val, up, l.at, t.at, Parent(c))
      && g[l.at] == Cell(l.val, lcol, Link(l.left), Link(x.left), x.at)
      && g[t.at] == Cell(t.val, tcol, Link(x.right), Link(t.right), x.at)
      && (!x.left.Empty? && x.left.at in h ==> g[x.left.at] == h[x.left.at].(pa := l.at))
      && (!x.right.Empty? && x.right.at in h ==> g[x.right.at] == h[x.right.at].(pa := t.at))
    ensures TurnedLeftRight(h, g, t, Parent(c), up, lcol, tcol) && Link(RotatedLeftRight(t, up, lcol, tcol)) == t.left.right.at
    ensures {t.at, t.left.at, t.left.right.at, Link(t.left.right.left), Link(t.left.right.right)} <= Nodes(t) + {null}
  {
    Surroundings(h, c, t, root);
    Within(t);
    Within(t.left);
    Within(t.left.right);
    hide Shape, Around, Nodes, CtxNodes;
  }

  lemma RotateLeftRightAt(h: Store, g: Store, c: Ctx, t: Tree, root: Node?, root': Node?, up: Color, lcol: Color, tcol: Color)
    requires At(h, c, t, root) && t.Bin? && t.left.Bin? && t.left.right.Bin?
    requires t.at in h && t.left.at in h && t.left.right.at in h
    requires var l, x := t.left, t.left.right;
      && Kept(h, g, {t.at, l.at, x.at, Link(x.left), Link(x.right), Parent(c)}) && Hung(h, g, c, x.at, root, root')
      && g[x.at] == Cell(x.val, up, l.at, t.at, Parent(c))
      && g[l.at] == Cell(l.val, lcol, Link(l.left), Link(x.left), x.at)
      && g[t.at] == Cell(t.val, tcol, Link(x.right), Link(t.right), x.at)
      && (!x.left.Empty? && x.left.at in h ==> g[x.left.at] == h[x.left.at].(pa := l.at))
      && (!x.right.Empty? && x.right.at in h ==> g[x.right.at] == h[x.right.at].(pa := t.at))
    ensures At(g, c, RotatedLeftRight(t, up, lcol, tcol), root')
  {
    hide *;
    Surroundings(h, c, t, root);
    RotateLeftRightDone(h, g, c, t, root, root', up, lcol, tcol);
    RotateLeftRightShape(h, g, t, Parent(c), up, lcol, tcol);
    DoubleRotationsKeepNodes(t, up, lcol, tcol);
    Outside(h, g, c, t, {t.at, t.left.at, t.left.right.at, Link(t.left.right.left), Link(t.left.right.right), Parent(c)}, t.left.right.at, root, root');
    Replace(h, g, c, t, RotatedLeftRight(t, up, lcol, tcol), root, root');
  }

  lemma LeftSpot(h: Store, c: Ctx, t: Tree, root: Node?)
    requires At(h, c, t, root) && t.Bin? && t.right.Bin?
    ensures t.at in h && t.right.at in h
    ensures h[t.at] == Cell(t.val, t.color, Link(t.left), t.right.at, Parent(c))
    ensures h[t.right.at] == Cell(t.right.val, t.right.color, Link(t.right.left), Link(t.right.right), t.at)
    ensures var b := t.right.left; !b.Empty? ==> b.at in h && b.at !in {t.at, t.right.at} && b.at != Parent(c)
    ensures c.Under? ==> c.at in h && (h[c.at].lc == t.at <==> c.side.OnLeft?)
    ensures t.at != t.right.at && Parent(c) != t.at && Parent(c) != t.right.at
  {
    Surroundings(h, c, t, root);
    Split(h, t, Parent(c));
    Split(h, t.right, t.at);
    InStore(h, t.right.left, t.right.at);
  }

  lemma RotateLeftAt(h: Store, g: Store, c: Ctx, t: Tree, root: Node?, root': Node?, up: Color, down: Color)
    requires At(h, c, t, root) && t.Bin? && t.right.Bin?
    requires t.at in h && t.right.at in h
    requires Kept(h, g, {t.at, t.right.at, Link(t.right.left), Parent(c)}) && Hung(h, g, c, t.right.at, root, root')
    requires g[t.right.at] == Cell(t.right.val, up, t.at, Link(t.right.right), Parent(c))
    requires g[t.at] == Cell(t.val, down, Link(t.left), Link(t.right.left), t.right.at)
    requires var b := t.right.left; !b.Empty? && b.at in h ==> g[b.at] == h[b.at].(pa := t.at)
    ensures At(g, c, RotatedLeft(t, up, down), root')
  {
    Surroundings(h, c, t, root);
    Split(h, t, Parent(c));
    Split(h, t.right, t.at);
    SingleRotationsKeepNodes(t, up, down);
    hide Shape, Around, Nodes, CtxNodes;
    RotateLeftShape(h, g, t, Parent(c), up, down);
    Replace(h, g, c, t, RotatedLeft(t, up, down), root, root');
  }

  lemma RightLeftSpot(h: Store, c: Ctx, t: Tree, root: Node?)
    requires At(h, c, t, root) && t.Bin? && t.right.Bin? && t.right.left.Bin?
    ensures var r, x := t.right, t.right.left;
      && t.at in h && r.at in h && x.at in h
      && h[t.at] == Cell(t.val, t.color, Link(t.left), r.at, Parent(c))
      && h[r.at] == Cell(r.val, r.color, x.at, Link(r.right), t.at)
      && h[x.at] == Cell(x.val, x.color, Link(x.left), Link(x.right), r.at)
      && (!x.right.Empty? ==> x.right.at in h && x.right.at !in {t.at, r.at, x.at} && x.right.at != Parent(c) && x.right.at != Link(x.left))
      && (!x.left.Empty? ==> x.left.at in h && x.left.at !in {t.at, r.at, x.at} && x.left.at != Parent(c))
      && t.at != r.at && t.at != x.at && r.at != x.at && Parent(c) !in {t.at, r.at, x.at}
    ensures c.Under? ==> c.at in h && (h[c.at].lc == t.at <==> c.side.OnLeft?)
  {
    var r, x := t.right, t.right.left;
    Surroundings(h, c, t, root);
    Split(h, t, Parent(c));
    Split(h, r, t.at);
    Split(h, x, r.at);
    InStore(h, x.right, x.at);
    InStore(h, x.left, x.at);
  }

  lemma RotateRightLeftDone(h: Store, g: Store, c: Ctx, t: Tree, root: Node?, root': Node?, up: Color, rcol: Color, tcol: Color)
    requires At(h, c, t, root) && t.Bin? && t.right.Bin? && t.right.left.Bin?
    requires t.at in h && t.right.at in h && t.right.left.at in h
    requires var r, x := t.right, t.right.left;
      && Kept(h, g, {t.at, r.at, x.at, Link(x.right), Link(x.left), Parent(c)}) && Hung(h, g, c, x.at, root, root')
      && g[x.at] == Cell(x.val, up, t.at, r.at, Parent(c))
      && g[r.at] == Cell(r.val, rcol, Link(x.right), Link(r.right), x.at)
      && g[t.at] == Cell(t.val, tcol, Link(t.left), Link(x.left), x.at)
      && (!x.right.Empty? && x.right.at in h ==> g[x.right.at] == h[x.right.at].(pa := r.at))
      && (!x.left.Empty? && x.left.at in h ==> g[x.left.at] == h[x.left.at].(pa := t.at))
    ensures TurnedRightLeft(h, g, t, Parent(c), up, rcol, tcol) && Link(RotatedRightLeft(t, up, rcol, tcol)) == t.right.left.at
    ensures {t.at, t.right.at, t.right.left.at, Link(t.right.left.left), Link(t.right.left.right)} <= Nodes(t) + {null}
  {
    Surroundings(h, c, t, root);
    Within(t);
    Within(t.right);
    Within(t.right.left);
    hide Shape, Around, Nodes, CtxNodes;
  }

  lemma RotateRightLeftAt(h: Store, g: Store, c: Ctx, t: Tree, root: Node?, root': Node?, up: Color, rcol: Color, tcol: Color)
    requires At(h, c, t, root) && t.Bin? && t.right.Bin? && t.right.left.Bin?
    requires t.at in h && t.right.at in h && t.right.left.at in h
    requires var r, x := t.right, t.right.left;
      && Kept(h, g, {t.at, r.at, x.at, Link(x.right), Link(x.left), Parent(c)}) && Hung(h, g, c, x.at, root, root')
      && g[x.at] == Cell(x.val, up, t.at, r.at, Parent(c))
      && g[r.at] == Cell(r.val, rcol, Link(x.right), Link(r.right), x.at)
      && g[t.at] == Cell(t.val, tcol, Link(t.left), Link(x.left), x.at)
      && (!x.right.Empty? && x.right.at in h ==> g[x.right.at] == h[x.right.at].(pa := r.at))
      && (!x.left.Empty? && x.left.at in h ==> g[x.left.at] == h[x.left.at].(pa := t.at))
    ensures At(g, c, RotatedRightLeft(t, up, rcol, tcol), root')
  {
    hide *;
    Surroundings(h, c, t, root);
    RotateRightLeftDone(h, g, c, t, root, root', up, rcol, tcol);
    RotateRightLeftShape(h, g, t, Parent(c), up, rcol, tcol);
    DoubleRotationsKeepNodes(t, up, rcol, tcol);
    Outside(h, g, c, t, {t.at, t.right.at, t.right.left.at, Link(t.right.left.right), Link(t.right.left.left), Parent(c)}, t.right.left.at, root, root');
    Replace(h, g, c, t, RotatedRightLeft(t, up, rcol, tcol), root, root');
  }

  // ---------- recolouring ----------

  lemma Anchored(h: Store, c: Ctx, t: Tree, root: Node?)
    requires At(h, c, t, root) && t.Bin?
    ensures t.at in h && h[t.at] == Cell(t.val, t.color, Link(t.left), Link(t.right), Parent(c))
  {
  }

  lemma PaintAt(h: Store, g: Store, c: Ctx, t: Tree, root: Node?, k: Color)
    requires At(h, c, t, root) && t.Bin? && t.at in h
    requires Kept(h, g, {t.at}) && g[t.at] == h[t.at].(color := k)
    ensures At(g, c, t.(color := k), root)
  {
    Surroundings(h, c, t, root);
    Split(h, t, Parent(c));
    NodesOfBin(t.(color := k));
    if c.Under? {
      SplitCtx(h, c, t.at, root);
    }
    hide Shape, Around, Nodes, CtxNodes;
    Reparent(h, g, t.left, t.at, t.at);
    Reparent(h, g, t.right, t.at, t.at);
    Join(g, t.at, t.val, k, t.left, t.right, Parent(c));
    Replace(h, g, c, t, t.(color := k), root, root);
  }

  // ---------- insertion steps on trees ----------

  // The pointers read by a repair step.
  lemma RepairSpot(h: Store, c: Ctx, t: Tree, root: Node?)
    requires At(h, c, t, root) && c.Under? && t.Bin?
    ensures c.at in h && t.at in h && Parent(c.up) == h[c.at].pa
    ensures h[t.at] == Cell(t.val, t.color, Link(t.left), Link(t.right), c.at)
    ensures c.at != t.at && t.at != Link(c.sib) && (c.up.Under? ==> c.up.at != c.at && c.up.at != t.at && c.up.at != Link(c.sib))
    ensures if c.side.OnLeft? then h[c.at].lc == t.at && h[c.at].rc == Link(c.sib) else h[c.at].rc == t.at && h[c.at].lc == Link(c.sib)
    ensures ColorAt(h, c.sib) && ColorAt(h, t.left) && ColorAt(h, t.right)
  {
    Surroundings(h, c, t, root);
    Split(h, t, c.at);
    assert Shape(h, c.sib, c.at);
  }

  ghost predicate ColorAt(h: Store, t: Tree) {
    !t.Empty? ==> t.at in h && h[t.at].color == (if t.Bin? then t.color else Black)
  }

  lemma PlugSamePlaceholders(c: Ctx, t: Tree, t': Tree)
    requires Placeholders(t) == Placeholders(t')
    ensures Placeholders(Plug(c, t)) == Placeholders(Plug(c, t'))
  {
    PlugPlaceholders(c, t);
    PlugPlaceholders(c, t');
  }

  lemma FlippedTree(c: Ctx, t: Tree)
    requires c.Under? && Repairable(c, t) && t.color.Red? && IsRed(c.sib)
    ensures var top, done := Grow(c, t), Flipped(Grow(c, t));
      && RB(done) && BlackHeight(done) == BlackHeight(t) + 1
      && Keys(done) == Keys(top) && Placeholders(done) == Placeholders(top)
  {
    assert Keys(t.(color := Black)) == Keys(t) && Keys(c.sib.(color := Black)) == Keys(c.sib);
    assert Placeholders(t.(color := Black)) == Placeholders(t) && Placeholders(c.sib.(color := Black)) == Placeholders(c.sib);
  }

  lemma FlipStep(h: Store, c: Ctx, t: Tree, root: Node?) returns (c': Ctx, t': Tree)
    requires c.Under? && Repairable(c, t) && t.color.Red? && IsRed(c.sib)
    requires At(h, c.up, Flipped(Grow(c, t)), root)
    ensures At(h, c', t', root) && RepairStep(c, t, Parent(c.up), c', t')
  {
    var up, top, done := c.up, Grow(c, t), Flipped(Grow(c, t));
    FlippedTree(c, t);
    hide Keys, Placeholders;
    PlugSameKeys(up, top, done);
    PlugSamePlaceholders(up, top, done);
    assert Accepts(up, BlackHeight(done)) && Depth(c) == 1 + Depth(up);
    if up.Top? {
      c', t' := up, done;
    } else {
      Ascend(h, up, done, root);
      c', t' := up.up, Grow(up, done);
    }
  }

  lemma LiftOuter(c: Ctx, t: Tree)
    requires c.Under? && c.side.OnLeft? && Repairable(c, t) && t.color.Red? && IsRed(t.left) && !IsRed(c.sib)
    ensures RepairStep(c, t, t.at, c.up, RotatedRight(Grow(c, t), Black, Red))
  {
    var top := Grow(c, t);
    SingleRotationsKeepKeys(top, Black, Red);
    PlugSameKeys(c.up, top, RotatedRight(top, Black, Red));
    PlugSamePlaceholders(c.up, top, RotatedRight(top, Black, Red));
  }

  lemma LiftInner(c: Ctx, t: Tree)
    requires c.Under? && c.side.OnLeft? && Repairable(c, t) && t.color.Red? && IsRed(t.right) && !IsRed(c.sib)
    ensures var done := RotatedLeftRight(Grow(c, t), Black, Red, Red);
      RepairStep(c, t, t.at, GoLeft(c.up, done), done.left)
  {
    var top := Grow(c, t);
    var done := RotatedLeftRight(top, Black, Red, Red);
    DoubleRotationsKeepKeys(top, Black, Red, Red);
    DoubleRotationsKeepPlaceholders(top, Black, Red, Red);
    PlugSameKeys(c.up, top, done);
    PlugSamePlaceholders(c.up, top, done);
    assert Plug(GoLeft(c.up, done), done.left) == Plug(c.up, done);
  }

  lemma LiftOuterRight(c: Ctx, t: Tree)
    requires c.Under? && c.side.OnRight? && Repairable(c, t) && t.color.Red? && IsRed(t.right) && !IsRed(c.sib)
    ensures RepairStep(c, t, t.at, c.up, RotatedLeft(Grow(c, t), Black, Red))
  {
    var top := Grow(c, t);
    SingleRotationsKeepKeys(top, Black, Red);
    PlugSameKeys(c.up, top, RotatedLeft(top, Black, Red));
    PlugSamePlaceholders(c.up, top, RotatedLeft(top, Black, Red));
  }

  lemma LiftInnerRight(c: Ctx, t: Tree)
    requires c.Under? && c.side.OnRight? && Repairable(c, t) && t.color.Red? && IsRed(t.left) && !IsRed(c.sib)
    ensures var done := RotatedRightLeft(Grow(c, t), Black, Red, Red);
      RepairStep(c, t, t.at, GoRight(c.up, done), done.right)
  {
    var top := Grow(c, t);
    var done := RotatedRightLeft(top, Black, Red, Red);
    DoubleRotationsKeepKeys(top, Black, Red, Red);
    DoubleRotationsKeepPlaceholders(top, Black, Red, Red);
    PlugSameKeys(c.up, top, done);
    PlugSamePlaceholders(c.up, top, done);
    assert Plug(GoRight(c.up, done), done.right) == Plug(c.up, done);
  }

  // Between steps the root is black, unless the last step coloured the root itself.
  lemma RootColor(h: Store, c: Ctx, t: Tree, root: Node?)
    requires At(h, c, t, root) && t.Bin?
    requires c.Under? ==> Accepts(c, BlackHeight(t))
    ensures root != null && root in h
    ensures c.Top? ==> root == t.at && h[root].color == t.color
    ensures c.Under? ==> h[root].color == Black
  {
    if c.Under? {
      RootIsBlack(h, c, t.at, root, BlackHeight(t));
    }
  }

  lemma RedRoot(c: Ctx, t: Tree, next: Node?)
    requires RepairState(next, c, t) && c.Top? && t.color.Red?
    ensures next == null
    ensures RepairState(next, c, t.(color := Black))
    ensures Keys(Plug(c, t.(color := Black))) == Keys(Plug(c, t))
    ensures Placeholders(Plug(c, t.(color := Black))) == Placeholders(Plug(c, t))
  {
  }

  lemma RepairDone(c: Ctx, t: Tree, cur: Node?)
    requires RepairState(cur, c, t) && t.color.Black?
    ensures Balanced(Plug(c, t))
  {
    PlugBalanced(c, t);
  }

  // ---------- insertion ----------

  ghost function WithChild(t: Tree, n: Node, x: uint32, side: Side): Tree
    requires t.Bin?
  {
    var leaf := Bin(n, x, Red, Empty, Empty);
    if side.OnLeft? then t.(left := leaf) else t.(right := leaf)
  }

  /** The key `x` belongs in the empty place on this side of the root of `t`. */
  ghost predicate Room(c: Ctx, t: Tree, x: uint32, side: Side) {
    && t.Bin? && (if side.OnLeft? then t.left.Empty? && x < t.val else t.right.Empty? && t.val < x)
    && (forall k :: k in Before(c) ==> k < x) && (forall k :: k in After(c) ==> x < k)
  }

  lemma StoreNodes(h: Store, c: Ctx, t: Tree, root: Node?)
    requires At(h, c, t, root)
    ensures Nodes(Plug(c, t)) == h.Keys && (c.Top? ==> Nodes(t) == h.Keys)
  {
    PlugShape(h, c, t, root);
  }

  lemma AttachAt(h: Store, g: Store, c: Ctx, t: Tree, root: Node?, n: Node, x: uint32, side: Side)
    requires At(h, c, t, root) && t.Bin? && t.at in h && n !in h
    requires if side.OnLeft? then t.left.Empty? else t.right.Empty?
    requires g.Keys == h.Keys + {n} && g[n] == Cell(x, Red, null, null, t.at)
    requires g[t.at] == WithHole(h[t.at], side, n)
    requires forall o :: o in h && o != t.at ==> g[o] == h[o]
    ensures At(g, c, WithChild(t, n, x, side), root)
  {
    Surroundings(h, c, t, root);
    Split(h, t, Parent(c));
    InStore(h, t.left, t.at);
    InStore(h, t.right, t.at);
    if c.Under? { SplitCtx(h, c, t.at, root); }
    var leaf, t' := Bin(n, x, Red, Empty, Empty), WithChild(t, n, x, side);
    NodesOfBin(leaf);
    assert Shape(g, leaf, t.at) && Nodes(leaf) == {n};
    NodesOfBin(t');
    hide Shape, Around, Nodes, CtxNodes;
    Reparent(h, g, t.left, t.at, t.at);
    Reparent(h, g, t.right, t.at, t.at);
    Join(g, t.at, t.val, t.color, t'.left, t'.right, Parent(c));
    Replace(h, g, c, t, t', root, root);
  }

  lemma AttachFits(c: Ctx, t: Tree, n: Node, x: uint32, side: Side)
    requires Fits(c, t) && Room(c, t, x, side)
    ensures t.Bin? && Repairable(c, WithChild(t, n, x, side))
    ensures if side.OnLeft? then t.left.Empty? && x < t.val else t.right.Empty? && t.val < x
    ensures (forall k :: k in Before(c) ==> k < x) && (forall k :: k in After(c) ==> x < k)
  {
    var leaf := Bin(n, x, Red, Empty, Empty);
    assert RB(leaf) && BlackHeight(leaf) == 0 && BlackHeight(WithChild(t, n, x, side)) == BlackHeight(t);
  }

  lemma AttachTree(c: Ctx, t: Tree, n: Node, x: uint32, side: Side)
    requires Fits(c, t) && Room(c, t, x, side)
    requires Sorted(Keys(Plug(c, t))) && Placeholders(Plug(c, t)) == {}
    ensures var t' := WithChild(t, n, x, side);
      && Repairable(c, t') && Placeholders(Plug(c, t')) == {}
      && Sorted(Keys(Plug(c, t'))) && Elements(Keys(Plug(c, t'))) == Elements(Keys(Plug(c, t))) + {x}
  {
    var t' := WithChild(t, n, x, side);
    hide *;
    AttachFits(c, t, n, x, side);
    AttachKeys(t, n, x, side);
    PlugSamePlaceholders(c, t, t');
    PlugKeys(c, t);
    PlugKeys(c, t');
    InsertBetween(Before(c), Keys(t), After(c), x, side);
  }

  lemma AttachKeys(t: Tree, n: Node, x: uint32, side: Side)
    requires t.Bin? && (if side.OnLeft? then t.left.Empty? && x < t.val else t.right.Empty? && t.val < x)
    ensures Keys(t) != []
    ensures side.OnLeft? ==> Keys(t)[0] == t.val && Keys(WithChild(t, n, x, side)) == [x] + Keys(t)
    ensures side.OnRight? ==> Keys(t)[|Keys(t)| - 1] == t.val && Keys(WithChild(t, n, x, side)) == Keys(t) + [x]
    ensures Placeholders(WithChild(t, n, x, side)) == Placeholders(t)
  {
    var leaf := Bin(n, x, Red, Empty, Empty);
    assert Keys(leaf) == [x] && Placeholders(leaf) == {};
  }

  lemma InsertBetween(pre: seq<uint32>, ks: seq<uint32>, post: seq<uint32>, x: uint32, side: Side)
    requires Sorted(pre + ks + post) && ks != []
    requires (forall k :: k in pre ==> k < x) && (forall k :: k in post ==> x < k)
    requires if side.OnLeft? then x < ks[0] else ks[|ks| - 1] < x
    ensures var grown := pre + (if side.OnLeft? then [x] + ks else ks + [x]) + post;
      Sorted(grown) && Elements(grown) == Elements(pre + ks + post) + {x}
  {
    assert pre != [] ==> pre[|pre| - 1] in pre;
    assert post != [] ==> post[0] in post;
    if side.OnLeft? {
      assert pre + ([x] + ks) + post == pre + [x] + (ks + post);
      assert pre + ks + post == pre + (ks + post);
      InsertInOrder(pre, ks + post, x);
    } else {
      assert pre + (ks + [x]) + post == (pre + ks) + [x] + post;
      InsertInOrder(pre + ks, post, x);
    }
  }

  lemma InsertInOrder(a: seq<uint32>, b: seq<uint32>, x: uint32)
    requires Sorted(a + b) && (a != [] ==> a[|a| - 1] < x) && (b != [] ==> x < b[0])
    ensures Sorted(a + [x] + b) && Elements(a + [x] + b) == Elements(a + b) + {x}
  {
    InsertSorted(a, b, x);
    var s, r := a + b, a + [x] + b;
    forall k ensures k in r <==> k in s || k == x {
      if k in s {
        var i :| 0 <= i < |s| && s[i] == k;
        assert r[if i < |a| then i else i + 1] == k;
      }
      assert r[|a|] == x;
    }
  }

  lemma InsertSorted(a: seq<uint32>, b: seq<uint32>, x: uint32)
    requires Sorted(a + b) && (a != [] ==> a[|a| - 1] < x) && (b != [] ==> x < b[0])
    ensures Sorted(a + [x] + b)
  {
    var s, r := a + b, a + [x] + b;
    forall i | 0 <= i < |a| ensures r[i] == s[i] < x {
      assert s[|a| - 1] == a[|a| - 1];
    }
    forall i | |a| < i < |r| ensures r[i] == s[i - 1] > x {
      assert s[|a|] == b[0];
    }
  }

  // ---------- descent ----------

  ghost predicate AtLeaf(t: Tree, x: uint32) {
    t.Bin? && (if x == t.val then t.left.Empty? && t.right.Empty?
               else if x < t.val then AtLeaf(t.left, x) else AtLeaf(t.right, x))
  }

  lemma SingleNode(h: Store, t: Tree, root: Node?)
    requires t.Bin? && t.left.Empty? && t.right.Empty? && t.color.Black? && root == t.at
    requires h.Keys == {t.at} && h[t.at] == Cell(t.val, Black, null, null, null)
    ensures At(h, Top, t, root) && Keys(t) == [t.val] && Balanced(t) && Placeholders(t) == {} && Nodes(t) == {t.at}
  {
    assert Shape(h, t.left, t.at) && Shape(h, t.right, t.at);
    NodesOfBin(t);
  }

  lemma Balance(t: Tree)
    requires Balanced(t)
    ensures Fits(Top, t) && Plug(Top, t) == t && Before(Top) == [] && After(Top) == []
  {
  }

  // What the descent reads at a node of a tree without placeholder.
  lemma Reading(h: Store, c: Ctx, t: Tree, root: Node?)
    requires At(h, c, t, root) && !t.Empty? && Placeholders(Plug(c, t)) == {}
    ensures t.Bin? && t.at in h && h[t.at] == Cell(t.val, t.color, Link(t.left), Link(t.right), Parent(c))
    ensures h.Keys == Nodes(Plug(c, t))
  {
    PlugPlaceholders(c, t);
    PlugShape(h, c, t, root);
  }

  lemma RootKey(c: Ctx, t: Tree)
    requires t.Bin?
    ensures t.val in Keys(Plug(c, t))
  {
    PlugKeys(c, t);
    assert Keys(t)[|Keys(t.left)|] == t.val;
    assert Keys(Plug(c, t))[|Before(c)| + |Keys(t.left)|] == t.val;
  }

  lemma DescendFits(c: Ctx, t: Tree, x: uint32)
    requires t.Bin? && Fits(c, t) && Sorted(Keys(Plug(c, t)))
    requires (forall k :: k in Before(c) ==> k < x) && (forall k :: k in After(c) ==> x < k)
    ensures Fits(GoLeft(c, t), t.left) && Plug(GoLeft(c, t), t.left) == Plug(c, t)
    ensures Fits(GoRight(c, t), t.right) && Plug(GoRight(c, t), t.right) == Plug(c, t)
    ensures x < t.val ==> (forall k :: k in Before(GoLeft(c, t)) ==> k < x) && (forall k :: k in After(GoLeft(c, t)) ==> x < k)
    ensures x > t.val ==> (forall k :: k in Before(GoRight(c, t)) ==> k < x) && (forall k :: k in After(GoRight(c, t)) ==> x < k)
  {
    PlugKeys(c, t);
    var a, l, v, r, z := Before(c), Keys(t.left), t.val, Keys(t.right), After(c);
    assert Keys(Plug(c, t)) == a + (l + [v] + r) + z;
    AroundKey(a, l, v, r, z);
  }

  lemma AroundKey(a: seq<uint32>, l: seq<uint32>, v: uint32, r: seq<uint32>, z: seq<uint32>)
    requires Sorted(a + (l + [v] + r) + z)
    ensures (forall k :: k in l ==> k < v) && (forall k :: k in r ==> v < k)
  {
    var s := a + (l + [v] + r) + z;
    assert s[|a| + |l|] == v;
    forall k | k in l ensures k < v {
      var i :| 0 <= i < |l| && l[i] == k;
      assert s[|a| + i] == k;
    }
    forall k | k in r ensures v < k {
      var i :| 0 <= i < |r| && r[i] == k;
      assert s[|a| + |l| + 1 + i] == k;
    }
  }

  lemma KnownElement(s: seq<uint32>, x: uint32)
    requires x in s
    ensures Elements(s) + {x} == Elements(s)
  {
  }

  // ---------- deletion steps on trees ----------

  // What a deletion step reads; its sibling exists, and so do the children it looks at.
  lemma FixSpot(h: Store, c: Ctx, t: Tree, root: Node?)
    requires At(h, c, t, root) && !t.Empty? && c.Under? && Deficit(c, t)
    ensures c.sib.Bin? && c.sib.at in h && c.at in h && t.at in h && h[t.at].pa == c.at && h[c.at].color == c.color
    ensures if c.side.OnLeft? then h[c.at].rc == c.sib.at && h[c.at].lc == t.at else h[c.at].lc == c.sib.at && h[c.at].rc == t.at
    ensures h[c.sib.at] == Cell(c.sib.val, c.sib.color, Link(c.sib.left), Link(c.sib.right), c.at)
    ensures !c.sib.left.Placeholder? && !c.sib.right.Placeholder?
    ensures ColorAt(h, c.sib.left) && ColorAt(h, c.sib.right)
    ensures c.color.Red? || (c.sib.color.Black? && !IsRed(c.sib.left) && !IsRed(c.sib.right)) ==> c.sib.color.Black?
    ensures c.sib.color.Black? && !IsRed(c.sib.left) && !IsRed(c.sib.right) ==> (c.sib.left.Empty? <==> c.sib.right.Empty?)
    ensures t.at != c.sib.at && (c.sib.left.Bin? ==> c.sib.left.at !in {c.at, c.sib.at}) && (c.sib.right.Bin? ==> c.sib.right.at !in {c.at, c.sib.at})
  {
    Surroundings(h, c, t, root);
    assert Shape(h, c.sib, c.at);
    assert Placeholders(c.sib) == {};
    Split(h, c.sib, c.at);
    assert Shape(h, c.sib.left, c.sib.at) && Shape(h, c.sib.right, c.sib.at);
  }

  lemma SiblingInStore(h: Store, c: Ctx, t: Tree, root: Node?)
    requires At(h, c, t, root) && c.Under? && c.sib.Bin?
    ensures c.sib.at in h
  {
    assert Shape(h, c.sib, c.at);
  }

  lemma OuterColors(h: Store, c: Ctx, t: Tree, root: Node?)
    requires At(h, c, t, root) && t.Bin?
    ensures t.left.Bin? ==> ColorAt(h, t.left.left)
    ensures t.right.Bin? ==> ColorAt(h, t.right.right)
  {
    Split(h, t, Parent(c));
    if t.left.Bin? {
      Split(h, t.left, t.at);
      assert Shape(h, t.left.left, t.left.at);
    }
    if t.right.Bin? {
      Split(h, t.right, t.at);
      assert Shape(h, t.right.right, t.right.at);
    }
  }

  /** The inner nephew is red: it comes up with the parent's colour. */
  lemma DoubleFix(c: Ctx, t: Tree)
    requires Deficit(c, t) && !t.Empty? && !IsRed(t) && c.Under? && c.side.OnLeft? && c.sib.Bin? && IsRed(c.sib.left)
    ensures FixStep(c, t, false, t.at, c.up, RotatedRightLeft(Grow(c, t), c.color, c.sib.color, Black))
  {
    var top := Grow(c, t);
    var done := RotatedRightLeft(top, c.color, c.sib.color, Black);
    DoubleRotationsKeepKeys(top, c.color, c.sib.color, Black);
    DoubleRotationsKeepPlaceholders(top, c.color, c.sib.color, Black);
    PlugSameKeys(c.up, top, done);
    PlugSamePlaceholders(c.up, top, done);
    assert RB(c.sib.left) && c.sib.color.Black?;
    assert RB(done.left) && BlackHeight(done.left) == BlackHeight(t) + 1;
    assert RB(done.right) && BlackHeight(done.right) == BlackHeight(t) + 1;
  }

  /** No red inner nephew, but the parent or the outer nephew is red: the sibling comes up. */
  lemma SingleFix(c: Ctx, t: Tree)
    requires Deficit(c, t) && !t.Empty? && !IsRed(t) && c.Under? && c.side.OnLeft? && c.sib.Bin? && c.sib.color.Black? && !IsRed(c.sib.left)
    ensures c.color.Red? ==> FixStep(c, t, false, t.at, c.up, RotatedLeft(Grow(c, t), Black, Red))
    ensures c.color.Black? && IsRed(c.sib.right) ==>
      var top := Grow(c.(sib := c.sib.(right := c.sib.right.(color := Black))), t);
      FixStep(c, t, false, t.at, c.up, RotatedLeft(top, Black, Black))
  {
    var top := Grow(c, t);
    assert RB(c.sib.left) && BlackHeight(c.sib.left) == BlackHeight(t);
    if c.color.Red? {
      SameContents(c.up, top, top, Black, Red);
      var done := RotatedLeft(top, Black, Red);
      assert RB(done.left) && RB(done.right) && BlackHeight(done.left) == BlackHeight(done.right) == BlackHeight(t);
    } else if IsRed(c.sib.right) {
      var x := c.sib.right.(color := Black);
      assert Keys(x) == Keys(c.sib.right) && Placeholders(x) == Placeholders(c.sib.right);
      var top' := Grow(c.(sib := c.sib.(right := x)), t);
      assert Keys(top'.right) == Keys(c.sib) && Placeholders(top'.right) == Placeholders(c.sib);
      SameContents(c.up, top, top', Black, Black);
      assert RB(c.sib.right) && BlackHeight(c.sib.right) == BlackHeight(t);
      assert RB(x) && BlackHeight(x) == BlackHeight(t) + 1;
      var done := RotatedLeft(top', Black, Black);
      assert RB(done.left) && BlackHeight(done.left) == BlackHeight(t) + 1;
    }
  }

  lemma SameContents(c: Ctx, t: Tree, t': Tree, a: Color, b: Color)
    requires t'.Bin? && t'.right.Bin? && Keys(t') == Keys(t) && Placeholders(t') == Placeholders(t)
    ensures Keys(Plug(c, RotatedLeft(t', a, b))) == Keys(Plug(c, t))
    ensures Placeholders(Plug(c, RotatedLeft(t', a, b))) == Placeholders(Plug(c, t))
  {
    SingleRotationsKeepKeys(t', a, b);
    SingleRotationsKeepPlaceholders(t', a, b);
    PlugSameKeys(c, t, RotatedLeft(t', a, b));
    PlugSamePlaceholders(c, t, RotatedLeft(t', a, b));
  }

  /** A red sibling comes up over a parent that becomes red: the next step will be the last. */
  lemma RedSibling(c: Ctx, t: Tree)
    requires Deficit(c, t) && !t.Empty? && !IsRed(t) && c.Under? && c.side.OnLeft? && IsRed(c.sib)
    ensures var done := RotatedLeft(Grow(c, t), Black, Red);
      FixStep(c, t, true, t.at, GoLeft(GoLeft(c.up, done), done.left), t)
  {
    var top := Grow(c, t);
    var done := RotatedLeft(top, Black, Red);
    var outer := GoLeft(c.up, done);
    SameContents(c.up, top, top, Black, Red);
    assert Plug(GoLeft(outer, done.left), t) == Plug(outer, done.left) == Plug(c.up, done);
    assert c.color.Black? && Accepts(c.up, BlackHeight(t) + 2);
    assert Accepts(outer, BlackHeight(t) + 1);
    assert CtxPlaceholders(outer) == {};
  }

  /** Everything is black: the sibling turns red and the shortage moves up. */
  lemma BlackSibling(c: Ctx, t: Tree)
    requires Deficit(c, t) && !t.Empty? && !IsRed(t) && c.Under? && c.side.OnLeft? && c.color.Black?
    requires c.sib.Bin? && c.sib.color.Black? && !IsRed(c.sib.left) && !IsRed(c.sib.right)
    ensures FixStep(c, t, true, c.at, c.up, Grow(c.(sib := c.sib.(color := Red)), t))
  {
    var top, x := Grow(c, t), c.sib.(color := Red);
    assert Keys(x) == Keys(c.sib) && Placeholders(x) == Placeholders(c.sib);
    var top' := Grow(c.(sib := x), t);
    PlugSameKeys(c.up, top, top');
    PlugSamePlaceholders(c.up, top, top');
    assert RB(x) && BlackHeight(x) == BlackHeight(t);
    assert Rank(c.up) < Rank(c);
  }

  lemma DoubleFixRight(c: Ctx, t: Tree)
    requires Deficit(c, t) && !t.Empty? && !IsRed(t) && c.Under? && c.side.OnRight? && c.sib.Bin? && IsRed(c.sib.right)
    ensures FixStep(c, t, false, t.at, c.up, RotatedLeftRight(Grow(c, t), c.color, c.sib.color, Black))
  {
    var top := Grow(c, t);
    var done := RotatedLeftRight(top, c.color, c.sib.color, Black);
    DoubleRotationsKeepKeys(top, c.color, c.sib.color, Black);
    DoubleRotationsKeepPlaceholders(top, c.color, c.sib.color, Black);
    PlugSameKeys(c.up, top, done);
    PlugSamePlaceholders(c.up, top, done);
    assert RB(c.sib.right) && c.sib.color.Black?;
    assert RB(done.right) && BlackHeight(done.right) == BlackHeight(t) + 1;
    assert RB(done.left) && BlackHeight(done.left) == BlackHeight(t) + 1;
  }

  lemma SingleFixRight(c: Ctx, t: Tree)
    requires Deficit(c, t) && !t.Empty? && !IsRed(t) && c.Under? && c.side.OnRight? && c.sib.Bin? && c.sib.color.Black? && !IsRed(c.sib.right)
    ensures c.color.Red? ==> FixStep(c, t, false, t.at, c.up, RotatedRight(Grow(c, t), Black, Red))
    ensures c.color.Black? && IsRed(c.sib.left) ==>
      var top := Grow(c.(sib := c.sib.(left := c.sib.left.(color := Black))), t);
      FixStep(c, t, false, t.at, c.up, RotatedRight(top, Black, Black))
  {
    var top := Grow(c, t);
    assert RB(c.sib.right) && BlackHeight(c.sib.right) == BlackHeight(t);
    if c.color.Red? {
      SameContentsRight(c.up, top, top, Black, Red);
      var done := RotatedRight(top, Black, Red);
      assert RB(done.right) && RB(done.left) && BlackHeight(done.right) == BlackHeight(done.left) == BlackHeight(t);
    } else if IsRed(c.sib.left) {
      var x := c.sib.left.(color := Black);
      assert Keys(x) == Keys(c.sib.left) && Placeholders(x) == Placeholders(c.sib.left);
      var top' := Grow(c.(sib := c.sib.(left := x)), t);
      assert Keys(top'.left) == Keys(c.sib) && Placeholders(top'.left) == Placeholders(c.sib);
      SameContentsRight(c.up, top, top', Black, Black);
      assert RB(c.sib.left) && BlackHeight(c.sib.left) == BlackHeight(t);
      assert RB(x) && BlackHeight(x) == BlackHeight(t) + 1;
      var done := RotatedRight(top', Black, Black);
      assert RB(done.right) && BlackHeight(done.right) == BlackHeight(t) + 1;
    }
  }

  lemma SameContentsRight(c: Ctx, t: Tree, t': Tree, a: Color, b: Color)
    requires t'.Bin? && t'.left.Bin? && Keys(t') == Keys(t) && Placeholders(t') == Placeholders(t)
    ensures Keys(Plug(c, RotatedRight(t', a, b))) == Keys(Plug(c, t))
    ensures Placeholders(Plug(c, RotatedRight(t', a, b))) == Placeholders(Plug(c, t))
  {
    SingleRotationsKeepKeys(t', a, b);
    SingleRotationsKeepPlaceholders(t', a, b);
    PlugSameKeys(c, t, RotatedRight(t', a, b));
    PlugSamePlaceholders(c, t, RotatedRight(t', a, b));
  }

  lemma RedSiblingRight(c: Ctx, t: Tree)
    requires Deficit(c, t) && !t.Empty? && !IsRed(t) && c.Under? && c.side.OnRight? && IsRed(c.sib)
    ensures var done := RotatedRight(Grow(c, t), Black, Red);
      FixStep(c, t, true, t.at, GoRight(GoRight(c.up, done), done.right), t)
  {
    var top := Grow(c, t);
    var done := RotatedRight(top, Black, Red);
    var outer := GoRight(c.up, done);
    SameContentsRight(c.up, top, top, Black, Red);
    assert Plug(GoRight(outer, done.right), t) == Plug(outer, done.right) == Plug(c.up, done);
    assert c.color.Black? && Accepts(c.up, BlackHeight(t) + 2);
    assert Accepts(outer, BlackHeight(t) + 1);
    assert CtxPlaceholders(outer) == {};
  }

  lemma BlackSiblingRight(c: Ctx, t: Tree)
    requires Deficit(c, t) && !t.Empty? && !IsRed(t) && c.Under? && c.side.OnRight? && c.color.Black?
    requires c.sib.Bin? && c.sib.color.Black? && !IsRed(c.sib.right) && !IsRed(c.sib.left)
    ensures FixStep(c, t, true, c.at, c.up, Grow(c.(sib := c.sib.(color := Red)), t))
  {
    var top, x := Grow(c, t), c.sib.(color := Red);
    assert Keys(x) == Keys(c.sib) && Placeholders(x) == Placeholders(c.sib);
    var top' := Grow(c.(sib := x), t);
    PlugSameKeys(c.up, top, top');
    PlugSamePlaceholders(c.up, top, top');
    assert RB(x) && BlackHeight(x) == BlackHeight(t);
    assert Rank(c.up) < Rank(c);
  }

  // ---------- deletion: the loop and the temporary node ----------

  // What the deletion loop reads at the node `t.at`.
  lemma Position(h: Store, c: Ctx, t: Tree, root: Node?)
    requires At(h, c, t, root) && !t.Empty? && Deficit(c, t)
    ensures t.at in h && h[t.at].pa == Parent(c) && h[t.at].color == (if t.Bin? then t.color else Black)
    ensures c.Top? <==> t.at == root
    ensures c.Top? ==> t.Bin?
    ensures c.Under? ==> c.at in h && (h[c.at].lc == t.at <==> c.side.OnLeft?)
  {
    Surroundings(h, c, t, root);
    if c.Under? { RootAbove(h, c, t.at, root); }
  }

  lemma {:induction false} RootAbove(h: Store, c: Ctx, hole: Node?, root: Node?)
    requires Around(h, c, hole, root) && c.Under?
    ensures root != null && root in CtxNodes(c)
    decreases c
  {
    if c.up.Under? { RootAbove(h, c.up, c.at, root); }
  }

  lemma Blacken(h: Store, g: Store, c: Ctx, t: Tree, root: Node?)
    requires At(h, c, t, root) && Deficit(c, t) && !t.Empty? && t.at in h
    requires c.Top? || IsRed(t)
    requires Kept(h, g, {t.at}) && g[t.at] == h[t.at].(color := Black)
    ensures t.Bin? && At(g, c, t.(color := Black), root) && Fits(c, t.(color := Black))
    ensures Keys(Plug(c, t.(color := Black))) == Keys(Plug(c, t))
    ensures Placeholders(Plug(c, t.(color := Black))) == Placeholders(Plug(c, t))
  {
    Position(h, c, t, root);
    PaintAt(h, g, c, t, root, Black);
    PlugSameKeys(c, t, t.(color := Black));
    PlugSamePlaceholders(c, t, t.(color := Black));
  }

  lemma EmptyPlace(h: Store, c: Ctx, root: Node?)
    requires At(h, c, Empty, root) && c.Under? && c.sib.Bin?
    ensures c.at in h && (if c.side.OnLeft? then h[c.at].lc == null && h[c.at].rc == c.sib.at else h[c.at].rc == null && h[c.at].lc == c.sib.at)
  {
  }

  lemma FillPlace(h: Store, g: Store, c: Ctx, root: Node?, n: Node)
    requires At(h, c, Empty, root) && c.Under? && c.at in h && n !in h
    requires g.Keys == h.Keys + {n} && g[n].lc == null && g[n].rc == null && g[n].color == Black && g[n].pa == c.at
    requires g[c.at] == WithHole(h[c.at], c.side, n)
    requires forall o :: o in h && o != c.at ==> g[o] == h[o]
    ensures At(g, c, Placeholder(n), root)
  {
    assert Nodes(Placeholder(n)) == {n} && Nodes(Empty) == {};
    Replace(h, g, c, Empty, Placeholder(n), root, root);
  }

  lemma {:induction false} Locate(h: Store, c: Ctx, t: Tree, root: Node?, n: Node) returns (d: Ctx)
    requires At(h, c, t, root) && n in Placeholders(t)
    ensures At(h, d, Placeholder(n), root) && Plug(d, Placeholder(n)) == Plug(c, t)
    decreases t
  {
    if t.Placeholder? {
      d := c;
    } else {
      Descend(h, c, t, root);
      if n in Placeholders(t.left) {
        d := Locate(h, GoLeft(c, t), t.left, root, n);
      } else {
        d := Locate(h, GoRight(c, t), t.right, root, n);
      }
    }
  }

  lemma NilAlone(n: Node, t: Tree)
    ensures Plug(Top, t) == t && (Placeholders(t) == {n} ==> n in Placeholders(t))
  {
  }

  lemma NilSpot(h: Store, c: Ctx, n: Node, root: Node?)
    requires At(h, c, Placeholder(n), root) && Keys(Plug(c, Placeholder(n))) != []
    ensures n !in CtxNodes(c)
    ensures c.Under? && n in h && h[n].pa == c.at && c.at in h && c.at != n && (h[c.at].lc == n <==> c.side.OnLeft?)
  {
    Surroundings(h, c, Placeholder(n), root);
  }

  lemma ClearPlace(h: Store, g: Store, c: Ctx, n: Node, root: Node?)
    requires At(h, c, Placeholder(n), root) && c.Under? && c.at in h && c.at != n
    requires g.Keys == h.Keys - {n} && g[c.at] == WithHole(h[c.at], c.side, null)
    requires forall o :: o in h && o != c.at && o != n ==> g[o] == h[o]
    ensures At(g, c, Empty, root)
  {
    assert Nodes(Placeholder(n)) == {n} && Nodes(Empty) == {};
    Replace(h, g, c, Placeholder(n), Empty, root, root);
  }

  lemma WithoutNil(c: Ctx, n: Node)
    requires Balanced(Plug(c, Placeholder(n))) && Placeholders(Plug(c, Placeholder(n))) == {n} && n !in CtxNodes(c)
    ensures Balanced(Plug(c, Empty)) && Placeholders(Plug(c, Empty)) == {}
    ensures Keys(Plug(c, Empty)) == Keys(Plug(c, Placeholder(n)))
  {
    PlugSameKeys(c, Empty, Placeholder(n));
    PlugPlaceholders(c, Empty);
    PlugPlaceholders(c, Placeholder(n));
    CtxPlaceholdersAreNodes(c);
    EmptyForNil(c, Placeholder(n), Empty);
  }

  lemma {:induction false} EmptyForNil(c: Ctx, t: Tree, t': Tree)
    requires Balanced(Plug(c, t)) && BlackHeight(t') == BlackHeight(t)
    requires (RB(t) ==> RB(t')) && (IsRed(t') <==> IsRed(t))
    ensures Balanced(Plug(c, t'))
    decreases c
  {
    if c.Under? {
      EmptyForNil(c.up, Grow(c, t), Grow(c, t'));
    }
  }

  lemma EmptyTree(h: Store, c: Ctx, t: Tree, root: Node?)
    requires At(h, c, t, root) && t.Empty? && c.Top?
    ensures At(h, Top, Empty, root) && Balanced(Empty) && Placeholders(Empty) == {} && Plug(c, t) == Empty
  {
  }

  // The place of a removed black leaf has a sibling.
  lemma MissingSibling(h: Store, c: Ctx, root: Node?)
    requires At(h, c, Empty, root) && Deficit(c, Empty) && c.Under?
    ensures c.sib.Bin? && c.at in h && (h[c.at].lc != null || h[c.at].rc != null)
  {
  }

  lemma NilKeys(c: Ctx, n: Node)
    requires Deficit(c, Empty) && c.Under?
    ensures Deficit(c, Placeholder(n)) && Keys(Plug(c, Placeholder(n))) == Keys(Plug(c, Empty)) != []
    ensures Placeholders(Plug(c, Placeholder(n))) == {n}
  {
    PlugSameKeys(c, Empty, Placeholder(n));
    PlugKeys(c, Empty);
    PlugPlaceholders(c, Placeholder(n));
    ContextKey(c);
  }

  lemma ContextKey(c: Ctx)
    requires c.Under?
    ensures Before(c) + After(c) != []
  {
  }

  lemma RootRepaired(h: Store, c: Ctx, t: Tree, root: Node?)
    requires c.Top? && t.Bin? && At(h, c, t.(color := Black), root) && Fits(c, t.(color := Black))
    ensures At(h, Top, t.(color := Black), root) && Balanced(t.(color := Black)) && Plug(c, t.(color := Black)) == t.(color := Black)
  {
  }

  // ---------- removal ----------

  ghost predicate OnSpine(c: Ctx, n: Node) {
    c.Under? && (if c.at == n then c.side.OnRight? else c.side.OnLeft? && OnSpine(c.up, n))
  }

  lemma ChildrenFit(c: Ctx, t: Tree)
    requires Fits(c, t) && t.Bin?
    ensures Fits(GoLeft(c, t), t.left) && Fits(GoRight(c, t), t.right)
    ensures Plug(GoLeft(c, t), t.left) == Plug(c, t) && Plug(GoRight(c, t), t.right) == Plug(c, t)
  {
  }

  lemma UnlinkSpot(h: Store, c: Ctx, t: Tree, root: Node?)
    requires At(h, c, t, root) && t.Bin?
    ensures t.at in h && h[t.at] == Cell(t.val, t.color, Link(t.left), Link(t.right), Parent(c))
    ensures !t.left.Empty? ==> t.left.at in h && t.left.at != t.at && t.left.at != Parent(c)
    ensures !t.right.Empty? ==> t.right.at in h && t.right.at != t.at && t.right.at != Parent(c)
    ensures c.Under? ==> c.at in h && c.at != t.at && (h[c.at].lc == t.at <==> c.side.OnLeft?) && (c.side.OnRight? ==> h[c.at].rc == t.at)
  {
    Surroundings(h, c, t, root);
    Split(h, t, Parent(c));
    InStore(h, t.left, t.at);
    InStore(h, t.right, t.at);
  }

  lemma UnlinkAt(h: Store, g: Store, c: Ctx, t: Tree, t': Tree, root: Node?, root': Node?)
    requires At(h, c, t, root) && t.Bin? && (t.left.Empty? || t.right.Empty?)
    requires t' == (if t.right.Empty? then t.left else t.right)
    requires g.Keys == h.Keys - {t.at}
    requires !t'.Empty? && t'.at in h ==> t'.at in g && g[t'.at] == h[t'.at].(pa := Parent(c))
    requires c.Under? && c.at in h ==> c.at in g && g[c.at] == WithHole(h[c.at], c.side, Link(t'))
    requires root' == if c.Top? then Link(t') else root
    requires forall o :: o in h && o != t.at && o != Parent(c) && o != Link(t') ==> g[o] == h[o]
    ensures At(g, c, t', root')
  {
    Surroundings(h, c, t, root);
    Split(h, t, Parent(c));
    assert Nodes(Empty) == {};
    assert Nodes(t) == {t.at} + Nodes(t');
    Reparent(h, g, t', t.at, Parent(c));
    Replace(h, g, c, t, t', root, root');
  }

  ghost function SpineKey(c: Ctx, n: Node): uint32
    requires OnSpine(c, n)
  {
    if c.at == n then c.val else SpineKey(c.up, n)
  }

  // The context with another key at the node `n` of its spine.
  ghost function Renamed(c: Ctx, n: Node, v: uint32): (r: Ctx)
    requires OnSpine(c, n)
    ensures r.Under? && r.at == c.at && r.color == c.color && r.side == c.side && r.sib == c.sib
  {
    if c.at == n then c.(val := v) else c.(up := Renamed(c.up, n, v))
  }

  lemma {:induction false} SpineNode(h: Store, c: Ctx, t: Tree, root: Node?, n: Node)
    requires At(h, c, t, root) && OnSpine(c, n)
    ensures n in h
  {
    SpineInContext(c, n);
  }

  lemma {:induction false} SpineInContext(c: Ctx, n: Node)
    requires OnSpine(c, n)
    ensures n in CtxNodes(c)
  {
    if c.at != n { SpineInContext(c.up, n); }
  }

  lemma {:induction false} RenamedNodes(c: Ctx, n: Node, v: uint32)
    requires OnSpine(c, n)
    ensures CtxNodes(Renamed(c, n, v)) == CtxNodes(c) && CtxPlaceholders(Renamed(c, n, v)) == CtxPlaceholders(c)
    ensures Parent(Renamed(c, n, v)) == Parent(c)
    ensures After(Renamed(c, n, v)) == After(c)
    ensures Before(c) != [] && Before(c)[|Before(c)| - 1] == SpineKey(c, n)
    ensures Before(Renamed(c, n, v)) == Before(c)[..|Before(c)| - 1] + [v]
  {
    if c.at != n { RenamedNodes(c.up, n, v); }
  }

  lemma {:induction false} RenamedAccepts(c: Ctx, n: Node, v: uint32, b: int)
    requires OnSpine(c, n) && Accepts(c, b)
    ensures Accepts(Renamed(c, n, v), b)
    decreases c
  {
    if c.at != n { RenamedAccepts(c.up, n, v, b + (if c.color.Black? then 1 else 0)); }
  }

  lemma {:induction false} RenameAround(h: Store, g: Store, c: Ctx, hole: Node?, root: Node?, n: Node, v: uint32)
    requires Around(h, c, hole, root) && OnSpine(c, n)
    requires forall o :: o in CtxNodes(c) && o in h && o != n ==> o in g && g[o] == h[o]
    requires n in h ==> n in g && g[n] == h[n].(val := v)
    ensures Around(g, Renamed(c, n, v), hole, root)
    decreases c
  {
    SpineInContext(c, n);
    assert forall o :: o in Nodes(c.sib) && o != n ==> Same(h, g, o);
    assert n !in Nodes(c.sib) by {
      if c.at != n { SpineInContext(c.up, n); }
    }
    Reparent(h, g, c.sib, c.at, c.at);
    if c.at == n {
      Refill(h, g, c.up, c.at, c.at, root, root);
    } else {
      RenamedNodes(c.up, n, v);
      RenameAround(h, g, c.up, c.at, root, n, v);
    }
  }

  lemma RenameAt(h: Store, g: Store, c: Ctx, t: Tree, root: Node?, n: Node, v: uint32)
    requires At(h, c, t, root) && OnSpine(c, n) && n in h
    requires Kept(h, g, {n}) && g[n] == h[n].(val := v)
    ensures At(g, Renamed(c, n, v), t, root)
  {
    SpineInContext(c, n);
    RenamedNodes(c, n, v);
    InStore(h, t, Parent(c));
    RenameAround(h, g, c, Link(t), root, n, v);
    Reparent(h, g, t, Parent(c), Parent(c));
  }

  lemma Closed(h: Store, c: Ctx, t: Tree, root: Node?)
    requires At(h, c, t, root) && Fits(c, t)
    ensures At(h, Top, Plug(c, t), root) && Balanced(Plug(c, t))
  {
    PlugShape(h, c, t, root);
    PlugBalanced(c, t);
  }

  ghost predicate Removal(c: Ctx, t: Tree, c': Ctx, t': Tree, px: Node, x: uint32) {
    && t.Bin? && t' == (if t.right.Empty? then t.left else t.right)
    && (if px == t.at then t.val == x && (t.left.Empty? || t.right.Empty?) && c' == c
        else t.left.Empty? && OnSpine(c, px) && SpineKey(c, px) == x && c' == Renamed(c, px, t.val))
  }

  /** The effect of a removal on keys and balance. */
  lemma Removed(c: Ctx, t: Tree, c': Ctx, t': Tree, px: Node, x: uint32)
    requires Removal(c, t, c', t', px, x) && Fits(c, t) && Sorted(Keys(Plug(c, t))) && Placeholders(Plug(c, t)) == {}
    ensures Sorted(Keys(Plug(c', t'))) && Elements(Keys(Plug(c', t'))) == Elements(Keys(Plug(c, t))) - {x}
    ensures Placeholders(Plug(c', t')) == {} && Parent(c') == Parent(c)
    ensures if t.color.Black? then Deficit(c', t') else Fits(c', t')
  {
    hide *;
    PlugKeys(c, t);
    PlugKeys(c', t');
    RemovedKeys(c, t, c', t', px, x);
    PlugPlaceholders(c, t);
    PlugPlaceholders(c', t');
    RemovedRest(c, t, c', t', px, x);
  }

  lemma RemovedRest(c: Ctx, t: Tree, c': Ctx, t': Tree, px: Node, x: uint32)
    requires Removal(c, t, c', t', px, x) && Fits(c, t) && CtxPlaceholders(c) + Placeholders(t) == {}
    ensures CtxPlaceholders(c') == {} && Placeholders(t') == {} && Parent(c') == Parent(c)
    ensures if t.color.Black? then Deficit(c', t') else Fits(c', t')
  {
    if px != t.at {
      RenamedNodes(c, px, t.val);
      RenamedAccepts(c, px, t.val, if t.color.Black? then BlackHeight(t') + 1 else BlackHeight(t'));
    }
  }

  lemma RemovedKeys(c: Ctx, t: Tree, c': Ctx, t': Tree, px: Node, x: uint32)
    requires Removal(c, t, c', t', px, x) && Sorted(Before(c) + Keys(t) + After(c))
    ensures var was, now := Before(c) + Keys(t) + After(c), Before(c') + Keys(t') + After(c');
      Sorted(now) && Elements(now) == Elements(was) - {x}
  {
    hide *;
    RemovalKeys(c, t, c', t', px, x);
    var a, l, r, z := Before(c), Keys(t.left), Keys(t.right), After(c);
    if px == t.at {
      RemoveHere(a, l, x, r, z);
    } else {
      RemoveBefore(a[..|a| - 1], x, t.val, r, z);
    }
  }

  lemma RemovalKeys(c: Ctx, t: Tree, c': Ctx, t': Tree, px: Node, x: uint32)
    requires Removal(c, t, c', t', px, x)
    ensures t.Bin?
    ensures px == t.at ==> c' == c && Keys(t) == Keys(t.left) + [x] + Keys(t.right) && Keys(t') == Keys(t.left) + Keys(t.right)
    ensures px != t.at ==> Before(c) != [] && var a := Before(c);
      && a == a[..|a| - 1] + [x] && Before(c') == a[..|a| - 1] + [t.val] && After(c') == After(c)
      && Keys(t) == [t.val] + Keys(t.right) && Keys(t') == Keys(t.right)
  {
    if px != t.at { RenamedNodes(c, px, t.val); }
  }

  lemma RemoveHere(a: seq<uint32>, l: seq<uint32>, x: uint32, r: seq<uint32>, z: seq<uint32>)
    requires Sorted(a + (l + [x] + r) + z)
    ensures Sorted(a + (l + r) + z) && Elements(a + (l + r) + z) == Elements(a + (l + [x] + r) + z) - {x}
  {
    assert a + (l + [x] + r) + z == (a + l) + [x] + (r + z);
    assert a + (l + r) + z == (a + l) + (r + z);
    RemoveInOrder(a + l, r + z, x);
  }

  lemma RemoveBefore(a: seq<uint32>, x: uint32, v: uint32, r: seq<uint32>, z: seq<uint32>)
    requires Sorted((a + [x]) + ([v] + r) + z)
    ensures Sorted((a + [v]) + r + z) && Elements((a + [v]) + r + z) == Elements((a + [x]) + ([v] + r) + z) - {x}
  {
    assert (a + [x]) + ([v] + r) + z == a + [x] + ([v] + r + z);
    assert (a + [v]) + r + z == a + ([v] + r + z);
    RemoveInOrder(a, [v] + r + z, x);
  }

  lemma RemoveInOrder(a: seq<uint32>, b: seq<uint32>, x: uint32)
    requires Sorted(a + [x] + b)
    ensures Sorted(a + b) && Elements(a + b) == Elements(a + [x] + b) - {x}
  {
    var s, r := a + [x] + b, a + b;
    assert forall i :: 0 <= i < |r| ==> r[i] == s[if i < |a| then i else i + 1];
    assert s[|a|] == x;
    forall k ensures k in r <==> k in s && k != x {
      if k in r {
        var i :| 0 <= i < |r| && r[i] == k;
        assert s[if i < |a| then i else i + 1] == k;
      }
      if k in s && k != x {
        var i :| 0 <= i < |s| && s[i] == k;
        assert r[if i < |a| then i else i - 1] == k;
      }
    }
  }

  lemma KeyElements(s: seq<uint32>, x: uint32)
    ensures x in s <==> x in Elements(s)
  {
  }
}
