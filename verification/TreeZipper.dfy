/** Trees with parent links, seen from one position.

    A `Tree` is the shape of a linked tree: it names the node at every position and records the
    key and colour stored there. A `Ctx` is everything outside one subtree, read from that subtree
    upwards. `Shape` and `Around` say that the heap agrees with such a description. */
module TreeZipper {

  type uint32 = x: int | 0 <= x < 0x1_0000_0000

  datatype Color = Red | Black

  datatype Side = OnLeft | OnRight

  class Node {
    var val: uint32
    var lc: Node?
    var rc: Node?
    var pa: Node?
    var color: Color

    constructor (x: uint32)
      ensures val == x && color == Red && lc == null && rc == null && pa == null
    {
      val, color, lc, rc, pa := x, Red, null, null, null;
    }
  }

  // `Placeholder` is the black node that deletion hangs in an empty place for a while.
  datatype Tree =
    | Empty
    | Placeholder(at: Node)
    | Bin(at: Node, val: uint32, color: Color, left: Tree, right: Tree)

  datatype Ctx =
    | Top
    | Under(at: Node, val: uint32, color: Color, side: Side, sib: Tree, up: Ctx)

  // ---------- heap shape ----------

  /** What one node holds, and what a set of nodes holds. */
  datatype Cell = Cell(val: uint32, color: Color, lc: Node?, rc: Node?, pa: Node?)

  type Store = map<Node, Cell>

  ghost function CellOf(n: Node): Cell
    reads n
  {
    Cell(n.val, n.color, n.lc, n.rc, n.pa)
  }

  ghost function View(s: set<Node>): Store
    reads s
  {
    map n | n in s :: CellOf(n)
  }

  ghost function Link(t: Tree): Node? {
    if t.Empty? then null else t.at
  }

  ghost function Parent(c: Ctx): Node? {
    if c.Top? then null else c.at
  }

  ghost function Nodes(t: Tree): set<Node> {
    match t
    case Empty => {}
    case Placeholder(n) => {n}
    case Bin(n, _, _, l, r) => {n} + Nodes(l) + Nodes(r)
  }

  ghost function CtxNodes(c: Ctx): set<Node> {
    match c
    case Top => {}
    case Under(n, _, _, _, sib, up) => {n} + Nodes(sib) + CtxNodes(up)
  }

  ghost predicate Shape(h: Store, t: Tree, parent: Node?) {
    match t
    case Empty => true
    case Placeholder(n) => n in h && h[n].lc == null && h[n].rc == null && h[n].pa == parent && h[n].color == Black
    case Bin(n, v, k, l, r) =>
      && n in h && h[n] == Cell(v, k, Link(l), Link(r), parent)
      && n !in Nodes(l) && n !in Nodes(r) && Nodes(l) !! Nodes(r)
      && Shape(h, l, n) && Shape(h, r, n)
  }

  ghost predicate Around(h: Store, c: Ctx, hole: Node?, root: Node?) {
    match c
    case Top => root == hole
    case Under(n, v, k, side, sib, up) =>
      && n in h
      && h[n] == (if side.OnLeft? then Cell(v, k, hole, Link(sib), Parent(up)) else Cell(v, k, Link(sib), hole, Parent(up)))
      && n !in Nodes(sib) && n !in CtxNodes(up) && Nodes(sib) !! CtxNodes(up)
      && Shape(h, sib, n) && Around(h, up, n, root)
  }

  /** Subtree `t` at the position `c`, in a tree entered at `root`. */
  ghost predicate At(h: Store, c: Ctx, t: Tree, root: Node?) {
    && Shape(h, t, Parent(c)) && Around(h, c, Link(t), root)
    && CtxNodes(c) !! Nodes(t) && h.Keys == CtxNodes(c) + Nodes(t)
  }

  ghost predicate Same(h: Store, g: Store, n: Node) {
    n in h ==> n in g && g[n] == h[n]
  }

  /** A subtree survives any change outside it, and hanging it under another parent. */
  lemma {:induction false} Reparent(h: Store, g: Store, t: Tree, p: Node?, q: Node?)
    requires Shape(h, t, p)
    requires forall n :: n in Nodes(t) && n != Link(t) ==> Same(h, g, n)
    requires !t.Empty? && t.at in h ==> t.at in g && g[t.at] == h[t.at].(pa := q)
    ensures Shape(g, t, q)
  {
    if t.Bin? {
      assert forall n :: n in Nodes(t.left) || n in Nodes(t.right) ==> Same(h, g, n);
      Reparent(h, g, t.left, t.at, t.at);
      Reparent(h, g, t.right, t.at, t.at);
    }
  }

  ghost function WithHole(k: Cell, side: Side, hole: Node?): Cell {
    if side.OnLeft? then k.(lc := hole) else k.(rc := hole)
  }

  /** A context survives any change outside it, and a new link at its position. */
  lemma {:induction false} Refill(h: Store, g: Store, c: Ctx, hole: Node?, hole': Node?, root: Node?, root': Node?)
    requires Around(h, c, hole, root)
    requires forall n :: n in CtxNodes(c) && n != Parent(c) ==> Same(h, g, n)
    requires c.Under? && c.at in h ==> c.at in g && g[c.at] == WithHole(h[c.at], c.side, hole')
    requires root' == if c.Top? then hole' else root
    ensures Around(g, c, hole', root')
    decreases c
  {
    if c.Under? {
      assert forall n :: n in Nodes(c.sib) || n in CtxNodes(c.up) ==> Same(h, g, n);
      Reparent(h, g, c.sib, c.at, c.at);
      Refill(h, g, c.up, c.at, c.at, root, root);
    }
  }

  ghost function Grow(c: Ctx, t: Tree): (r: Tree)
    requires c.Under?
    ensures r.Bin?
  {
    if c.side.OnLeft? then Bin(c.at, c.val, c.color, t, c.sib) else Bin(c.at, c.val, c.color, c.sib, t)
  }

  ghost function Plug(c: Ctx, t: Tree): Tree
    decreases c
  {
    if c.Top? then t else Plug(c.up, Grow(c, t))
  }

  /** Closing the position gives the heap shape of the whole tree. */
  lemma {:induction false} PlugShape(h: Store, c: Ctx, t: Tree, root: Node?)
    requires At(h, c, t, root)
    ensures At(h, Top, Plug(c, t), root)
    decreases c
  {
    if c.Under? {
      PlugShape(h, c.up, Grow(c, t), root);
    }
  }

  ghost function GoLeft(c: Ctx, t: Tree): Ctx
    requires t.Bin?
  {
    Under(t.at, t.val, t.color, OnLeft, t.right, c)
  }

  ghost function GoRight(c: Ctx, t: Tree): Ctx
    requires t.Bin?
  {
    Under(t.at, t.val, t.color, OnRight, t.left, c)
  }

  lemma Descend(h: Store, c: Ctx, t: Tree, root: Node?)
    requires At(h, c, t, root) && t.Bin?
    ensures At(h, GoLeft(c, t), t.left, root) && At(h, GoRight(c, t), t.right, root)
  {
    assert Shape(h, t.left, t.at) && Shape(h, t.right, t.at);
  }

  lemma Ascend(h: Store, c: Ctx, t: Tree, root: Node?)
    requires At(h, c, t, root) && c.Under?
    ensures At(h, c.up, Grow(c, t), root) && Plug(c.up, Grow(c, t)) == Plug(c, t)
  {
  }

  // ---------- taking positions apart and putting them together ----------

  lemma Split(h: Store, t: Tree, p: Node?)
    requires Shape(h, t, p) && t.Bin?
    ensures t.at in h && h[t.at] == Cell(t.val, t.color, Link(t.left), Link(t.right), p)
    ensures Shape(h, t.left, t.at) && Shape(h, t.right, t.at)
    ensures t.at !in Nodes(t.left) && t.at !in Nodes(t.right) && Nodes(t.left) !! Nodes(t.right)
    ensures Nodes(t) == {t.at} + Nodes(t.left) + Nodes(t.right)
    ensures (!t.left.Empty? ==> t.left.at in Nodes(t.left)) && (!t.right.Empty? ==> t.right.at in Nodes(t.right))
  {
  }

  lemma SplitCtx(h: Store, c: Ctx, hole: Node?, root: Node?)
    requires Around(h, c, hole, root) && c.Under?
    ensures c.at in h && c.at in CtxNodes(c)
    ensures h[c.at] == (if c.side.OnLeft? then Cell(c.val, c.color, hole, Link(c.sib), Parent(c.up))
                        else Cell(c.val, c.color, Link(c.sib), hole, Parent(c.up)))
    ensures hole != null && hole !in CtxNodes(c) ==> (h[c.at].lc == hole <==> c.side.OnLeft?)
  {
  }

  lemma Join(h: Store, n: Node, v: uint32, k: Color, l: Tree, r: Tree, p: Node?)
    requires n in h && h[n] == Cell(v, k, Link(l), Link(r), p)
    requires Shape(h, l, n) && Shape(h, r, n)
    requires n !in Nodes(l) && n !in Nodes(r) && Nodes(l) !! Nodes(r)
    ensures Shape(h, Bin(n, v, k, l, r), p)
    ensures Nodes(Bin(n, v, k, l, r)) == {n} + Nodes(l) + Nodes(r)
  {
  }

  lemma {:induction false} InStore(h: Store, t: Tree, p: Node?)
    requires Shape(h, t, p)
    ensures Nodes(t) <= h.Keys && (!t.Empty? ==> t.at in Nodes(t) && h[t.at].pa == p)
  {
    if t.Bin? {
      InStore(h, t.left, t.at);
      InStore(h, t.right, t.at);
    }
  }

  /** Exchanging the subtree at a position. */
  lemma Replace(h: Store, g: Store, c: Ctx, t: Tree, t': Tree, root: Node?, root': Node?)
    requires At(h, c, t, root) && Shape(g, t', Parent(c))
    requires g.Keys == CtxNodes(c) + Nodes(t') && CtxNodes(c) !! Nodes(t')
    requires forall o :: o in CtxNodes(c) && o != Parent(c) ==> Same(h, g, o)
    requires c.Under? && c.at in h ==> c.at in g && g[c.at] == WithHole(h[c.at], c.side, Link(t'))
    requires root' == if c.Top? then Link(t') else root
    ensures At(g, c, t', root')
  {
    Refill(h, g, c, Link(t), Link(t'), root, root');
  }

  // ---------- keys ----------

  ghost function Keys(t: Tree): seq<uint32> {
    match t
    case Empty => []
    case Placeholder(_) => []
    case Bin(_, v, _, l, r) => Keys(l) + [v] + Keys(r)
  }

  // Keys that precede and follow the position, in order.
  ghost function Before(c: Ctx): seq<uint32> {
    match c
    case Top => []
    case Under(_, v, _, side, sib, up) =>
      if side.OnLeft? then Before(up) else Before(up) + Keys(sib) + [v]
  }

  ghost function After(c: Ctx): seq<uint32> {
    match c
    case Top => []
    case Under(_, v, _, side, sib, up) =>
      if side.OnLeft? then [v] + Keys(sib) + After(up) else After(up)
  }

  lemma {:induction false} PlugKeys(c: Ctx, t: Tree)
    ensures Keys(Plug(c, t)) == Before(c) + Keys(t) + After(c)
    decreases c
  {
    if c.Under? {
      PlugKeys(c.up, Grow(c, t));
    }
  }

  lemma PlugSameKeys(c: Ctx, t: Tree, t': Tree)
    requires Keys(t) == Keys(t')
    ensures Keys(Plug(c, t)) == Keys(Plug(c, t'))
  {
    PlugKeys(c, t);
    PlugKeys(c, t');
  }

  ghost predicate Sorted(s: seq<uint32>) {
    forall i, j :: 0 <= i < j < |s| ==> s[i] < s[j]
  }

  ghost function Elements(s: seq<uint32>): set<uint32> {
    set k | k in s
  }

  // ---------- balance ----------

  ghost function BlackHeight(t: Tree): nat {
    if t.Bin? then BlackHeight(t.left) + (if t.color.Black? then 1 else 0) else 0
  }

  ghost predicate IsRed(t: Tree) {
    t.Bin? && t.color.Red?
  }

  /** No red node has a red child, and both sides of every node have equal black heights. */
  ghost predicate RB(t: Tree) {
    t.Bin? ==>
      && BlackHeight(t.left) == BlackHeight(t.right) && RB(t.left) && RB(t.right)
      && (t.color.Red? ==> !IsRed(t.left) && !IsRed(t.right))
  }

  ghost predicate Balanced(t: Tree) {
    RB(t) && !IsRed(t)
  }

  ghost predicate RedAbove(c: Ctx) {
    c.Under? && c.color.Red?
  }

  /** The context accepts any subtree of black height `h` (with a black root under a red node). */
  ghost predicate Accepts(c: Ctx, h: int) {
    c.Under? ==>
      && RB(c.sib) && BlackHeight(c.sib) == h
      && (c.color.Red? ==> !IsRed(c.sib) && c.up.Under? && c.up.color.Black?)
      && Accepts(c.up, h + (if c.color.Black? then 1 else 0))
  }

  ghost predicate Fits(c: Ctx, t: Tree) {
    && Accepts(c, BlackHeight(t)) && RB(t)
    && (c.Top? || RedAbove(c) ==> !IsRed(t))
  }

  lemma {:induction false} PlugBalanced(c: Ctx, t: Tree)
    requires Fits(c, t)
    ensures Balanced(Plug(c, t))
    decreases c
  {
    if c.Under? {
      PlugBalanced(c.up, Grow(c, t));
    }
  }

  lemma {:induction false} RootIsBlack(h: Store, c: Ctx, hole: Node?, root: Node?, b: int)
    requires c.Under? && Around(h, c, hole, root) && Accepts(c, b)
    ensures root != null && root in h && h[root].color == Black
    decreases c
  {
    if c.up.Under? {
      RootIsBlack(h, c.up, c.at, root, b + (if c.color.Black? then 1 else 0));
    }
  }

  // ---------- the placeholder ----------

  ghost function Placeholders(t: Tree): set<Node> {
    match t
    case Empty => {}
    case Placeholder(n) => {n}
    case Bin(_, _, _, l, r) => Placeholders(l) + Placeholders(r)
  }

  ghost function CtxPlaceholders(c: Ctx): set<Node> {
    if c.Top? then {} else Placeholders(c.sib) + CtxPlaceholders(c.up)
  }

  lemma {:induction false} PlugPlaceholders(c: Ctx, t: Tree)
    ensures Placeholders(Plug(c, t)) == CtxPlaceholders(c) + Placeholders(t)
    decreases c
  {
    if c.Under? {
      PlugPlaceholders(c.up, Grow(c, t));
    }
  }

  lemma {:induction false} PlaceholdersAreNodes(t: Tree)
    ensures Placeholders(t) <= Nodes(t)
  {
    if t.Bin? {
      PlaceholdersAreNodes(t.left);
      PlaceholdersAreNodes(t.right);
    }
  }

  lemma {:induction false} CtxPlaceholdersAreNodes(c: Ctx)
    ensures CtxPlaceholders(c) <= CtxNodes(c)
  {
    if c.Under? {
      PlaceholdersAreNodes(c.sib);
      CtxPlaceholdersAreNodes(c.up);
    }
  }

  // ---------- height ----------

  ghost function Height(t: Tree): nat {
    if t.Bin? then 1 + (if Height(t.left) < Height(t.right) then Height(t.right) else Height(t.left)) else 0
  }

  ghost function Pow2(n: nat): nat {
    if n == 0 then 1 else 2 * Pow2(n - 1)
  }

  lemma {:induction false} Pow2Monotone(m: nat, n: nat)
    requires m <= n
    ensures 0 < Pow2(m) <= Pow2(n)
    decreases n
  {
    if m < n {
      Pow2Monotone(m, n - 1);
    } else if m > 0 {
      Pow2Monotone(m - 1, n - 1);
    }
  }

  lemma {:induction false} Pow2Double(n: nat)
    ensures Pow2(2 * n) == Pow2(n) * Pow2(n)
  {
    if n > 0 {
      Pow2Double(n - 1);
      assert Pow2(2 * n) == 4 * Pow2(2 * (n - 1));
    }
  }

  lemma {:induction false} SizeFromBlackHeight(t: Tree)
    requires RB(t)
    ensures Pow2(BlackHeight(t)) <= |Keys(t)| + 1
  {
    if t.Bin? {
      SizeFromBlackHeight(t.left);
      SizeFromBlackHeight(t.right);
    }
  }

  lemma {:induction false} HeightFromBlackHeight(t: Tree)
    requires RB(t)
    ensures Height(t) <= 2 * BlackHeight(t) + (if IsRed(t) then 1 else 0)
  {
    if t.Bin? {
      HeightFromBlackHeight(t.left);
      HeightFromBlackHeight(t.right);
    }
  }

  lemma SquareMonotone(b: nat, n: nat)
    requires b <= n
    ensures b * b <= n * n
  {
    assert n * n - b * b == (n - b) * (n + b);
  }

  /** height <= 2 * log2(n + 1), written without the logarithm. */
  lemma HeightBound(t: Tree)
    requires Balanced(t)
    ensures Pow2(Height(t)) <= (|Keys(t)| + 1) * (|Keys(t)| + 1)
  {
    var b, n := Pow2(BlackHeight(t)), |Keys(t)| + 1;
    SizeFromBlackHeight(t);
    HeightFromBlackHeight(t);
    Pow2Monotone(Height(t), 2 * BlackHeight(t));
    Pow2Double(BlackHeight(t));
    SquareMonotone(b, n);
  }
}
