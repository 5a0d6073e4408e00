// Shape of a red-black tree as a value, with a zipper for the node in focus.
module RbShape {
  import opened Powers

  datatype Color = Black | Red

  // An rbtree_node together with the vm_area it is embedded in; key is the area's start.
  class Node {
    const key: int
    const end: int
    const prot: int
    const flags: int
    var left: Node?
    var right: Node?
    var parent: Node?
    var color: Color

    constructor (key: int, end: int, prot: int, flags: int)
      ensures this.key == key && this.end == end && this.prot == prot && this.flags == flags
    {
      this.key, this.end, this.prot, this.flags := key, end, prot, flags;
      left, right, parent, color := null, null, null, Black;
    }
  }

  datatype Tree = Leaf | Bin(l: Tree, n: Node, c: Color, r: Tree)

  // The path from a subtree up to the root: the subtree is the left or right child of n.
  datatype Ctx = Top | InLeft(up: Ctx, n: Node, c: Color, r: Tree) | InRight(l: Tree, n: Node, c: Color, up: Ctx)

  ghost function Plug(ctx: Ctx, t: Tree): Tree {
    match ctx
    case Top => t
    case InLeft(up, n, c, r) => Plug(up, Bin(t, n, c, r))
    case InRight(l, n, c, up) => Plug(up, Bin(l, n, c, t))
  }

  ghost function Nodes(t: Tree): set<Node> {
    match t
    case Leaf => {}
    case Bin(l, n, _, r) => Nodes(l) + {n} + Nodes(r)
  }

  ghost function CtxNodes(ctx: Ctx): set<Node> {
    match ctx
    case Top => {}
    case InLeft(up, n, _, r) => CtxNodes(up) + {n} + Nodes(r)
    case InRight(l, n, _, up) => CtxNodes(up) + {n} + Nodes(l)
  }

  // In-order sequence of nodes.
  ghost function Order(t: Tree): seq<Node> {
    match t
    case Leaf => []
    case Bin(l, n, _, r) => Order(l) + [n] + Order(r)
  }

  // The nodes before and after the hole of a context.
  ghost function Before(ctx: Ctx): seq<Node> {
    match ctx
    case Top => []
    case InLeft(up, _, _, _) => Before(up)
    case InRight(l, n, _, up) => Before(up) + Order(l) + [n]
  }

  ghost function After(ctx: Ctx): seq<Node> {
    match ctx
    case Top => []
    case InLeft(up, n, _, r) => [n] + Order(r) + After(up)
    case InRight(_, _, _, up) => After(up)
  }

  // No node occurs twice.
  ghost predicate Distinct(t: Tree) {
    match t
    case Leaf => true
    case Bin(l, n, _, r) => Distinct(l) && Distinct(r) && n !in Nodes(l) && n !in Nodes(r) && Nodes(l) !! Nodes(r)
  }

  ghost predicate CtxDistinct(ctx: Ctx) {
    match ctx
    case Top => true
    case InLeft(up, n, _, r) =>
      CtxDistinct(up) && Distinct(r) && n !in CtxNodes(up) && n !in Nodes(r) && CtxNodes(up) !! Nodes(r)
    case InRight(l, n, _, up) =>
      CtxDistinct(up) && Distinct(l) && n !in CtxNodes(up) && n !in Nodes(l) && CtxNodes(up) !! Nodes(l)
  }

  ghost predicate ZipDistinct(ctx: Ctx, t: Tree) {
    CtxDistinct(ctx) && Distinct(t) && CtxNodes(ctx) !! Nodes(t)
  }

  lemma {:induction false} PlugDistinct(ctx: Ctx, t: Tree)
    ensures Distinct(Plug(ctx, t)) <==> ZipDistinct(ctx, t)
    ensures Nodes(Plug(ctx, t)) == CtxNodes(ctx) + Nodes(t)
    decreases ctx
  {
    match ctx
    case Top =>
    case InLeft(up, n, c, r) => PlugDistinct(up, Bin(t, n, c, r));
    case InRight(l, n, c, up) => PlugDistinct(up, Bin(l, n, c, t));
  }

  lemma {:induction false} PlugOrder(ctx: Ctx, t: Tree)
    ensures Order(Plug(ctx, t)) == Before(ctx) + Order(t) + After(ctx)
    decreases ctx
  {
    match ctx
    case Top =>
    case InLeft(up, n, c, r) => PlugOrder(up, Bin(t, n, c, r));
    case InRight(l, n, c, up) => PlugOrder(up, Bin(l, n, c, t));
  }

  // ---- red-black balance ----

  ghost predicate IsBlack(t: Tree) {
    t.Leaf? || t.c.Black?
  }

  // Black height along the left spine.
  ghost function BlackHeight(t: Tree): nat {
    match t
    case Leaf => 0
    case Bin(l, _, c, _) => BlackHeight(l) + if c.Black? then 1 else 0
  }

  // No red node has a red child and all paths hold equally many black nodes.
  ghost predicate Balanced(t: Tree) {
    match t
    case Leaf => true
    case Bin(l, _, c, r) =>
      && Balanced(l) && Balanced(r) && BlackHeight(l) == BlackHeight(r)
      && (c.Red? ==> IsBlack(l) && IsBlack(r))
  }

  ghost predicate RedParent(ctx: Ctx) {
    !ctx.Top? && ctx.c.Red?
  }

  // The context is balanced around a hole of black height h; its root is black.
  ghost predicate CtxBalanced(ctx: Ctx, h: int) {
    match ctx
    case Top => true
    case InLeft(up, _, c, r) =>
      && Balanced(r) && BlackHeight(r) == h
      && (c.Red? ==> IsBlack(r) && !RedParent(up) && !up.Top?)
      && CtxBalanced(up, h + if c.Black? then 1 else 0)
    case InRight(l, _, c, up) =>
      && Balanced(l) && BlackHeight(l) == h
      && (c.Red? ==> IsBlack(l) && !RedParent(up) && !up.Top?)
      && CtxBalanced(up, h + if c.Black? then 1 else 0)
  }

  // The colours of a subtree's root and its context fit.
  ghost predicate Fits(ctx: Ctx, t: Tree) {
    RedParent(ctx) || ctx.Top? ==> IsBlack(t)
  }

  lemma {:induction false} PlugBalanced(ctx: Ctx, t: Tree)
    ensures Balanced(Plug(ctx, t)) && IsBlack(Plug(ctx, t))
       <==> Balanced(t) && CtxBalanced(ctx, BlackHeight(t)) && Fits(ctx, t)
    decreases ctx
  {
    match ctx
    case Top =>
    case InLeft(up, n, c, r) => PlugBalanced(up, Bin(t, n, c, r));
    case InRight(l, n, c, up) => PlugBalanced(up, Bin(l, n, c, t));
  }

  ghost function Depth(ctx: Ctx): nat {
    match ctx
    case Top => 0
    case InLeft(up, _, _, _) => 1 + Depth(up)
    case InRight(_, _, _, up) => 1 + Depth(up)
  }

  // ---- height ----

  ghost function Height(t: Tree): nat {
    match t
    case Leaf => 0
    case Bin(l, _, _, r) => 1 + if Height(l) > Height(r) then Height(l) else Height(r)
  }

  lemma {:induction false} HeightByBlack(t: Tree)
    requires Balanced(t)
    ensures Height(t) <= 2 * BlackHeight(t) + if IsBlack(t) then 0 else 1
    ensures Pow2(BlackHeight(t)) <= |Order(t)| + 1
  {
    match t
    case Leaf =>
    case Bin(l, n, c, r) =>
      HeightByBlack(l);
      HeightByBlack(r);
  }

  // A valid tree of n nodes has height at most 2 * log2(n + 1).
  lemma HeightLogarithmic(t: Tree)
    requires Balanced(t) && IsBlack(t)
    ensures Pow2((Height(t) + 1) / 2) <= |Order(t)| + 1
  {
    HeightByBlack(t);
    Pow2Monotone((Height(t) + 1) / 2, BlackHeight(t));
  }
}
