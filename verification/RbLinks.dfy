// Agreement of the node fields with a tree value.
module RbLinks {
  import opened RbShape

  // The fields of the nodes of t realise t, with root x below parent p.
  ghost predicate Linked(t: Tree, x: Node?, p: Node?)
    reads Nodes(t)
  {
    match t
    case Leaf => x == null
    case Bin(l, n, c, r) =>
      && x == n && n.parent == p && n.color == c
      && Linked(l, n.left, n) && Linked(r, n.right, n)
  }

  ghost function ParentOf(ctx: Ctx): Node? {
    if ctx.Top? then null else ctx.n
  }

  ghost function RootOf(t: Tree): Node? {
    if t.Leaf? then null else t.n
  }

  // The fields of the nodes of ctx realise ctx, with x in its hole and the given root.
  ghost predicate CtxLinked(ctx: Ctx, x: Node?, root: Node?)
    reads CtxNodes(ctx)
  {
    match ctx
    case Top => root == x
    case InLeft(up, n, c, r) =>
      && n.left == x && n.parent == ParentOf(up) && n.color == c
      && Linked(r, n.right, n) && CtxLinked(up, n, root)
    case InRight(l, n, c, up) =>
      && n.right == x && n.parent == ParentOf(up) && n.color == c
      && Linked(l, n.left, n) && CtxLinked(up, n, root)
  }

  // t sits in ctx, all nodes distinct and all fields in agreement.
  ghost predicate ZipLinked(ctx: Ctx, t: Tree, x: Node?, root: Node?)
    reads Nodes(t), CtxNodes(ctx)
  {
    ZipDistinct(ctx, t) && Linked(t, x, ParentOf(ctx)) && CtxLinked(ctx, x, root)
  }

  lemma {:induction false} PlugLinked(ctx: Ctx, t: Tree, x: Node?, root: Node?)
    requires ZipLinked(ctx, t, x, root)
    ensures Distinct(Plug(ctx, t)) && Linked(Plug(ctx, t), root, null)
    ensures Nodes(Plug(ctx, t)) == CtxNodes(ctx) + Nodes(t)
    decreases ctx
  {
    match ctx
    case Top =>
    case InLeft(up, n, c, r) => PlugLinked(up, Bin(t, n, c, r), n, root);
    case InRight(l, n, c, up) => PlugLinked(up, Bin(l, n, c, t), n, root);
  }

  // Every node of a tree can be brought into focus.
  lemma {:induction false} Focus(t: Tree, ctx: Ctx, x: Node?, root: Node?, n: Node) returns (sub: Tree, at: Ctx)
    requires ZipLinked(ctx, t, x, root) && n in Nodes(t)
    ensures sub.Bin? && sub.n == n && Plug(at, sub) == Plug(ctx, t)
    ensures ZipLinked(at, sub, n, root)
    decreases t
  {
    if t.n == n {
      sub, at := t, ctx;
    } else if n in Nodes(t.l) {
      sub, at := Focus(t.l, InLeft(ctx, t.n, t.c, t.r), t.n.left, root, n);
    } else {
      sub, at := Focus(t.r, InRight(t.l, t.n, t.c, ctx), t.n.right, root, n);
    }
  }

  // Five parts of a subtree and its context share no node.
  ghost predicate Apart(ctx: Ctx, a: Tree, p: Node, b: Tree, q: Node, c: Tree) {
    && CtxDistinct(ctx) && Distinct(a) && Distinct(b) && Distinct(c) && p != q
    && p !in CtxNodes(ctx) && p !in Nodes(a) && p !in Nodes(b) && p !in Nodes(c)
    && q !in CtxNodes(ctx) && q !in Nodes(a) && q !in Nodes(b) && q !in Nodes(c)
    && CtxNodes(ctx) !! Nodes(a) && CtxNodes(ctx) !! Nodes(b) && CtxNodes(ctx) !! Nodes(c)
    && Nodes(a) !! Nodes(b) && Nodes(a) !! Nodes(c) && Nodes(b) !! Nodes(c)
  }

  lemma ApartRight(ctx: Ctx, a: Tree, p: Node, cp: Color, b: Tree, q: Node, cq: Color, c: Tree)
    ensures ZipDistinct(ctx, Bin(a, p, cp, Bin(b, q, cq, c))) <==> Apart(ctx, a, p, b, q, c)
  {
    var inner := Bin(b, q, cq, c);
    assert Nodes(inner) == Nodes(b) + {q} + Nodes(c);
    assert Nodes(Bin(a, p, cp, inner)) == Nodes(a) + {p} + Nodes(inner);
    assert Distinct(inner) <==> Distinct(b) && Distinct(c) && q !in Nodes(b) && q !in Nodes(c) && Nodes(b) !! Nodes(c);
  }

  lemma ApartLeft(ctx: Ctx, a: Tree, p: Node, cp: Color, b: Tree, q: Node, cq: Color, c: Tree)
    ensures ZipDistinct(ctx, Bin(Bin(a, p, cp, b), q, cq, c)) <==> Apart(ctx, a, p, b, q, c)
  {
    var inner := Bin(a, p, cp, b);
    assert Nodes(inner) == Nodes(a) + {p} + Nodes(b);
    assert Nodes(Bin(inner, q, cq, c)) == Nodes(inner) + {q} + Nodes(c);
    assert Distinct(inner) <==> Distinct(a) && Distinct(b) && p !in Nodes(a) && p !in Nodes(b) && Nodes(a) !! Nodes(b);
  }

  ghost function RootSet(t: Tree): set<Node> {
    if t.Leaf? then {} else {t.n}
  }

  ghost function ParentSet(ctx: Ctx): set<Node> {
    if ctx.Top? then {} else {ctx.n}
  }

  // Moving the focus one level up or down.
  lemma UpLeft(up: Ctx, n: Node, c: Color, r: Tree, t: Tree, x: Node?, root: Node?)
    requires ZipLinked(InLeft(up, n, c, r), t, x, root)
    ensures ZipLinked(up, Bin(t, n, c, r), n, root)
  {
  }

  lemma UpRight(l: Tree, n: Node, c: Color, up: Ctx, t: Tree, x: Node?, root: Node?)
    requires ZipLinked(InRight(l, n, c, up), t, x, root)
    ensures ZipLinked(up, Bin(l, n, c, t), n, root)
  {
  }

  lemma DownLeft(up: Ctx, n: Node, c: Color, r: Tree, t: Tree, root: Node?)
    requires ZipLinked(up, Bin(t, n, c, r), n, root)
    ensures ZipLinked(InLeft(up, n, c, r), t, n.left, root)
  {
  }

  lemma DownRight(l: Tree, n: Node, c: Color, up: Ctx, t: Tree, root: Node?)
    requires ZipLinked(up, Bin(l, n, c, t), n, root)
    ensures ZipLinked(InRight(l, n, c, up), t, n.right, root)
  {
  }

  // The subtree one level above the focus.
  ghost function Raise(ctx: Ctx, t: Tree): Tree
    requires !ctx.Top?
  {
    if ctx.InLeft? then Bin(t, ctx.n, ctx.c, ctx.r) else Bin(ctx.l, ctx.n, ctx.c, t)
  }

  lemma Up(ctx: Ctx, t: Tree, x: Node?, root: Node?)
    requires !ctx.Top? && ZipLinked(ctx, t, x, root)
    ensures ZipLinked(ctx.up, Raise(ctx, t), ctx.n, root)
  {
  }

  // The subtree beside the hole.
  ghost function Sibling(ctx: Ctx): Tree
    requires !ctx.Top?
  {
    if ctx.InLeft? then ctx.r else ctx.l
  }

  // What the fields around the focus say.
  lemma AroundFocus(ctx: Ctx, t: Tree, x: Node?, root: Node?)
    requires ZipLinked(ctx, t, x, root)
    ensures x == RootOf(t) && (x != null ==> x.parent == ParentOf(ctx) && x.color == t.c)
    ensures x != null ==> x.left == RootOf(t.l) && x.right == RootOf(t.r)
    ensures ctx.Top? <==> ParentOf(ctx) == null
    ensures !ctx.Top? ==> ctx.n.color == ctx.c && ctx.n.parent == ParentOf(ctx.up)
    ensures ctx.InLeft? ==> ctx.n.left == x && ctx.n.right == RootOf(ctx.r)
    ensures ctx.InRight? ==> ctx.n.right == x && ctx.n.left == RootOf(ctx.l)
    ensures !ctx.Top? && Sibling(ctx).Bin? ==> Sibling(ctx).n.color == Sibling(ctx).c && Sibling(ctx).n != x
    ensures ctx.Top? ==> root == x
  {
    if t.Bin? {
      assert Linked(t.l, t.n.left, t.n) && Linked(t.r, t.n.right, t.n);
    }
  }

  // Equal in-order sequences stay equal in any context.
  lemma SameOrder(ctx: Ctx, t: Tree, t': Tree)
    requires Order(t) == Order(t')
    ensures Order(Plug(ctx, t)) == Order(Plug(ctx, t'))
  {
    PlugOrder(ctx, t);
    PlugOrder(ctx, t');
  }

  lemma RotateOrder(a: Tree, p: Node, cp: Color, cp': Color, b: Tree, q: Node, cq: Color, cq': Color, c: Tree)
    ensures Order(Bin(a, p, cp, Bin(b, q, cq, c))) == Order(Bin(Bin(a, p, cp', b), q, cq', c))
  {
    assert Order(Bin(b, q, cq, c)) == Order(b) + [q] + Order(c);
    assert Order(Bin(a, p, cp', b)) == Order(a) + [p] + Order(b);
  }

  // ---- what the insertion fixup keeps ----

  // A balanced subtree with a red root in a context balanced for it: only the root and its
  // parent may both be red.
  ghost predicate Inserting(ctx: Ctx, t: Tree) {
    t.Bin? && t.c.Red? && Balanced(t) && CtxBalanced(ctx, BlackHeight(t))
  }

  // From one fixup state to the next, with the same nodes in the same order.
  ghost predicate SameNodes(ctx: Ctx, t: Tree, ctx': Ctx, t': Tree) {
    && Order(Plug(ctx', t')) == Order(Plug(ctx, t))
    && CtxNodes(ctx') + Nodes(t') == CtxNodes(ctx) + Nodes(t)
  }

  lemma SameNodesFromOrder(ctx: Ctx, t: Tree, t': Tree)
    requires Order(t') == Order(t)
    ensures SameNodes(ctx, t, ctx, t')
  {
    SameOrder(ctx, t, t');
    OrderNodes(t);
    OrderNodes(t');
    assert Nodes(t) == Nodes(t');
  }

  lemma {:induction false} OrderNodes(t: Tree)
    ensures Nodes(t) == set n | n in Order(t)
  {
    match t
    case Leaf =>
    case Bin(l, n, _, r) =>
      OrderNodes(l);
      OrderNodes(r);
  }

  lemma SameNodesUp(ctx: Ctx, t: Tree)
    requires !ctx.Top?
    ensures SameNodes(ctx, t, ctx.up, Raise(ctx, t))
  {
  }

  lemma SameNodesTransitive(c0: Ctx, t0: Tree, c1: Ctx, t1: Tree, c2: Ctx, t2: Tree)
    requires SameNodes(c0, t0, c1, t1) && SameNodes(c1, t1, c2, t2)
    ensures SameNodes(c0, t0, c2, t2)
  {
  }

  // A red parent has a black parent itself.
  lemma GrandparentBlack(ctx: Ctx, t: Tree)
    requires Inserting(ctx, t) && RedParent(ctx)
    ensures !ctx.up.Top? && ctx.up.c.Black?
  {
  }

  ghost function WithColor(t: Tree, c: Color): Tree
    requires t.Bin?
  {
    Bin(t.l, t.n, c, t.r)
  }

  lemma RecolorLeftKeeps(up: Ctx, g: Node, u: Tree, par: Ctx, t: Tree)
    requires Inserting(par, t) && RedParent(par) && par.up == InLeft(up, g, Black, u) && u.Bin? && u.c.Red?
    ensures var t' := Bin(WithColor(Raise(par, t), Black), g, Red, WithColor(u, Black));
      Inserting(up, t') && SameNodes(par, t, up, t')
  {
    var p0 := Raise(par, t);
    var p1, u1 := WithColor(p0, Black), WithColor(u, Black);
    assert CtxBalanced(InLeft(up, g, Black, u), BlackHeight(t));
    assert Balanced(u1) && BlackHeight(u1) == BlackHeight(t) + 1;
    assert Balanced(p1) && BlackHeight(p1) == BlackHeight(t) + 1;
    SameNodesUp(par, t);
    SameNodesUp(InLeft(up, g, Black, u), p0);
    assert Order(p0) == Order(p1) && Order(u) == Order(u1);
    assert Order(Bin(p0, g, Black, u)) == Order(Bin(p1, g, Red, u1));
    SameNodesFromOrder(up, Bin(p0, g, Black, u), Bin(p1, g, Red, u1));
  }

  lemma RecolorRightKeeps(up: Ctx, g: Node, u: Tree, par: Ctx, t: Tree)
    requires Inserting(par, t) && RedParent(par) && par.up == InRight(u, g, Black, up) && u.Bin? && u.c.Red?
    ensures var t' := Bin(WithColor(u, Black), g, Red, WithColor(Raise(par, t), Black));
      Inserting(up, t') && SameNodes(par, t, up, t')
  {
    var p0 := Raise(par, t);
    var p1, u1 := WithColor(p0, Black), WithColor(u, Black);
    assert CtxBalanced(InRight(u, g, Black, up), BlackHeight(t));
    assert Balanced(u1) && BlackHeight(u1) == BlackHeight(t) + 1;
    assert Balanced(p1) && BlackHeight(p1) == BlackHeight(t) + 1;
    SameNodesUp(par, t);
    SameNodesUp(InRight(u, g, Black, up), p0);
    assert Order(p0) == Order(p1) && Order(u) == Order(u1);
    assert Order(Bin(u, g, Black, p0)) == Order(Bin(u1, g, Red, p1));
    SameNodesFromOrder(up, Bin(u, g, Black, p0), Bin(u1, g, Red, p1));
  }

  lemma OuterLeftKeeps(up: Ctx, g: Node, u: Tree, par: Node, pr: Tree, t: Tree)
    requires Inserting(InLeft(InLeft(up, g, Black, u), par, Red, pr), t) && IsBlack(u)
    ensures Inserting(InLeft(up, par, Black, Bin(pr, g, Red, u)), t)
    ensures SameNodes(InLeft(InLeft(up, g, Black, u), par, Red, pr), t, InLeft(up, par, Black, Bin(pr, g, Red, u)), t)
  {
    assert CtxBalanced(InLeft(up, g, Black, u), BlackHeight(t));
    var p0 := Bin(t, par, Red, pr);
    SameNodesUp(InLeft(InLeft(up, g, Black, u), par, Red, pr), t);
    SameNodesUp(InLeft(up, g, Black, u), p0);
    RotateOrder(t, par, Black, Red, pr, g, Red, Black, u);
    SameNodesFromOrder(up, Bin(p0, g, Black, u), Bin(t, par, Black, Bin(pr, g, Red, u)));
    SameNodesUp(InLeft(up, par, Black, Bin(pr, g, Red, u)), t);
  }

  lemma OuterRightKeeps(up: Ctx, g: Node, u: Tree, par: Node, pl: Tree, t: Tree)
    requires Inserting(InRight(pl, par, Red, InRight(u, g, Black, up)), t) && IsBlack(u)
    ensures Inserting(InRight(Bin(u, g, Red, pl), par, Black, up), t)
    ensures SameNodes(InRight(pl, par, Red, InRight(u, g, Black, up)), t, InRight(Bin(u, g, Red, pl), par, Black, up), t)
  {
    assert CtxBalanced(InRight(u, g, Black, up), BlackHeight(t));
    var p0 := Bin(pl, par, Red, t);
    SameNodesUp(InRight(pl, par, Red, InRight(u, g, Black, up)), t);
    SameNodesUp(InRight(u, g, Black, up), p0);
    RotateOrder(u, g, Black, Red, pl, par, Red, Black, t);
    SameNodesFromOrder(up, Bin(u, g, Black, p0), Bin(Bin(u, g, Red, pl), par, Black, t));
    SameNodesUp(InRight(Bin(u, g, Red, pl), par, Black, up), t);
  }

  lemma InnerLeftKeeps(ctx: Ctx, par: Node, pl: Tree, tl: Tree, node: Node, tr: Tree)
    requires Inserting(InRight(pl, par, Red, ctx), Bin(tl, node, Red, tr))
    ensures Inserting(InLeft(ctx, node, Red, tr), Bin(pl, par, Red, tl))
    ensures SameNodes(InRight(pl, par, Red, ctx), Bin(tl, node, Red, tr), InLeft(ctx, node, Red, tr), Bin(pl, par, Red, tl))
  {
    SameNodesUp(InRight(pl, par, Red, ctx), Bin(tl, node, Red, tr));
    RotateOrder(pl, par, Red, Red, tl, node, Red, Red, tr);
    SameNodesFromOrder(ctx, Bin(pl, par, Red, Bin(tl, node, Red, tr)), Bin(Bin(pl, par, Red, tl), node, Red, tr));
    SameNodesUp(InLeft(ctx, node, Red, tr), Bin(pl, par, Red, tl));
  }

  lemma InnerRightKeeps(ctx: Ctx, par: Node, pr: Tree, tl: Tree, node: Node, tr: Tree)
    requires Inserting(InLeft(ctx, par, Red, pr), Bin(tl, node, Red, tr))
    ensures Inserting(InRight(tl, node, Red, ctx), Bin(tr, par, Red, pr))
    ensures SameNodes(InLeft(ctx, par, Red, pr), Bin(tl, node, Red, tr), InRight(tl, node, Red, ctx), Bin(tr, par, Red, pr))
  {
    SameNodesUp(InLeft(ctx, par, Red, pr), Bin(tl, node, Red, tr));
    RotateOrder(tl, node, Red, Red, tr, par, Red, Red, pr);
    SameNodesFromOrder(ctx, Bin(Bin(tl, node, Red, tr), par, Red, pr), Bin(tl, node, Red, Bin(tr, par, Red, pr)));
    SameNodesUp(InRight(tl, node, Red, ctx), Bin(tr, par, Red, pr));
  }

  // ---- search order ----

  ghost predicate Sorted(s: seq<Node>) {
    forall i, j :: 0 <= i < j < |s| ==> s[i].key < s[j].key
  }

  ghost predicate AllBelow(s: seq<Node>, key: int) {
    forall i :: 0 <= i < |s| ==> s[i].key < key
  }

  ghost predicate AllAbove(s: seq<Node>, key: int) {
    forall i :: 0 <= i < |s| ==> key < s[i].key
  }

  lemma SortedParts(a: seq<Node>, b: seq<Node>)
    requires Sorted(a + b)
    ensures Sorted(a) && Sorted(b)
    ensures forall i, j :: 0 <= i < |a| && 0 <= j < |b| ==> a[i].key < b[j].key
  {
    var s := a + b;
    assert forall i :: 0 <= i < |a| ==> s[i] == a[i];
    assert forall j :: 0 <= j < |b| ==> s[|a| + j] == b[j];
  }

  // The nodes around the root of the focus, by key.
  lemma SortedAround(ctx: Ctx, t: Tree)
    requires Sorted(Order(Plug(ctx, t))) && t.Bin?
    ensures AllBelow(Order(t.l), t.n.key) && AllAbove(Order(t.r), t.n.key)
  {
    PlugOrder(ctx, t);
    SortedParts(Before(ctx) + Order(t), After(ctx));
    SortedParts(Before(ctx), Order(t));
    SortedParts(Order(t.l) + [t.n], Order(t.r));
    SortedParts(Order(t.l), [t.n]);
    assert (Order(t.l) + [t.n])[|Order(t.l)|] == t.n;
    assert [t.n][0] == t.n;
  }

  // Everything before the hole is below key and everything after it above.
  ghost predicate Brackets(ctx: Ctx, key: int) {
    AllBelow(Before(ctx), key) && AllAbove(After(ctx), key)
  }

  lemma BracketsLeft(ctx: Ctx, t: Tree, key: int)
    requires Sorted(Order(Plug(ctx, t))) && t.Bin? && Brackets(ctx, key) && key < t.n.key
    ensures Brackets(InLeft(ctx, t.n, t.c, t.r), key)
  {
    SortedAround(ctx, t);
  }

  lemma BracketsRight(ctx: Ctx, t: Tree, key: int)
    requires Sorted(Order(Plug(ctx, t))) && t.Bin? && Brackets(ctx, key) && t.n.key < key
    ensures Brackets(InRight(t.l, t.n, t.c, ctx), key)
  {
    SortedAround(ctx, t);
  }

  lemma SortedJoin(a: seq<Node>, n: Node, b: seq<Node>)
    requires Sorted(a + b) && AllBelow(a, n.key) && AllAbove(b, n.key)
    ensures Sorted(a + [n] + b)
  {
    SortedParts(a, b);
  }

  // ---- what the removal fixup keeps ----

  // A black-rooted balanced subtree one black node short for its context.
  ghost predicate Deleting(ctx: Ctx, t: Tree) {
    Balanced(t) && IsBlack(t) && CtxBalanced(ctx, BlackHeight(t) + 1)
  }

  // Blackening the root of the focus makes the whole tree red-black.
  ghost predicate Finishing(ctx: Ctx, t: Tree) {
    var t' := if t.Leaf? then t else WithColor(t, Black);
    Balanced(Plug(ctx, t')) && IsBlack(Plug(ctx, t'))
  }

  // Red sibling (left): after the rotation the focus has a black sibling.
  lemma RedSiblingLeftKeeps(up: Ctx, p: Node, s: Tree, t: Tree, cp: Color)
    requires Deleting(InLeft(up, p, cp, s), t) && s.Bin? && s.c.Red?
    ensures cp == Black && s.l.Bin? && s.l.c.Black?
    ensures var ctx' := InLeft(InLeft(up, s.n, Black, s.r), p, Red, s.l);
      Deleting(ctx', t) && SameNodes(InLeft(up, p, cp, s), t, ctx', t)
  {
    var ctx := InLeft(up, p, cp, s);
    var mid := InLeft(up, s.n, Black, s.r);
    SameNodesUp(ctx, t);
    RotateOrder(t, p, cp, Red, s.l, s.n, Red, Black, s.r);
    SameNodesFromOrder(up, Bin(t, p, cp, s), Bin(Bin(t, p, Red, s.l), s.n, Black, s.r));
    SameNodesUp(mid, Bin(t, p, Red, s.l));
    SameNodesUp(InLeft(mid, p, Red, s.l), t);
    assert CtxBalanced(up, BlackHeight(t) + 2);
    assert CtxBalanced(mid, BlackHeight(t) + 1);
  }

  // Black sibling with black children (left): it turns red and the focus moves up.
  lemma BlackSiblingLeftKeeps(up: Ctx, p: Node, s: Tree, t: Tree, cp: Color)
    requires Deleting(InLeft(up, p, cp, s), t) && s.Bin? && s.c.Black? && IsBlack(s.l) && IsBlack(s.r)
    ensures var t' := Bin(t, p, cp, WithColor(s, Red));
      && SameNodes(InLeft(up, p, cp, s), t, up, t')
      && (cp.Black? ==> Deleting(up, t')) && (cp.Red? ==> Finishing(up, t'))
  {
    var s' := WithColor(s, Red);
    SameNodesUp(InLeft(up, p, cp, s), t);
    assert Order(s) == Order(s');
    assert Order(Bin(t, p, cp, s)) == Order(Bin(t, p, cp, s'));
    SameNodesFromOrder(up, Bin(t, p, cp, s), Bin(t, p, cp, s'));
    assert Balanced(s') && BlackHeight(s') == BlackHeight(t);
    if cp.Red? {
      PlugBalanced(up, Bin(t, p, Black, s'));
    }
  }

  // Black sibling with only a red near child (left): rotate it outwards.
  lemma NearNephewLeftKeeps(up: Ctx, p: Node, s: Tree, t: Tree, cp: Color)
    requires Deleting(InLeft(up, p, cp, s), t) && s.Bin? && s.c.Black? && IsBlack(s.r)
    requires s.l.Bin? && s.l.c.Red?
    ensures var m := s.l;
      var s' := Bin(m.l, m.n, Black, Bin(m.r, s.n, Red, s.r));
      Deleting(InLeft(up, p, cp, s'), t) && SameNodes(InLeft(up, p, cp, s), t, InLeft(up, p, cp, s'), t)
  {
    var m := s.l;
    var s' := Bin(m.l, m.n, Black, Bin(m.r, s.n, Red, s.r));
    SameNodesUp(InLeft(up, p, cp, s), t);
    SameNodesUp(InLeft(up, p, cp, s'), t);
    RotateOrder(m.l, m.n, Black, Red, m.r, s.n, Red, Black, s.r);
    assert Order(s) == Order(s');
    assert Order(Bin(t, p, cp, s)) == Order(Bin(t, p, cp, s'));
    SameNodesFromOrder(up, Bin(t, p, cp, s), Bin(t, p, cp, s'));
    assert Balanced(m) && BlackHeight(m) == BlackHeight(t);
    assert Balanced(Bin(m.r, s.n, Red, s.r));
    assert Balanced(s') && BlackHeight(s') == BlackHeight(t) + 1;
  }

  // Black sibling with a red far child (left): one rotation restores the balance.
  lemma FarNephewLeftKeeps(up: Ctx, p: Node, s: Tree, t: Tree, cp: Color)
    requires Deleting(InLeft(up, p, cp, s), t) && s.Bin? && s.c.Black? && s.r.Bin? && s.r.c.Red?
    ensures var t' := Bin(Bin(t, p, Black, s.l), s.n, cp, WithColor(s.r, Black));
      && SameNodes(InLeft(up, p, cp, s), t, up, t')
      && Balanced(Plug(up, t')) && IsBlack(Plug(up, t'))
  {
    var far := WithColor(s.r, Black);
    var t' := Bin(Bin(t, p, Black, s.l), s.n, cp, far);
    SameNodesUp(InLeft(up, p, cp, s), t);
    assert Order(far) == Order(s.r);
    RotateOrder(t, p, cp, Black, s.l, s.n, Black, cp, s.r);
    assert Order(t') == Order(Bin(t, p, cp, s));
    SameNodesFromOrder(up, Bin(t, p, cp, s), t');
    assert Balanced(s) && BlackHeight(s) == BlackHeight(t) + 1;
    assert Balanced(s.r) && BlackHeight(s.r) == BlackHeight(t);
    assert Balanced(far) && BlackHeight(far) == BlackHeight(t) + 1;
    assert Balanced(Bin(t, p, Black, s.l));
    PlugBalanced(up, t');
  }

  // Red sibling (right): after the rotation the focus has a black sibling.
  lemma RedSiblingRightKeeps(up: Ctx, p: Node, s: Tree, t: Tree, cp: Color)
    requires Deleting(InRight(s, p, cp, up), t) && s.Bin? && s.c.Red?
    ensures cp == Black && s.r.Bin? && s.r.c.Black?
    ensures var ctx' := InRight(s.r, p, Red, InRight(s.l, s.n, Black, up));
      Deleting(ctx', t) && SameNodes(InRight(s, p, cp, up), t, ctx', t)
  {
    var ctx := InRight(s, p, cp, up);
    var mid := InRight(s.l, s.n, Black, up);
    SameNodesUp(ctx, t);
    RotateOrder(s.l, s.n, Black, Red, s.r, p, Red, cp, t);
    SameNodesFromOrder(up, Bin(s, p, cp, t), Bin(s.l, s.n, Black, Bin(s.r, p, Red, t)));
    SameNodesUp(mid, Bin(s.r, p, Red, t));
    SameNodesUp(InRight(s.r, p, Red, mid), t);
    assert CtxBalanced(up, BlackHeight(t) + 2);
    assert CtxBalanced(mid, BlackHeight(t) + 1);
  }

  // Black sibling with black children (right): it turns red and the focus moves up.
  lemma BlackSiblingRightKeeps(up: Ctx, p: Node, s: Tree, t: Tree, cp: Color)
    requires Deleting(InRight(s, p, cp, up), t) && s.Bin? && s.c.Black? && IsBlack(s.l) && IsBlack(s.r)
    ensures var t' := Bin(WithColor(s, Red), p, cp, t);
      && SameNodes(InRight(s, p, cp, up), t, up, t')
      && (cp.Black? ==> Deleting(up, t')) && (cp.Red? ==> Finishing(up, t'))
  {
    var s' := WithColor(s, Red);
    SameNodesUp(InRight(s, p, cp, up), t);
    assert Order(s) == Order(s');
    assert Order(Bin(s, p, cp, t)) == Order(Bin(s', p, cp, t));
    SameNodesFromOrder(up, Bin(s, p, cp, t), Bin(s', p, cp, t));
    assert Balanced(s') && BlackHeight(s') == BlackHeight(t);
    if cp.Red? {
      PlugBalanced(up, Bin(s', p, Black, t));
    }
  }

  // Black sibling with only a red near child (right): rotate it outwards.
  lemma NearNephewRightKeeps(up: Ctx, p: Node, s: Tree, t: Tree, cp: Color)
    requires Deleting(InRight(s, p, cp, up), t) && s.Bin? && s.c.Black? && IsBlack(s.l)
    requires s.r.Bin? && s.r.c.Red?
    ensures var m := s.r;
      var s' := Bin(Bin(s.l, s.n, Red, m.l), m.n, Black, m.r);
      Deleting(InRight(s', p, cp, up), t) && SameNodes(InRight(s, p, cp, up), t, InRight(s', p, cp, up), t)
  {
    var m := s.r;
    var s' := Bin(Bin(s.l, s.n, Red, m.l), m.n, Black, m.r);
    SameNodesUp(InRight(s, p, cp, up), t);
    SameNodesUp(InRight(s', p, cp, up), t);
    RotateOrder(s.l, s.n, Black, Red, m.l, m.n, Red, Black, m.r);
    assert Order(s) == Order(s');
    assert Order(Bin(s, p, cp, t)) == Order(Bin(s', p, cp, t));
    SameNodesFromOrder(up, Bin(s, p, cp, t), Bin(s', p, cp, t));
    assert Balanced(m) && BlackHeight(m) == BlackHeight(t);
    assert Balanced(Bin(s.l, s.n, Red, m.l));
    assert Balanced(s') && BlackHeight(s') == BlackHeight(t) + 1;
  }

  // Black sibling with a red far child (right): one rotation restores the balance.
  lemma FarNephewRightKeeps(up: Ctx, p: Node, s: Tree, t: Tree, cp: Color)
    requires Deleting(InRight(s, p, cp, up), t) && s.Bin? && s.c.Black? && s.l.Bin? && s.l.c.Red?
    ensures var t' := Bin(WithColor(s.l, Black), s.n, cp, Bin(s.r, p, Black, t));
      && SameNodes(InRight(s, p, cp, up), t, up, t')
      && Balanced(Plug(up, t')) && IsBlack(Plug(up, t'))
  {
    var far := WithColor(s.l, Black);
    var t' := Bin(far, s.n, cp, Bin(s.r, p, Black, t));
    SameNodesUp(InRight(s, p, cp, up), t);
    assert Order(far) == Order(s.l);
    RotateOrder(s.l, s.n, cp, Black, s.r, p, Black, cp, t);
    assert Order(t') == Order(Bin(s, p, cp, t));
    SameNodesFromOrder(up, Bin(s, p, cp, t), t');
    assert Balanced(s) && BlackHeight(s) == BlackHeight(t) + 1;
    assert Balanced(s.l) && BlackHeight(s.l) == BlackHeight(t);
    assert Balanced(far) && BlackHeight(far) == BlackHeight(t) + 1;
    assert Balanced(Bin(s.r, p, Black, t));
    PlugBalanced(up, t');
  }

  // ---- paths below a context ----

  // The context that runs through path and then through base.
  ghost function Append(path: Ctx, base: Ctx): Ctx {
    match path
    case Top => base
    case InLeft(up, n, c, r) => InLeft(Append(up, base), n, c, r)
    case InRight(l, n, c, up) => InRight(l, n, c, Append(up, base))
  }

  // The path goes left all the way.
  ghost predicate LeftPath(path: Ctx) {
    path.Top? || (path.InLeft? && LeftPath(path.up))
  }

  lemma {:induction false} AppendPlug(path: Ctx, base: Ctx, t: Tree)
    ensures Plug(Append(path, base), t) == Plug(base, Plug(path, t))
    decreases path
  {
    match path
    case Top =>
    case InLeft(up, n, c, r) => AppendPlug(up, base, Bin(t, n, c, r));
    case InRight(l, n, c, up) => AppendPlug(up, base, Bin(l, n, c, t));
  }

  lemma {:induction false} AppendUp(path: Ctx, base: Ctx, t: Tree, x: Node?, root: Node?)
    requires ZipLinked(Append(path, base), t, x, root)
    ensures ZipLinked(base, Plug(path, t), RootOf(Plug(path, t)), root)
    decreases path
  {
    if !path.Top? {
      Up(Append(path, base), t, x, root);
      AppendUp(path.up, base, Raise(path, t), path.n, root);
    }
  }

  lemma {:induction false} AppendDown(path: Ctx, base: Ctx, t: Tree, root: Node?)
    requires ZipLinked(base, Plug(path, t), RootOf(Plug(path, t)), root)
    ensures ZipLinked(Append(path, base), t, RootOf(t), root)
    decreases path
  {
    match path
    case Top =>
    case InLeft(up, n, c, r) =>
      AppendDown(up, base, Bin(t, n, c, r), root);
      DownLeft(Append(up, base), n, c, r, t, root);
      AroundFocus(InLeft(Append(up, base), n, c, r), t, n.left, root);
    case InRight(l, n, c, up) =>
      AppendDown(up, base, Bin(l, n, c, t), root);
      DownRight(l, n, c, Append(up, base), t, root);
      AroundFocus(InRight(l, n, c, Append(up, base)), t, n.right, root);
  }

  // The balance of a context does not depend on which node carries a colour.
  lemma {:induction false} AppendBalanced(path: Ctx, l: Tree, x: Node, y: Node, c: Color, ctx: Ctx, h: int)
    ensures CtxBalanced(Append(path, InRight(l, x, c, ctx)), h) <==> CtxBalanced(Append(path, InRight(l, y, c, ctx)), h)
    ensures RedParent(Append(path, InRight(l, x, c, ctx))) <==> RedParent(Append(path, InRight(l, y, c, ctx)))
    ensures !Append(path, InRight(l, x, c, ctx)).Top? && !Append(path, InRight(l, y, c, ctx)).Top?
    decreases path
  {
    if !path.Top? {
      AppendBalanced(path.up, l, x, y, c, ctx, h + if path.c.Black? then 1 else 0);
    }
  }

  lemma {:induction false} AppendOrder(path: Ctx, base: Ctx)
    ensures Before(Append(path, base)) == Before(base) + Before(path)
    ensures After(Append(path, base)) == After(path) + After(base)
    decreases path
  {
    if !path.Top? {
      AppendOrder(path.up, base);
    }
  }

  lemma {:induction false} AppendNodes(path: Ctx, base: Ctx)
    ensures CtxNodes(Append(path, base)) == CtxNodes(path) + CtxNodes(base)
    decreases path
  {
    if !path.Top? {
      AppendNodes(path.up, base);
    }
  }

  lemma {:induction false} LeftPathBefore(path: Ctx)
    requires LeftPath(path)
    ensures Before(path) == []
  {
    if !path.Top? {
      LeftPathBefore(path.up);
    }
  }

  // A subtree whose root is the tree's root is the whole tree.
  lemma {:induction false} RootIsTop(ctx: Ctx, x: Node?, root: Node?)
    requires CtxLinked(ctx, x, root)
    ensures !ctx.Top? ==> root != null && root in CtxNodes(ctx)
  {
    if !ctx.Top? {
      RootIsTop(ctx.up, ctx.n, root);
    }
  }
}
