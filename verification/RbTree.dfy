// The red-black tree with parent links and cached ends: kernel/lib/rbtree.c. A ghost tree and a zipper
// follow the nodes that the loops relink.
module RbTree {
  import opened RbShape
  import opened RbLinks

  class RbTree {
    var root: Node?
    var first: Node?
    var last: Node?
    ghost var shape: Tree

    // Let the parent of the hole, or the tree, point at r instead of p.
    method ReplaceChild(p: Node?, r: Node?, parent: Node?, ghost ctx: Ctx)
      requires CtxLinked(ctx, p, root) && CtxDistinct(ctx) && parent == ParentOf(ctx)
      requires p != null ==> p !in CtxNodes(ctx)
      requires ctx.InRight? ==> ctx.n.left != p
      modifies this`root, ParentSet(ctx)
      ensures CtxLinked(ctx, r, root)
      ensures ctx.InLeft? ==> ctx.n.right == old(ctx.n.right)
      ensures ctx.InRight? ==> ctx.n.left == old(ctx.n.left)
    {
      if parent != null {
        if parent.left == p {
          parent.left := r;
        } else {
          parent.right := r;
        }
      } else {
        root := r;
      }
    }

    // The second half of rotate_left: q, p and the subtree between them are relinked.
    method SwingLeft(p: Node, q: Node, parent: Node?, ghost a: Tree, ghost b: Tree, ghost c: Tree)
      requires p.right == q && p != q
      requires Linked(a, p.left, p) && Linked(b, q.left, q) && Linked(c, q.right, q)
      requires p !in Nodes(a) && p !in Nodes(b) && p !in Nodes(c)
      requires q !in Nodes(a) && q !in Nodes(b) && q !in Nodes(c)
      requires Nodes(a) !! Nodes(b) && Nodes(b) !! Nodes(c) && Distinct(b)
      modifies p, q, RootSet(b)
      ensures Linked(Bin(Bin(a, p, old(p.color), b), q, old(q.color), c), q, parent)
    {
      q.parent := parent;
      p.parent := q;
      p.right := q.left;
      if p.right != null {
        p.right.parent := p;
      }
      q.left := p;
      assert Linked(b, p.right, p);
    }

    // rotate_left: p's right child q takes p's place.
    method RotateLeft(p: Node, ghost ctx: Ctx, ghost a: Tree, ghost cp: Color,
                      ghost b: Tree, ghost q: Node, ghost cq: Color, ghost c: Tree)
      requires ZipLinked(ctx, Bin(a, p, cp, Bin(b, q, cq, c)), p, root)
      modifies this`root, ParentSet(ctx), {p, q}, RootSet(b)
      ensures ZipLinked(ctx, Bin(Bin(a, p, cp, b), q, cq, c), q, root)
    {
      ApartRight(ctx, a, p, cp, b, q, cq, c);
      ApartLeft(ctx, a, p, cp, b, q, cq, c);
      hide ZipDistinct;
      var r, parent := p.right, p.parent;
      assert Linked(Bin(b, q, cq, c), r, p);
      assert ParentSet(ctx) <= CtxNodes(ctx) && RootSet(b) <= Nodes(b);
      assert allocated(Nodes(a)) && allocated(Nodes(b)) && allocated(Nodes(c)) && allocated(CtxNodes(ctx));
      ReplaceChild(p, r, parent, ctx);
      SwingLeft(p, r, parent, a, b, c);
    }
  
    // The second half of rotate_right.
    method SwingRight(p: Node, q: Node, parent: Node?, ghost a: Tree, ghost b: Tree, ghost c: Tree)
      requires p.left == q && p != q
      requires Linked(a, q.left, q) && Linked(b, q.right, q) && Linked(c, p.right, p)
      requires p !in Nodes(a) && p !in Nodes(b) && p !in Nodes(c)
      requires q !in Nodes(a) && q !in Nodes(b) && q !in Nodes(c)
      requires Nodes(a) !! Nodes(b) && Nodes(b) !! Nodes(c) && Distinct(b)
      modifies p, q, RootSet(b)
      ensures Linked(Bin(a, q, old(q.color), Bin(b, p, old(p.color), c)), q, parent)
    {
      q.parent := parent;
      p.parent := q;
      p.left := q.right;
      if p.left != null {
        p.left.parent := p;
      }
      q.right := p;
      assert Linked(b, p.left, p);
    }

    // rotate_right: p's left child q takes p's place.
    method RotateRight(p: Node, ghost ctx: Ctx, ghost a: Tree, ghost q: Node, ghost cq: Color,
                       ghost b: Tree, ghost cp: Color, ghost c: Tree)
      requires ZipLinked(ctx, Bin(Bin(a, q, cq, b), p, cp, c), p, root)
      modifies this`root, ParentSet(ctx), {p, q}, RootSet(b)
      ensures ZipLinked(ctx, Bin(a, q, cq, Bin(b, p, cp, c)), q, root)
    {
      ApartLeft(ctx, a, q, cq, b, p, cp, c);
      ApartRight(ctx, a, q, cq, b, p, cp, c);
      hide ZipDistinct;
      var r, parent := p.left, p.parent;
      assert Linked(Bin(a, q, cq, b), r, p);
      assert ParentSet(ctx) <= CtxNodes(ctx) && RootSet(b) <= Nodes(b);
      assert allocated(Nodes(a)) && allocated(Nodes(b)) && allocated(Nodes(c)) && allocated(CtxNodes(ctx));
      ReplaceChild(p, r, parent, ctx);
      SwingRight(p, r, parent, a, b, c);
    }

    // set_color on the node in focus
    method SetColor(n: Node, color: Color, ghost ctx: Ctx, ghost l: Tree, ghost c: Color, ghost r: Tree)
      requires ZipLinked(ctx, Bin(l, n, c, r), n, root)
      modifies n`color
      ensures ZipLinked(ctx, Bin(l, n, color, r), n, root)
    {
      n.color := color;
    }
  
    // ---- insertion fixup ----

    // Red uncle, parent on the left: recolour and move the focus to the grandparent.
    method RecolorLeft(par: Node, uncle: Node, g: Node, ghost up: Ctx, ghost pl: Tree, ghost pr: Tree,
                       ghost ul: Tree, ghost ur: Tree)
      requires ZipLinked(InLeft(up, g, Black, Bin(ul, uncle, Red, ur)), Bin(pl, par, Red, pr), par, root)
      modifies par`color, uncle`color, g`color
      ensures ZipLinked(up, Bin(Bin(pl, par, Black, pr), g, Red, Bin(ul, uncle, Black, ur)), g, root)
    {
      hide ZipLinked;
      ghost var u, p := Bin(ul, uncle, Red, ur), Bin(pl, par, Black, pr);
      SetColor(par, Black, InLeft(up, g, Black, u), pl, Red, pr);
      Up(InLeft(up, g, Black, u), p, par, root);
      DownRight(p, g, Black, up, u, root);
      RootLinked(InRight(p, g, Black, up), u, g.right, root);
      SetColor(uncle, Black, InRight(p, g, Black, up), ul, Red, ur);
      Up(InRight(p, g, Black, up), Bin(ul, uncle, Black, ur), uncle, root);
      SetColor(g, Red, up, p, Black, Bin(ul, uncle, Black, ur));
    }

    // Outer case on the left: the parent becomes the black root of the rotated subtree.
    method OuterLeft(par: Node, g: Node, ghost up: Ctx, ghost t: Tree, ghost pr: Tree, ghost u: Tree)
      requires ZipLinked(InLeft(InLeft(up, g, Black, u), par, Red, pr), t, RootOf(t), root)
      modifies this`root, CtxNodes(up), {par, g}, Nodes(pr)
      ensures ZipLinked(InLeft(up, par, Black, Bin(pr, g, Red, u)), t, RootOf(t), root)
    {
      hide ZipLinked;
      assert ParentSet(up) <= CtxNodes(up) && RootSet(pr) <= Nodes(pr);
      UpLeft(InLeft(up, g, Black, u), par, Red, pr, t, RootOf(t), root);
      SetColor(par, Black, InLeft(up, g, Black, u), t, Red, pr);
      UpLeft(up, g, Black, u, Bin(t, par, Black, pr), par, root);
      SetColor(g, Red, up, Bin(t, par, Black, pr), Black, u);
      RotateRight(g, up, t, par, Black, pr, Red, u);
      DownLeft(up, par, Black, Bin(pr, g, Red, u), t, root);
      RootLinked(InLeft(up, par, Black, Bin(pr, g, Red, u)), t, par.left, root);
    }

    // Inner case on the left: rotate the node above its parent first.
    method InnerLeft(par: Node, ghost node: Node, ghost ctx: Ctx, ghost pl: Tree, ghost tl: Tree, ghost tr: Tree)
      requires ZipLinked(InRight(pl, par, Red, ctx), Bin(tl, node, Red, tr), node, root)
      modifies this`root, CtxNodes(ctx), {par, node}, Nodes(tl)
      ensures ZipLinked(InLeft(ctx, node, Red, tr), Bin(pl, par, Red, tl), par, root)
    {
      hide ZipLinked;
      assert ParentSet(ctx) <= CtxNodes(ctx) && RootSet(tl) <= Nodes(tl);
      UpRight(pl, par, Red, ctx, Bin(tl, node, Red, tr), node, root);
      RotateLeft(par, ctx, pl, Red, tl, node, Red, tr);
      DownLeft(ctx, node, Red, tr, Bin(pl, par, Red, tl), root);
      RootLinked(InLeft(ctx, node, Red, tr), Bin(pl, par, Red, tl), node.left, root);
    }

    method RecolorRight(par: Node, uncle: Node, g: Node, ghost up: Ctx, ghost pl: Tree, ghost pr: Tree,
                        ghost ul: Tree, ghost ur: Tree)
      requires ZipLinked(InRight(Bin(ul, uncle, Red, ur), g, Black, up), Bin(pl, par, Red, pr), par, root)
      modifies par`color, uncle`color, g`color
      ensures ZipLinked(up, Bin(Bin(ul, uncle, Black, ur), g, Red, Bin(pl, par, Black, pr)), g, root)
    {
      hide ZipLinked;
      ghost var u, p := Bin(ul, uncle, Red, ur), Bin(pl, par, Black, pr);
      SetColor(par, Black, InRight(u, g, Black, up), pl, Red, pr);
      Up(InRight(u, g, Black, up), p, par, root);
      DownLeft(up, g, Black, p, u, root);
      RootLinked(InLeft(up, g, Black, p), u, g.left, root);
      SetColor(uncle, Black, InLeft(up, g, Black, p), ul, Red, ur);
      Up(InLeft(up, g, Black, p), Bin(ul, uncle, Black, ur), uncle, root);
      SetColor(g, Red, up, Bin(ul, uncle, Black, ur), Black, p);
    }

    method OuterRight(par: Node, g: Node, ghost up: Ctx, ghost t: Tree, ghost pl: Tree, ghost u: Tree)
      requires ZipLinked(InRight(pl, par, Red, InRight(u, g, Black, up)), t, RootOf(t), root)
      modifies this`root, CtxNodes(up), {par, g}, Nodes(pl)
      ensures ZipLinked(InRight(Bin(u, g, Red, pl), par, Black, up), t, RootOf(t), root)
    {
      hide ZipLinked;
      assert ParentSet(up) <= CtxNodes(up) && RootSet(pl) <= Nodes(pl);
      UpRight(pl, par, Red, InRight(u, g, Black, up), t, RootOf(t), root);
      SetColor(par, Black, InRight(u, g, Black, up), pl, Red, t);
      UpRight(u, g, Black, up, Bin(pl, par, Black, t), par, root);
      SetColor(g, Red, up, u, Black, Bin(pl, par, Black, t));
      RotateLeft(g, up, u, Red, pl, par, Black, t);
      DownRight(Bin(u, g, Red, pl), par, Black, up, t, root);
      RootLinked(InRight(Bin(u, g, Red, pl), par, Black, up), t, par.right, root);
    }

    method InnerRight(par: Node, ghost node: Node, ghost ctx: Ctx, ghost pr: Tree, ghost tl: Tree, ghost tr: Tree)
      requires ZipLinked(InLeft(ctx, par, Red, pr), Bin(tl, node, Red, tr), node, root)
      modifies this`root, CtxNodes(ctx), {par, node}, Nodes(tr)
      ensures ZipLinked(InRight(tl, node, Red, ctx), Bin(tr, par, Red, pr), par, root)
    {
      hide ZipLinked;
      assert ParentSet(ctx) <= CtxNodes(ctx) && RootSet(tr) <= Nodes(tr);
      UpLeft(ctx, par, Red, pr, Bin(tl, node, Red, tr), node, root);
      RotateRight(par, ctx, tl, node, Red, tr, Red, pr);
      DownRight(tl, node, Red, ctx, Bin(tr, par, Red, pr), root);
      RootLinked(InRight(tl, node, Red, ctx), Bin(tr, par, Red, pr), node.right, root);
    }

    // One round of the fixup loop with the parent on the left of the grandparent.
    method FixLeft(node0: Node, parent0: Node, grandpa: Node, ghost ctx0: Ctx, ghost t0: Tree)
      returns (node: Node, ghost ctx: Ctx, ghost t: Tree)
      requires ZipLinked(ctx0, t0, node0, root) && Inserting(ctx0, t0)
      requires RedParent(ctx0) && ctx0.n == parent0 && ctx0.up.InLeft? && ctx0.up.n == grandpa
      modifies this`root, CtxNodes(ctx0), Nodes(t0)
      ensures ZipLinked(ctx, t, node, root) && Inserting(ctx, t) && SameNodes(ctx0, t0, ctx, t)
      ensures Depth(ctx) < Depth(ctx0)
    {
      hide ZipLinked, Inserting, SameNodes, Balanced, CtxBalanced;
      GrandparentBlack(ctx0, t0);
      InsertingRed(ctx0, t0);
      AroundFocus(ctx0, t0, node0, root);
      Up(ctx0, t0, node0, root);
      AroundFocus(ctx0.up, Raise(ctx0, t0), parent0, root);
      SameNodesReflexive(ctx0, t0);
      node, ctx, t := node0, ctx0, t0;
      ghost var up, u := ctx0.up.up, ctx0.up.r;
      var parent, uncle := parent0, grandpa.right;
      assert CtxNodes(ctx0.up) == CtxNodes(up) + {grandpa} + Nodes(u);
      if uncle != null && uncle.color.Red? {
        RecolorLeftKeeps(up, grandpa, u, ctx0, t0);
        RecolorLeft(parent, uncle, grandpa, up, Raise(ctx0, t0).l, Raise(ctx0, t0).r, u.l, u.r);
        node := grandpa;
        ctx, t := up, Bin(WithColor(Raise(ctx0, t0), Black), grandpa, Red, WithColor(u, Black));
      } else {
        if node == parent.right {
          InnerLeftKeeps(ctx0.up, parent, ctx0.l, t0.l, node0, t0.r);
          InnerLeft(parent, node0, ctx0.up, ctx0.l, t0.l, t0.r);
          ctx, t := InLeft(ctx0.up, node0, Red, t0.r), Bin(ctx0.l, parent, Red, t0.l);
          AroundFocus(ctx, t, parent, root);
          node := parent;
          parent := node.parent;
        }
        ghost var ctx1, t1 := ctx, t;
        SameNodesSets(ctx0, t0, ctx, t);
        OuterLeftKeeps(up, grandpa, u, parent, ctx.r, t);
        OuterLeft(parent, grandpa, up, t, ctx.r, u);
        ctx := InLeft(up, parent, Black, Bin(ctx.r, grandpa, Red, u));
        SameNodesTransitive(ctx0, t0, ctx1, t1, ctx, t);
      }
    }

    // One round of the fixup loop with the parent on the right of the grandparent.
    method FixRight(node0: Node, parent0: Node, grandpa: Node, ghost ctx0: Ctx, ghost t0: Tree)
      returns (node: Node, ghost ctx: Ctx, ghost t: Tree)
      requires ZipLinked(ctx0, t0, node0, root) && Inserting(ctx0, t0)
      requires RedParent(ctx0) && ctx0.n == parent0 && ctx0.up.InRight? && ctx0.up.n == grandpa
      modifies this`root, CtxNodes(ctx0), Nodes(t0)
      ensures ZipLinked(ctx, t, node, root) && Inserting(ctx, t) && SameNodes(ctx0, t0, ctx, t)
      ensures Depth(ctx) < Depth(ctx0)
    {
      hide ZipLinked, Inserting, SameNodes, Balanced, CtxBalanced;
      GrandparentBlack(ctx0, t0);
      InsertingRed(ctx0, t0);
      AroundFocus(ctx0, t0, node0, root);
      Up(ctx0, t0, node0, root);
      AroundFocus(ctx0.up, Raise(ctx0, t0), parent0, root);
      SameNodesReflexive(ctx0, t0);
      node, ctx, t := node0, ctx0, t0;
      ghost var up, u := ctx0.up.up, ctx0.up.l;
      var parent, uncle := parent0, grandpa.left;
      assert CtxNodes(ctx0.up) == CtxNodes(up) + {grandpa} + Nodes(u);
      if uncle != null && uncle.color.Red? {
        RecolorRightKeeps(up, grandpa, u, ctx0, t0);
        RecolorRight(parent, uncle, grandpa, up, Raise(ctx0, t0).l, Raise(ctx0, t0).r, u.l, u.r);
        node := grandpa;
        ctx, t := up, Bin(WithColor(u, Black), grandpa, Red, WithColor(Raise(ctx0, t0), Black));
      } else {
        if node == parent.left {
          InnerRightKeeps(ctx0.up, parent, ctx0.r, t0.l, node0, t0.r);
          InnerRight(parent, node0, ctx0.up, ctx0.r, t0.l, t0.r);
          ctx, t := InRight(t0.l, node0, Red, ctx0.up), Bin(t0.r, parent, Red, ctx0.r);
          AroundFocus(ctx, t, parent, root);
          node := parent;
          parent := node.parent;
        }
        ghost var ctx1, t1 := ctx, t;
        SameNodesSets(ctx0, t0, ctx, t);
        OuterRightKeeps(up, grandpa, u, parent, ctx.l, t);
        OuterRight(parent, grandpa, up, t, ctx.l, u);
        ctx := InRight(Bin(u, grandpa, Red, ctx.l), parent, Black, up);
        SameNodesTransitive(ctx0, t0, ctx1, t1, ctx, t);
      }
    }

    // The fixup loop of rbtree_insert, from a red node in focus up to a black parent or the root.
    method InsertFixup(node0: Node, ghost ctx0: Ctx, ghost t0: Tree) returns (ghost ctx: Ctx, ghost t: Tree)
      requires ZipLinked(ctx0, t0, node0, root) && Inserting(ctx0, t0)
      modifies this`root, CtxNodes(ctx0), Nodes(t0)
      ensures ZipLinked(ctx, t, RootOf(t), root) && Inserting(ctx, t) && !RedParent(ctx)
      ensures SameNodes(ctx0, t0, ctx, t)
    {
      hide ZipLinked, Inserting, SameNodes, Balanced, CtxBalanced;
      ctx, t := ctx0, t0;
      SameNodesReflexive(ctx, t);
      var node: Node := node0;
      AroundFocus(ctx, t, node, root);
      while node.parent != null && node.parent.color.Red?
        invariant ZipLinked(ctx, t, node, root) && Inserting(ctx, t)
        invariant SameNodes(ctx0, t0, ctx, t)
        invariant node == RootOf(t) && node.parent == ParentOf(ctx)
        invariant !ctx.Top? ==> ctx.n.color == ctx.c
        decreases Depth(ctx)
      {
        ghost var ctx1, t1 := ctx, t;
        GrandparentBlack(ctx, t);
        AroundFocus(ctx, t, node, root);
        Up(ctx, t, node, root);
        AroundFocus(ctx.up, Raise(ctx, t), ctx.n, root);
        SameNodesSets(ctx0, t0, ctx, t);
        var parent := node.parent;
        var grandpa := parent.parent;
        if parent == grandpa.left {
          node, ctx, t := FixLeft(node, parent, grandpa, ctx, t);
        } else {
          node, ctx, t := FixRight(node, parent, grandpa, ctx, t);
        }
        AroundFocus(ctx, t, node, root);
        SameNodesTransitive(ctx0, t0, ctx1, t1, ctx, t);
      }
    }

    // ---- removal fixup ----

    // Red sibling: recolour and rotate it above the parent.
    method RotateSiblingLeft(p: Node, sn: Node, ghost up: Ctx, ghost sl: Tree, ghost sr: Tree, ghost t: Tree)
      requires ZipLinked(InLeft(up, p, Black, Bin(sl, sn, Red, sr)), t, RootOf(t), root)
      modifies this`root, CtxNodes(up), {p, sn}, Nodes(sl)
      ensures ZipLinked(InLeft(InLeft(up, sn, Black, sr), p, Red, sl), t, RootOf(t), root)
    {
      hide ZipLinked;
      ghost var s, s' := Bin(sl, sn, Red, sr), Bin(sl, sn, Black, sr);
      assert ParentSet(up) <= CtxNodes(up) && RootSet(sl) <= Nodes(sl);
      Up(InLeft(up, p, Black, s), t, RootOf(t), root);
      DownRight(t, p, Black, up, s, root);
      RootLinked(InRight(t, p, Black, up), s, p.right, root);
      SetColor(sn, Black, InRight(t, p, Black, up), s.l, Red, s.r);
      Up(InRight(t, p, Black, up), s', sn, root);
      SetColor(p, Red, up, Bin(t, p, Black, s').l, Black, Bin(t, p, Black, s').r);
      RotateLeft(p, up, t, Red, sl, sn, Black, sr);
      DownLeft(up, sn, Black, sr, Bin(t, p, Red, sl), root);
      RootLinked(InLeft(up, sn, Black, sr), Bin(t, p, Red, sl), sn.left, root);
      DownLeft(InLeft(up, sn, Black, sr), p, Red, sl, t, root);
      RootLinked(InLeft(InLeft(up, sn, Black, sr), p, Red, sl), t, p.left, root);
    }

    // Black sibling with black children: it turns red.
    method RedSiblingLeft(p: Node, sn: Node, ghost up: Ctx, ghost cp: Color, ghost sl: Tree, ghost sr: Tree, ghost t: Tree)
      requires ZipLinked(InLeft(up, p, cp, Bin(sl, sn, Black, sr)), t, RootOf(t), root)
      modifies sn`color
      ensures ZipLinked(up, Bin(t, p, cp, Bin(sl, sn, Red, sr)), p, root)
    {
      hide ZipLinked;
      ghost var s, s' := Bin(sl, sn, Black, sr), Bin(sl, sn, Red, sr);
      Up(InLeft(up, p, cp, s), t, RootOf(t), root);
      DownRight(t, p, cp, up, s, root);
      RootLinked(InRight(t, p, cp, up), s, p.right, root);
      SetColor(sn, Red, InRight(t, p, cp, up), s.l, Black, s.r);
      Up(InRight(t, p, cp, up), s', sn, root);
    }

    // Red near nephew: recolour and rotate it above the sibling.
    method RotateNephewLeft(p: Node, sn: Node, m: Node, ghost up: Ctx, ghost cp: Color,
                        ghost ml: Tree, ghost mr: Tree, ghost sr: Tree, ghost t: Tree)
      requires ZipLinked(InLeft(up, p, cp, Bin(Bin(ml, m, Red, mr), sn, Black, sr)), t, RootOf(t), root)
      modifies this`root, CtxNodes(up), {p, sn, m}, Nodes(mr)
      ensures ZipLinked(InLeft(up, p, cp, Bin(ml, m, Black, Bin(mr, sn, Red, sr))), t, RootOf(t), root)
    {
      hide ZipLinked;
      ghost var far := InRight(t, p, cp, up);
      ghost var s := Bin(Bin(ml, m, Red, mr), sn, Black, sr);
      ghost var s' := Bin(ml, m, Black, Bin(mr, sn, Red, sr));
      assert ParentSet(far) == {p} && RootSet(mr) <= Nodes(mr);
      Up(InLeft(up, p, cp, s), t, RootOf(t), root);
      DownRight(t, p, cp, up, s, root);
      RootLinked(far, s, p.right, root);
      DownLeft(far, sn, Black, sr, Bin(ml, m, Red, mr), root);
      RootLinked(InLeft(far, sn, Black, sr), Bin(ml, m, Red, mr), sn.left, root);
      SetColor(m, Black, InLeft(far, sn, Black, sr), Bin(ml, m, Red, mr).l, Red, Bin(ml, m, Red, mr).r);
      Up(InLeft(far, sn, Black, sr), Bin(ml, m, Black, mr), m, root);
      SetColor(sn, Red, far, Bin(Bin(ml, m, Black, mr), sn, Black, sr).l, Black, Bin(Bin(ml, m, Black, mr), sn, Black, sr).r);
      RotateRight(sn, far, ml, m, Black, mr, Red, sr);
      Up(far, s', m, root);
      DownLeft(up, p, cp, s', t, root);
      RootLinked(InLeft(up, p, cp, s'), t, p.left, root);
    }

    // Red far nephew: the last rotation.
    method LastRotationLeft(p: Node, sn: Node, f: Node, ghost up: Ctx, ghost cp: Color,
                        ghost sl: Tree, ghost fl: Tree, ghost fr: Tree, ghost t: Tree)
      requires ZipLinked(InLeft(up, p, cp, Bin(sl, sn, Black, Bin(fl, f, Red, fr))), t, RootOf(t), root)
      modifies this`root, CtxNodes(up), {p, sn, f}, Nodes(sl)
      ensures ZipLinked(up, Bin(Bin(t, p, Black, sl), sn, cp, Bin(fl, f, Black, fr)), sn, root)
    {
      hide ZipLinked;
      ghost var far := InRight(t, p, cp, up);
      ghost var far' := InRight(t, p, Black, up);
      ghost var g, g' := Bin(fl, f, Red, fr), Bin(fl, f, Black, fr);
      assert ParentSet(up) <= CtxNodes(up) && RootSet(sl) <= Nodes(sl);
      Up(InLeft(up, p, cp, Bin(sl, sn, Black, g)), t, RootOf(t), root);
      AroundFocus(up, Bin(t, p, cp, Bin(sl, sn, Black, g)), p, root);
      DownRight(t, p, cp, up, Bin(sl, sn, Black, g), root);
      RootLinked(far, Bin(sl, sn, Black, g), p.right, root);
      SetColor(sn, p.color, far, Bin(sl, sn, Black, g).l, Black, Bin(sl, sn, Black, g).r);
      Up(far, Bin(sl, sn, cp, g), sn, root);
      SetColor(p, Black, up, Bin(t, p, cp, Bin(sl, sn, cp, g)).l, cp, Bin(t, p, cp, Bin(sl, sn, cp, g)).r);
      DownRight(t, p, Black, up, Bin(sl, sn, cp, g), root);
      RootLinked(far', Bin(sl, sn, cp, g), p.right, root);
      DownRight(sl, sn, cp, far', g, root);
      RootLinked(InRight(sl, sn, cp, far'), g, sn.right, root);
      SetColor(f, Black, InRight(sl, sn, cp, far'), g.l, Red, g.r);
      Up(InRight(sl, sn, cp, far'), g', f, root);
      Up(far', Bin(sl, sn, cp, g'), sn, root);
      RotateLeft(p, up, t, Black, sl, sn, cp, g');
    }

    // Red sibling: recolour and rotate it above the parent.
    method RotateSiblingRight(p: Node, sn: Node, ghost up: Ctx, ghost sl: Tree, ghost sr: Tree, ghost t: Tree)
      requires ZipLinked(InRight(Bin(sr, sn, Red, sl), p, Black, up), t, RootOf(t), root)
      modifies this`root, CtxNodes(up), {p, sn}, Nodes(sl)
      ensures ZipLinked(InRight(sl, p, Red, InRight(sr, sn, Black, up)), t, RootOf(t), root)
    {
      hide ZipLinked;
      ghost var s, s' := Bin(sr, sn, Red, sl), Bin(sr, sn, Black, sl);
      assert ParentSet(up) <= CtxNodes(up) && RootSet(sl) <= Nodes(sl);
      Up(InRight(s, p, Black, up), t, RootOf(t), root);
      DownLeft(up, p, Black, t, s, root);
      RootLinked(InLeft(up, p, Black, t), s, p.left, root);
      SetColor(sn, Black, InLeft(up, p, Black, t), s.l, Red, s.r);
      Up(InLeft(up, p, Black, t), s', sn, root);
      SetColor(p, Red, up, Bin(s', p, Black, t).l, Black, Bin(s', p, Black, t).r);
      RotateRight(p, up, sr, sn, Black, sl, Red, t);
      DownRight(sr, sn, Black, up, Bin(sl, p, Red, t), root);
      RootLinked(InRight(sr, sn, Black, up), Bin(sl, p, Red, t), sn.right, root);
      DownRight(sl, p, Red, InRight(sr, sn, Black, up), t, root);
      RootLinked(InRight(sl, p, Red, InRight(sr, sn, Black, up)), t, p.right, root);
    }

    // Black sibling with black children: it turns red.
    method RedSiblingRight(p: Node, sn: Node, ghost up: Ctx, ghost cp: Color, ghost sl: Tree, ghost sr: Tree, ghost t: Tree)
      requires ZipLinked(InRight(Bin(sr, sn, Black, sl), p, cp, up), t, RootOf(t), root)
      modifies sn`color
      ensures ZipLinked(up, Bin(Bin(sr, sn, Red, sl), p, cp, t), p, root)
    {
      hide ZipLinked;
      ghost var s, s' := Bin(sr, sn, Black, sl), Bin(sr, sn, Red, sl);
      Up(InRight(s, p, cp, up), t, RootOf(t), root);
      DownLeft(up, p, cp, t, s, root);
      RootLinked(InLeft(up, p, cp, t), s, p.left, root);
      SetColor(sn, Red, InLeft(up, p, cp, t), s.l, Black, s.r);
      Up(InLeft(up, p, cp, t), s', sn, root);
    }

    // Red near nephew: recolour and rotate it above the sibling.
    method RotateNephewRight(p: Node, sn: Node, m: Node, ghost up: Ctx, ghost cp: Color,
                        ghost ml: Tree, ghost mr: Tree, ghost sr: Tree, ghost t: Tree)
      requires ZipLinked(InRight(Bin(sr, sn, Black, Bin(mr, m, Red, ml)), p, cp, up), t, RootOf(t), root)
      modifies this`root, CtxNodes(up), {p, sn, m}, Nodes(mr)
      ensures ZipLinked(InRight(Bin(Bin(sr, sn, Red, mr), m, Black, ml), p, cp, up), t, RootOf(t), root)
    {
      hide ZipLinked;
      ghost var far := InLeft(up, p, cp, t);
      ghost var s := Bin(sr, sn, Black, Bin(mr, m, Red, ml));
      ghost var s' := Bin(Bin(sr, sn, Red, mr), m, Black, ml);
      assert ParentSet(far) == {p} && RootSet(mr) <= Nodes(mr);
      Up(InRight(s, p, cp, up), t, RootOf(t), root);
      DownLeft(up, p, cp, t, s, root);
      RootLinked(far, s, p.left, root);
      DownRight(sr, sn, Black, far, Bin(mr, m, Red, ml), root);
      RootLinked(InRight(sr, sn, Black, far), Bin(mr, m, Red, ml), sn.right, root);
      SetColor(m, Black, InRight(sr, sn, Black, far), Bin(mr, m, Red, ml).l, Red, Bin(mr, m, Red, ml).r);
      Up(InRight(sr, sn, Black, far), Bin(mr, m, Black, ml), m, root);
      SetColor(sn, Red, far, Bin(sr, sn, Black, Bin(mr, m, Black, ml)).l, Black, Bin(sr, sn, Black, Bin(mr, m, Black, ml)).r);
      RotateLeft(sn, far, sr, Red, mr, m, Black, ml);
      Up(far, s', m, root);
      DownRight(s', p, cp, up, t, root);
      RootLinked(InRight(s', p, cp, up), t, p.right, root);
    }

    // Red far nephew: the last rotation.
    method LastRotationRight(p: Node, sn: Node, f: Node, ghost up: Ctx, ghost cp: Color,
                        ghost sl: Tree, ghost fl: Tree, ghost fr: Tree, ghost t: Tree)
      requires ZipLinked(InRight(Bin(Bin(fr, f, Red, fl), sn, Black, sl), p, cp, up), t, RootOf(t), root)
      modifies this`root, CtxNodes(up), {p, sn, f}, Nodes(sl)
      ensures ZipLinked(up, Bin(Bin(fr, f, Black, fl), sn, cp, Bin(sl, p, Black, t)), sn, root)
    {
      hide ZipLinked;
      ghost var far := InLeft(up, p, cp, t);
      ghost var far' := InLeft(up, p, Black, t);
      ghost var g, g' := Bin(fr, f, Red, fl), Bin(fr, f, Black, fl);
      assert ParentSet(up) <= CtxNodes(up) && RootSet(sl) <= Nodes(sl);
      Up(InRight(Bin(g, sn, Black, sl), p, cp, up), t, RootOf(t), root);
      AroundFocus(up, Bin(Bin(g, sn, Black, sl), p, cp, t), p, root);
      DownLeft(up, p, cp, t, Bin(g, sn, Black, sl), root);
      RootLinked(far, Bin(g, sn, Black, sl), p.left, root);
      SetColor(sn, p.color, far, Bin(g, sn, Black, sl).l, Black, Bin(g, sn, Black, sl).r);
      Up(far, Bin(g, sn, cp, sl), sn, root);
      SetColor(p, Black, up, Bin(Bin(g, sn, cp, sl), p, cp, t).l, cp, Bin(Bin(g, sn, cp, sl), p, cp, t).r);
      DownLeft(up, p, Black, t, Bin(g, sn, cp, sl), root);
      RootLinked(far', Bin(g, sn, cp, sl), p.left, root);
      DownLeft(far', sn, cp, sl, g, root);
      RootLinked(InLeft(far', sn, cp, sl), g, sn.left, root);
      SetColor(f, Black, InLeft(far', sn, cp, sl), g.l, Red, g.r);
      Up(InLeft(far', sn, cp, sl), g', f, root);
      Up(far', Bin(g', sn, cp, sl), sn, root);
      RotateRight(p, up, g', sn, cp, sl, Black, t);
    }

    // One round of the removal loop with the short subtree on the left of its parent.
    method RoundLeft(node0: Node?, parent0: Node, ghost ctx0: Ctx, ghost t0: Tree)
      returns (node: Node?, parent: Node?, last: bool, ghost ctx: Ctx, ghost t: Tree)
      requires ZipLinked(ctx0, t0, node0, root) && Deleting(ctx0, t0)
      requires ctx0.InLeft? && parent0 == ctx0.n
      modifies this`root, CtxNodes(ctx0), Nodes(t0)
      ensures ZipLinked(ctx, t, node, root) && SameNodes(ctx0, t0, ctx, t)
      ensures last ==> Finishing(ctx, t)
      ensures !last ==> t.Bin? && (t.c.Red? ==> Finishing(ctx, t))
      ensures !last && t.c.Black? ==> Deleting(ctx, t) && Depth(ctx) < Depth(ctx0) && parent == ParentOf(ctx)
    {
      hide ZipLinked, Deleting, Finishing, SameNodes, Balanced, CtxBalanced, IsBlack;
      ctx, t := ctx0, t0;
      SameNodesReflexive(ctx, t);
      RootLinked(ctx, t, node0, root);
      SiblingBin(ctx, t);
      AroundFocus(ctx, t, node0, root);
      var sibling: Node := parent0.right;
      if sibling.color.Red? {
        ghost var up, s := ctx.up, ctx.r;
        RedSiblingLeftKeeps(up, parent0, s, t, ctx.c);
        RotateSiblingLeft(parent0, sibling, up, s.l, s.r, t);
        ctx := InLeft(InLeft(up, sibling, Black, s.r), parent0, Red, s.l);
        AroundFocus(ctx, t, node0, root);
        sibling := parent0.right;
      }
      SiblingFields(ctx, t, node0, root);
      SameNodesSets(ctx0, t0, ctx, t);
      ghost var ctx1, up, s, cp := ctx, ctx.up, ctx.r, ctx.c;
      assert CtxNodes(ctx1) == CtxNodes(up) + {parent0} + Nodes(s);
      if (sibling.left == null || sibling.left.color.Black?) && (sibling.right == null || sibling.right.color.Black?) {
        BlackSiblingLeftKeeps(up, parent0, s, t, cp);
        RedSiblingLeft(parent0, sibling, up, cp, s.l, s.r, t);
        ctx, t := up, Bin(t, parent0, cp, WithColor(s, Red));
        SameNodesTransitive(ctx0, t0, ctx1, t0, ctx, t);
        AroundFocus(ctx, t, parent0, root);
        node, parent, last := parent0, parent0.parent, false;
        return;
      }
      if sibling.right == null || sibling.right.color.Black? {
        ghost var m := s.l;
        assert Nodes(s) == Nodes(m) + {sibling} + Nodes(s.r) && Nodes(m) == Nodes(m.l) + {m.n} + Nodes(m.r);
        NearNephewLeftKeeps(up, parent0, s, t, cp);
        RotateNephewLeft(parent0, sibling, sibling.left, up, cp, m.l, m.r, s.r, t);
        s := Bin(m.l, m.n, Black, Bin(m.r, sibling, Red, s.r));
        ctx := InLeft(up, parent0, cp, s);
        SameNodesTransitive(ctx0, t0, ctx1, t, ctx, t);
        ctx1 := ctx;
        AroundFocus(ctx, t, node0, root);
        SiblingFields(ctx, t, node0, root);
        SameNodesSets(ctx0, t0, ctx, t);
        sibling := parent0.right;
        assert CtxNodes(ctx1) == CtxNodes(up) + {parent0} + Nodes(s);
      }
      FarNephewLeftKeeps(up, parent0, s, t, cp);
      assert Nodes(s) == Nodes(s.l) + {sibling} + Nodes(s.r) && s.r.n in Nodes(s.r);
      LastRotationLeft(parent0, sibling, sibling.right, up, cp, s.l, s.r.l, s.r.r, t);
      ctx, t := up, Bin(Bin(t, parent0, Black, s.l), sibling, cp, WithColor(s.r, Black));
      SameNodesTransitive(ctx0, t0, ctx1, t0, ctx, t);
      WholeFinishing(ctx, t, sibling, root);
      SameNodesTransitive(ctx0, t0, ctx, t, Top, Plug(ctx, t));
      ctx, t := Top, Plug(ctx, t);
      node, parent, last := root, null, true;
    }

    // One round of the removal loop with the short subtree on the right of its parent.
    method RoundRight(node0: Node?, parent0: Node, ghost ctx0: Ctx, ghost t0: Tree)
      returns (node: Node?, parent: Node?, last: bool, ghost ctx: Ctx, ghost t: Tree)
      requires ZipLinked(ctx0, t0, node0, root) && Deleting(ctx0, t0)
      requires ctx0.InRight? && parent0 == ctx0.n
      modifies this`root, CtxNodes(ctx0), Nodes(t0)
      ensures ZipLinked(ctx, t, node, root) && SameNodes(ctx0, t0, ctx, t)
      ensures last ==> Finishing(ctx, t)
      ensures !last ==> t.Bin? && (t.c.Red? ==> Finishing(ctx, t))
      ensures !last && t.c.Black? ==> Deleting(ctx, t) && Depth(ctx) < Depth(ctx0) && parent == ParentOf(ctx)
    {
      hide ZipLinked, Deleting, Finishing, SameNodes, Balanced, CtxBalanced, IsBlack;
      ctx, t := ctx0, t0;
      SameNodesReflexive(ctx, t);
      RootLinked(ctx, t, node0, root);
      SiblingBin(ctx, t);
      AroundFocus(ctx, t, node0, root);
      var sibling: Node := parent0.left;
      if sibling.color.Red? {
        ghost var up, s := ctx.up, ctx.l;
        RedSiblingRightKeeps(up, parent0, s, t, ctx.c);
        RotateSiblingRight(parent0, sibling, up, s.r, s.l, t);
        ctx := InRight(s.r, parent0, Red, InRight(s.l, sibling, Black, up));
        AroundFocus(ctx, t, node0, root);
        sibling := parent0.left;
      }
      SiblingFields(ctx, t, node0, root);
      SameNodesSets(ctx0, t0, ctx, t);
      ghost var ctx1, up, s, cp := ctx, ctx.up, ctx.l, ctx.c;
      assert CtxNodes(ctx1) == CtxNodes(up) + {parent0} + Nodes(s);
      if (sibling.left == null || sibling.left.color.Black?) && (sibling.right == null || sibling.right.color.Black?) {
        BlackSiblingRightKeeps(up, parent0, s, t, cp);
        RedSiblingRight(parent0, sibling, up, cp, s.r, s.l, t);
        ctx, t := up, Bin(WithColor(s, Red), parent0, cp, t);
        SameNodesTransitive(ctx0, t0, ctx1, t0, ctx, t);
        AroundFocus(ctx, t, parent0, root);
        node, parent, last := parent0, parent0.parent, false;
        return;
      }
      if sibling.left == null || sibling.left.color.Black? {
        ghost var m := s.r;
        assert Nodes(s) == Nodes(m) + {sibling} + Nodes(s.l) && Nodes(m) == Nodes(m.l) + {m.n} + Nodes(m.r);
        NearNephewRightKeeps(up, parent0, s, t, cp);
        RotateNephewRight(parent0, sibling, sibling.right, up, cp, m.r, m.l, s.l, t);
        s := Bin(Bin(s.l, sibling, Red, m.l), m.n, Black, m.r);
        ctx := InRight(s, parent0, cp, up);
        SameNodesTransitive(ctx0, t0, ctx1, t, ctx, t);
        ctx1 := ctx;
        AroundFocus(ctx, t, node0, root);
        SiblingFields(ctx, t, node0, root);
        SameNodesSets(ctx0, t0, ctx, t);
        sibling := parent0.left;
        assert CtxNodes(ctx1) == CtxNodes(up) + {parent0} + Nodes(s);
      }
      FarNephewRightKeeps(up, parent0, s, t, cp);
      assert Nodes(s) == Nodes(s.l) + {sibling} + Nodes(s.r) && s.l.n in Nodes(s.l);
      LastRotationRight(parent0, sibling, sibling.left, up, cp, s.r, s.l.r, s.l.l, t);
      ctx, t := up, Bin(WithColor(s.l, Black), sibling, cp, Bin(s.r, parent0, Black, t));
      SameNodesTransitive(ctx0, t0, ctx1, t0, ctx, t);
      WholeFinishing(ctx, t, sibling, root);
      SameNodesTransitive(ctx0, t0, ctx, t, Top, Plug(ctx, t));
      ctx, t := Top, Plug(ctx, t);
      node, parent, last := root, null, true;
    }

    // ---- the tree as a whole ----

    // All parent and child links agree, the tree is red-black and keys are in order.
    ghost predicate Sound()
      reads this`root, this`shape, Nodes(shape)
    {
      WholeTree(shape, root) && Sorted(Order(shape))
    }

    // A sound tree whose first and last are its ends.
    ghost predicate Valid()
      reads this, Nodes(shape)
    {
      Sound() && first == FirstOf(Order(shape)) && last == LastOf(Order(shape))
    }

    constructor ()
      ensures Valid() && shape == Leaf
    {
      root, first, last, shape := null, null, null, Leaf;
    }

    // do_lookup: the node with the key, or the leaf position where it belongs.
    method Lookup(key: int) returns (found: Node?, parent: Node?, isLeft: bool, ghost ctx: Ctx)
      requires Sound()
      ensures found != null ==> found in Nodes(shape) && found.key == key
      ensures found == null ==> Plug(ctx, Leaf) == shape && ZipLinked(ctx, Leaf, null, root) && Brackets(ctx, key)
      ensures found == null ==> parent == ParentOf(ctx) && (parent != null ==> isLeft == ctx.InLeft?)
    {
      hide ZipLinked, Brackets;
      ghost var t;
      ctx, t := Top, shape;
      WholeZip(shape, root);
      EmptyBrackets(key);
      found, parent, isLeft := root, null, false;
      while found != null
        invariant Plug(ctx, t) == shape && ZipLinked(ctx, t, found, root) && Brackets(ctx, key)
        invariant parent == ParentOf(ctx) && (parent != null ==> isLeft == ctx.InLeft?)
        decreases t
      {
        AroundFocus(ctx, t, found, root);
        if found.key == key {
          PlugDistinct(ctx, t);
          return;
        }
        parent := found;
        isLeft := found.key > key;
        if isLeft {
          DownLeft(ctx, t.n, t.c, t.r, t.l, root);
          BracketsLeft(ctx, t, key);
          found := found.left;
          ctx, t := InLeft(ctx, t.n, t.c, t.r), t.l;
        } else {
          DownRight(t.l, t.n, t.c, ctx, t.r, root);
          BracketsRight(ctx, t, key);
          found := found.right;
          ctx, t := InRight(t.l, t.n, t.c, ctx), t.r;
        }
      }
      AroundFocus(ctx, t, found, root);
    }

    // Keep first and last at the ends when node is hung below parent.
    method UpdateEnds(node: Node, parent: Node, isLeft: bool, ghost ctx: Ctx)
      requires parent == ParentOf(ctx) && isLeft == ctx.InLeft?
      requires first == FirstOf(Before(ctx) + After(ctx)) && last == LastOf(Before(ctx) + After(ctx))
      requires Sorted(Before(ctx) + After(ctx))
      modifies this`first, this`last
      ensures first == FirstOf(Before(ctx) + [node] + After(ctx)) && last == LastOf(Before(ctx) + [node] + After(ctx))
    {
      EndsAt(ctx, node);
      hide FirstOf, LastOf, Sorted, Before, After;
      if isLeft {
        if parent == first {
          first := node;
        }
      } else {
        if parent == last {
          last := node;
        }
      }
    }

    // set_child on the parent of the hole
    method SetChild(child: Node?, parent: Node, isLeft: bool, ghost x: Node?, ghost ctx: Ctx)
      requires CtxLinked(ctx, x, root) && CtxDistinct(ctx) && parent == ParentOf(ctx) && isLeft == ctx.InLeft?
      modifies parent
      ensures CtxLinked(ctx, child, root)
      ensures parent.parent == old(parent.parent) && parent.color == old(parent.color)
    {
      if isLeft {
        parent.left := child;
      } else {
        parent.right := child;
      }
    }

    // Hang node as a red leaf below parent.
    method LinkNew(node: Node, parent: Node?, isLeft: bool, ghost ctx: Ctx)
      requires ZipLinked(ctx, Leaf, null, root) && node !in CtxNodes(ctx)
      requires parent == ParentOf(ctx) && (parent != null ==> isLeft == ctx.InLeft?)
      requires first == FirstOf(Before(ctx) + After(ctx)) && last == LastOf(Before(ctx) + After(ctx))
      requires Sorted(Before(ctx) + After(ctx))
      modifies this`root, this`first, this`last, node, ParentSet(ctx)
      ensures ZipLinked(ctx, Bin(Leaf, node, Red, Leaf), node, root)
      ensures first == FirstOf(Before(ctx) + [node] + After(ctx)) && last == LastOf(Before(ctx) + [node] + After(ctx))
    {
      assert ParentSet(ctx) <= CtxNodes(ctx) && allocated(CtxNodes(ctx));
      node.left, node.right := null, null;
      node.color := Red;
      node.parent := parent;
      if parent != null {
        UpdateEnds(node, parent, isLeft, ctx);
        hide FirstOf, LastOf, Sorted, Before, After;
        SetChild(node, parent, isLeft, null, ctx);
      } else {
        root, first, last := node, node, node;
      }
      LeafNode(node);
    }

    // set_color(RB_BLACK, tree->root) at the end of the insertion fixup
    method BlackenRoot(ghost ctx: Ctx, ghost t: Tree) returns (ghost whole: Tree)
      requires ZipLinked(ctx, t, RootOf(t), root) && Inserting(ctx, t) && !RedParent(ctx)
      modifies CtxNodes(ctx), Nodes(t)
      ensures Linked(whole, root, null) && Distinct(whole) && Balanced(whole) && IsBlack(whole)
      ensures Order(whole) == Order(Plug(ctx, t)) && Nodes(whole) == CtxNodes(ctx) + Nodes(t)
    {
      whole := Plug(ctx, t);
      PlugLinked(ctx, t, RootOf(t), root);
      PlugBalanced(ctx, t);
      if ctx.Top? {
        whole := WithColor(t, Black);
      }
      root.color := Black;
    }

    // rbtree_insert
    method Insert(node: Node) returns (existing: Node?)
      requires Valid() && node !in Nodes(shape)
      modifies this, node, Nodes(shape)
      ensures Valid()
      ensures existing != null ==> existing in Nodes(shape) && existing.key == node.key
      ensures existing != null ==> unchanged(this) && unchanged(node)
      ensures existing == null ==> Nodes(shape) == old(Nodes(shape)) + {node}
      ensures existing == null ==> InsertedInto(old(Order(shape)), node, Order(shape))
    {
      hide Linked, CtxLinked, ZipLinked, Balanced, CtxBalanced, Inserting, SameNodes, Brackets, IsBlack, Distinct, Sorted,
        FirstOf, LastOf, Before, After, Order, Nodes, CtxNodes, InsertedInto, Plug;
      ghost var before, ctx;
      var parent, isLeft;
      before := shape;
      assert allocated(Nodes(shape));
      existing, parent, isLeft, ctx := Lookup(node.key);
      if existing != null {
        return;
      }
      InsertStart(shape, ctx, node);
      LinkNew(node, parent, isLeft, ctx);
      LeafNode(node);
      ghost var ctx1, t1 := InsertFixup(node, ctx, Bin(Leaf, node, Red, Leaf));
      SameNodesSets(ctx, Bin(Leaf, node, Red, Leaf), ctx1, t1);
      shape := BlackenRoot(ctx1, t1);
      InsertDone(before, ctx, node, ctx1, t1, shape);
      InsertNodes(before, ctx, node, ctx1, t1);
    }

    // ---- iteration ----

    // get_first: the leftmost node of the subtree in focus
    method GetFirst(x: Node, ghost ctx: Ctx, ghost t: Tree) returns (y: Node, ghost path: Ctx, ghost at: Tree)
      requires ZipLinked(ctx, t, x, root)
      ensures ZipLinked(Append(path, ctx), at, y, root) && at.Bin? && at.l == Leaf && LeftPath(path)
      ensures Plug(path, at) == t && Order(t) == [y] + Order(at.r) + After(path)
    {
      hide ZipLinked;
      y, path, at := x, Top, t;
      AroundFocus(ctx, t, x, root);
      while y.left != null
        invariant ZipLinked(Append(path, ctx), at, y, root) && at.Bin? && LeftPath(path)
        invariant y.left == RootOf(at.l) && y == at.n
        invariant Plug(path, at) == t
        decreases at
      {
        DownLeft(Append(path, ctx), y, at.c, at.r, at.l, root);
        path, at, y := InLeft(path, y, at.c, at.r), at.l, y.left;
        AroundFocus(Append(path, ctx), at, y, root);
      }
      PlugOrder(path, at);
      LeftPathBefore(path);
    }

    // get_last: the rightmost node of the subtree in focus
    method GetLast(x: Node, ghost ctx: Ctx, ghost t: Tree) returns (y: Node)
      requires ZipLinked(ctx, t, x, root)
      ensures Order(t) != [] && y == Order(t)[|Order(t)| - 1]
    {
      hide ZipLinked, Order;
      ghost var c, s, front := ctx, t, [];
      y := x;
      AroundFocus(ctx, t, x, root);
      while y.right != null
        invariant ZipLinked(c, s, y, root) && s.Bin? && y.right == RootOf(s.r) && y == s.n
        invariant Order(t) == front + Order(s)
        decreases s
      {
        DownRight(s.l, y, s.c, c, s.r, root);
        OrderRight(s, front);
        front := front + Order(s.l) + [y];
        c, s, y := InRight(s.l, y, s.c, c), s.r, y.right;
        AroundFocus(c, s, y, root);
      }
      RightEnd(s, front);
    }

    // rbtree_next
    method Next(node0: Node) returns (r: Node?)
      requires Sound() && node0 in Nodes(shape)
      ensures Follows(Order(shape), node0, r)
    {
      hide ZipLinked, Linked, Sorted;
      WholeZip(shape, root);
      ghost var t, ctx := Focus(shape, Top, root, root, node0);
      AroundFocus(ctx, t, node0, root);
      FollowsFocus(shape, ctx, t);
      if node0.right != null {
        DownRight(t.l, node0, t.c, ctx, t.r, root);
        ghost var path, at;
        r, path, at := GetFirst(node0.right, InRight(t.l, node0, t.c, ctx), t.r);
        return;
      }
      var node: Node := node0;
      ghost var c, s := ctx, t;
      while node.parent != null && node.parent.right == node
        invariant ZipLinked(c, s, node, root) && s.Bin? && After(c) == After(ctx) && node.parent == ParentOf(c)
        decreases Depth(c)
      {
        AroundFocus(c, s, node, root);
        Up(c, s, node, root);
        c, s, node := c.up, Raise(c, s), node.parent;
        AroundFocus(c, s, node, root);
      }
      AroundFocus(c, s, node, root);
      r := node.parent;
    }

    // rbtree_prev
    method Prev(node0: Node) returns (r: Node?)
      requires Sound() && node0 in Nodes(shape)
      ensures Precedes(Order(shape), r, node0)
    {
      hide ZipLinked, Linked, Sorted;
      WholeZip(shape, root);
      ghost var t, ctx := Focus(shape, Top, root, root, node0);
      AroundFocus(ctx, t, node0, root);
      FollowsFocus(shape, ctx, t);
      if node0.left != null {
        DownLeft(ctx, node0, t.c, t.r, t.l, root);
        r := GetLast(node0.left, InLeft(ctx, node0, t.c, t.r), t.l);
        return;
      }
      var node: Node := node0;
      ghost var c, s := ctx, t;
      while node.parent != null && node.parent.left == node
        invariant ZipLinked(c, s, node, root) && s.Bin? && Before(c) == Before(ctx) && node.parent == ParentOf(c)
        decreases Depth(c)
      {
        AroundFocus(c, s, node, root);
        Up(c, s, node, root);
        c, s, node := c.up, Raise(c, s), node.parent;
        AroundFocus(c, s, node, root);
      }
      AroundFocus(c, s, node, root);
      r := node.parent;
    }

    // From first by rbtree_next, as the users of the tree walk it
    method Walk() returns (visited: seq<Node>)
      requires Valid()
      ensures visited == Order(shape)
    {
      hide WholeTree, Sorted, Nodes;
      visited := [];
      var node := first;
      while node != null
        invariant Valid() && |visited| <= |Order(shape)| && visited == Order(shape)[..|visited|]
        invariant node == if |visited| < |Order(shape)| then Order(shape)[|visited|] else null
        decreases |Order(shape)| - |visited|
      {
        ghost var at := |visited|;
        InOrderNodes(shape, at);
        assert allocated(Nodes(shape));
        var next := Next(node);
        ghost var s := Order(shape);
        FollowsAt(s, at, next);
        assert s[..at + 1] == s[..at] + [node];
        visited := visited + [node];
        node := next;
      }
    }

    // ---- removal ----

    // The last statement of rbtree_remove: blacken the node in focus, if any.
    method BlackenFocus(node: Node?, ghost ctx: Ctx, ghost t: Tree) returns (ghost whole: Tree)
      requires ZipLinked(ctx, t, node, root) && Finishing(ctx, t)
      modifies Nodes(t)
      ensures WholeTree(whole, root) && Order(whole) == Order(Plug(ctx, t)) && Nodes(whole) == CtxNodes(ctx) + Nodes(t)
    {
      hide ZipLinked;
      AroundFocus(ctx, t, node, root);
      ghost var t' := t;
      if node != null {
        SetColor(node, Black, ctx, t.l, t.c, t.r);
        t' := WithColor(t, Black);
      }
      PlugLinked(ctx, t', node, root);
      SameOrder(ctx, t, t');
      whole := Plug(ctx, t');
    }

    // The fixup loop of rbtree_remove.
    method RemoveFixup(node0: Node?, parent0: Node?, ghost ctx0: Ctx, ghost t0: Tree) returns (ghost whole: Tree)
      requires ZipLinked(ctx0, t0, node0, root) && Deleting(ctx0, t0) && parent0 == ParentOf(ctx0)
      modifies this`root, CtxNodes(ctx0), Nodes(t0)
      ensures WholeTree(whole, root) && Order(whole) == Order(Plug(ctx0, t0))
      ensures Nodes(whole) == CtxNodes(ctx0) + Nodes(t0)
    {
      hide ZipLinked, Deleting, Finishing, SameNodes, Balanced, CtxBalanced, IsBlack;
      var node, parent, last := node0, parent0, false;
      ghost var ctx, t := ctx0, t0;
      SameNodesReflexive(ctx, t);
      while true
        invariant ZipLinked(ctx, t, node, root) && Deleting(ctx, t) && parent == ParentOf(ctx)
        invariant SameNodes(ctx0, t0, ctx, t)
        decreases Depth(ctx)
      {
        if node == root {
          TopFinishing(ctx, t, node, root);
          break;
        }
        ghost var ctx1, t1 := ctx, t;
        SameNodesSets(ctx0, t0, ctx, t);
        NotTop(ctx, t, node, root);
        AroundFocus(ctx, t, node, root);
        SiblingBin(ctx, t);
        if node == parent.left {
          node, parent, last, ctx, t := RoundLeft(node, parent, ctx, t);
        } else {
          node, parent, last, ctx, t := RoundRight(node, parent, ctx, t);
        }
        SameNodesTransitive(ctx0, t0, ctx1, t1, ctx, t);
        AroundFocus(ctx, t, node, root);
        if last || node.color.Red? {
          break;
        }
      }
      SameNodesSets(ctx0, t0, ctx, t);
      whole := BlackenFocus(node, ctx, t);
      SameNodesWhole(ctx0, t0, ctx, t);
    }

    // A node with at most one child: the child takes its place.
    method Splice(x: Node, next: Node?, parent: Node?, ghost ctx: Ctx, ghost l: Tree, ghost c: Color, ghost r: Tree)
      requires ZipLinked(ctx, Bin(l, x, c, r), x, root) && parent == ParentOf(ctx)
      requires (l == Leaf && next == x.right) || (r == Leaf && l.Bin? && next == x.left)
      modifies this`root, ParentSet(ctx), RootSet(l), RootSet(r)
      ensures ZipLinked(ctx, if l == Leaf then r else l, next, root)
    {
      assert ParentSet(ctx) <= CtxNodes(ctx) && allocated(CtxNodes(ctx)) && allocated(Nodes(l)) && allocated(Nodes(r));
      assert Linked(l, x.left, x) && Linked(r, x.right, x);
      ReplaceChild(x, next, parent, ctx);
      if next != null {
        next.parent := parent;
      }
    }

    // y becomes the root over l and its own right subtree r.
    method AdoptLeft(y: Node, left: Node, parent: Node?, color: Color, ghost x: Node?, ghost l: Tree, ghost r: Tree)
      requires Linked(l, left, x) && Linked(r, y.right, y)
      requires Distinct(l) && y !in Nodes(l) && y !in Nodes(r) && Nodes(l) !! Nodes(r)
      modifies y, RootSet(l)
      ensures Linked(Bin(l, y, color, r), y, parent) && y.right == old(y.right)
    {
      y.color := color;
      y.left := left;
      left.parent := y;
      y.parent := parent;
      assert Linked(l, y.left, y);
    }

    // The right child y has no left child: y takes x's place.
    method ReplaceNear(x: Node, y: Node, ghost ctx: Ctx, ghost l: Tree, ghost c: Color, ghost cy: Color, ghost r: Tree)
      requires ZipLinked(ctx, Bin(l, x, c, Bin(Leaf, y, cy, r)), x, root) && l.Bin?
      modifies this`root, ParentSet(ctx), y, RootSet(l)
      ensures ZipLinked(ctx, Bin(l, y, c, r), y, root)
    {
      ApartRight(ctx, l, x, c, Leaf, y, cy, r);
      ApartDrop(ctx, l, x, y, c, r);
      hide ZipDistinct;
      assert Linked(l, x.left, x);
      var left, parent, color := x.left, x.parent, x.color;
      assert ParentSet(ctx) <= CtxNodes(ctx) && RootSet(l) <= Nodes(l);
      assert allocated(CtxNodes(ctx)) && allocated(Nodes(l)) && allocated(Nodes(r));
      assert Linked(Bin(Leaf, y, cy, r), x.right, x);
      ReplaceChild(x, y, parent, ctx);
      AdoptLeft(y, left, parent, color, x, l, r);
    }

    method AdoptBoth(y: Node, left: Node, right: Node, parent: Node?, color: Color, ghost x: Node?, ghost l: Tree, ghost r: Tree)
      requires Linked(l, left, x) && Linked(r, right, x) && Distinct(l) && Distinct(r)
      requires y !in Nodes(l) && y !in Nodes(r) && Nodes(l) !! Nodes(r)
      modifies y, RootSet(l), RootSet(r)
      ensures Linked(Bin(l, y, color, r), y, parent)
    {
      y.color := color;
      y.left := left;
      left.parent := y;
      assert Linked(l, left, y) && Linked(r, right, x);
      y.parent := parent;
      y.right := right;
      right.parent := y;
      assert Linked(l, left, y) && Linked(r, right, y);
    }

    // y, no longer in the tree, takes x's place between x's parent and both of x's subtrees.
    method ReplaceFar(x: Node, y: Node, ghost ctx: Ctx, ghost l: Tree, ghost c: Color, ghost r: Tree)
      requires ZipLinked(ctx, Bin(l, x, c, r), x, root) && l.Bin? && r.Bin?
      requires y != x && y !in CtxNodes(ctx) && y !in Nodes(l) && y !in Nodes(r)
      modifies this`root, ParentSet(ctx), y, RootSet(l), RootSet(r)
      ensures ZipLinked(ctx, Bin(l, y, c, r), y, root)
    {
      assert Linked(l, x.left, x) && Linked(r, x.right, x);
      var left, right, parent, color := x.left, x.right, x.parent, x.color;
      assert ParentSet(ctx) <= CtxNodes(ctx) && RootSet(l) <= Nodes(l) && RootSet(r) <= Nodes(r);
      assert allocated(CtxNodes(ctx)) && allocated(Nodes(l)) && allocated(Nodes(r));
      ReplaceChild(x, y, parent, ctx);
      AdoptBoth(y, left, right, parent, color, x, l, r);
    }

    // The successor y, further down on the right, leaves its place to its right subtree yr and
    // takes x's place.
    method MoveSuccessor(x: Node, y: Node, ghost path: Ctx, ghost ctx: Ctx, ghost l: Tree, ghost c: Color,
                         ghost cy: Color, ghost yr: Tree) returns (node: Node?, parent: Node?)
      requires ZipLinked(Append(path, InRight(l, x, c, ctx)), Bin(Leaf, y, cy, yr), y, root)
      requires l.Bin? && path.InLeft?
      modifies this`root, CtxNodes(path), CtxNodes(ctx), y, Nodes(l), Nodes(yr)
      ensures ZipLinked(Append(path, InRight(l, y, c, ctx)), yr, node, root)
      ensures parent == ParentOf(path)
    {
      ghost var base, all := InRight(l, x, c, ctx), Append(path, InRight(l, x, c, ctx));
      AroundFocus(all, Bin(Leaf, y, cy, yr), y, root);
      AppendNodes(path, base);
      PlugDistinct(path, yr);
      SuccessorApart(path, ctx, l, x, c, y, cy, yr);
      ghost var r := Plug(path, yr);
      hide ZipLinked, Append, Plug;
      parent, node := y.parent, y.right;
      Splice(y, node, parent, all, Leaf, cy, yr);
      AppendUp(path, base, yr, node, root);
      Up(base, r, RootOf(r), root);
      ReplaceFar(x, y, ctx, l, c, r);
      DownRight(l, y, c, ctx, r, root);
      RootLinked(InRight(l, y, c, ctx), r, y.right, root);
      AppendDown(path, InRight(l, y, c, ctx), yr, root);
    }

    // Take node out of the tree; its place, or its successor's, is left to the subtree in focus,
    // and color is the colour that went missing there.
    method Detach(node0: Node, ghost ctx0: Ctx, ghost t0: Tree)
      returns (node: Node?, parent: Node?, color: Color, ghost ctx: Ctx, ghost t: Tree)
      requires ZipLinked(ctx0, t0, node0, root) && Balanced(Plug(ctx0, t0)) && IsBlack(Plug(ctx0, t0))
      modifies this`root, CtxNodes(ctx0), Nodes(t0) - {node0}
      ensures ZipLinked(ctx, t, node, root) && parent == ParentOf(ctx)
      ensures Removing(ctx, t, color) && WithoutFocus(ctx0, t0, ctx, t)
    {
      hide ZipLinked, Balanced, IsBlack, Removing, WithoutFocus, Plug;
      AroundFocus(ctx0, t0, node0, root);
      FocusSets(ctx0, t0, node0, root);
      parent := node0.parent;
      var left, right := node0.left, node0.right;
      if left == null || right == null {
        color := node0.color;
        node := if left == null then right else left;
        Splice(node0, node, parent, ctx0, t0.l, t0.c, t0.r);
        ctx, t := ctx0, if t0.l == Leaf then t0.r else t0.l;
        SpliceRemoves(ctx0, t0);
        return;
      }
      DownRight(t0.l, node0, t0.c, ctx0, t0.r, root);
      ghost var base := InRight(t0.l, node0, t0.c, ctx0);
      ghost var path, at;
      var next;
      assert allocated(Nodes(t0)) && allocated(CtxNodes(ctx0));
      next, path, at := GetFirst(right, base, t0.r);
      AroundFocus(Append(path, base), at, next, root);
      color := next.color;
      SuccessorRemoves(ctx0, t0, path, at);
      SuccessorSets(ctx0, t0, path, at, node0, next, root);
      if next == right {
        ReplaceNear(node0, next, ctx0, t0.l, t0.c, at.c, at.r);
        DownRight(t0.l, next, t0.c, ctx0, at.r, root);
        AroundFocus(InRight(t0.l, next, t0.c, ctx0), at.r, next.right, root);
        node, parent := next.right, next;
      } else {
        node, parent := MoveSuccessor(node0, next, path, ctx0, t0.l, t0.c, at.c, at.r);
      }
      ctx, t := Append(path, InRight(t0.l, next, t0.c, ctx0)), at.r;
    }

    // rbtree_remove
    method Remove(node: Node)
      requires Valid() && node in Nodes(shape)
      modifies this, Nodes(shape)
      ensures Valid()
      ensures Nodes(shape) == old(Nodes(shape)) - {node}
      ensures RemovedFrom(old(Order(shape)), node, Order(shape))
    {
      hide ZipLinked, Linked, Balanced, IsBlack, Distinct, Sorted, Removing, WithoutFocus, Plug, RemovedFrom,
        FirstOf, LastOf, Follows, Precedes, Order, Nodes, CtxNodes, Deleting, Finishing, WholeTree;
      ghost var before := shape;
      assert allocated(Nodes(shape));
      if node == first {
        first := Next(node);
      }
      if node == last {
        last := Prev(node);
      }
      ghost var t0, ctx0 := FocusWhole(shape, root, node);
      ghost var ctx, t;
      var x, parent, color;
      x, parent, color, ctx, t := Detach(node, ctx0, t0);
      RemovedSets(before, ctx0, t0, ctx, t);
      if color.Red? {
        RedRemoved(ctx, t, x, root);
        shape := Plug(ctx, t);
      } else if x != null && x.color.Red? {
        AroundFocus(ctx, t, x, root);
        BlackRemoved(ctx, t);
        shape := BlackenFocus(x, ctx, t);
      } else {
        AroundFocus(ctx, t, x, root);
        BlackRemoved(ctx, t);
        shape := RemoveFixup(x, parent, ctx, t);
      }
      RemoveDone(before, ctx0, t0, ctx, t, shape, first, last);
    }
  }

  // What taking a node out of the tree leaves to be repaired.
  ghost predicate Removing(ctx: Ctx, t: Tree, color: Color) {
    match color
    case Red => Balanced(Plug(ctx, t)) && IsBlack(Plug(ctx, t))
    case Black => Balanced(t) && CtxBalanced(ctx, BlackHeight(t) + 1)
  }

  // The same nodes in the same order, but for the root of t0.
  ghost predicate WithoutFocus(ctx0: Ctx, t0: Tree, ctx: Ctx, t: Tree)
    requires t0.Bin?
  {
    && Order(Plug(ctx, t)) == (Before(ctx0) + Order(t0.l)) + (Order(t0.r) + After(ctx0))
    && CtxNodes(ctx) + Nodes(t) == CtxNodes(ctx0) + Nodes(t0.l) + Nodes(t0.r)
  }

  // s' is s with node taken out.
  ghost predicate RemovedFrom(s: seq<Node>, node: Node, s': seq<Node>) {
    exists i :: 0 <= i < |s| && s[i] == node && s' == s[..i] + s[i + 1..]
  }

  lemma FocusWhole(shape: Tree, root: Node?, node: Node) returns (t: Tree, ctx: Ctx)
    requires WholeTree(shape, root) && node in Nodes(shape)
    ensures ZipLinked(ctx, t, node, root) && Plug(ctx, t) == shape && t.Bin? && t.n == node
    ensures Balanced(shape) && IsBlack(shape) && Distinct(shape)
    ensures CtxNodes(ctx) + Nodes(t) == Nodes(shape) && Nodes(t) - {node} <= Nodes(shape)
  {
    WholeZip(shape, root);
    t, ctx := Focus(shape, Top, root, root, node);
    PlugDistinct(ctx, t);
  }

  lemma FocusSets(ctx: Ctx, t: Tree, x: Node, root: Node?)
    requires ZipLinked(ctx, t, x, root)
    ensures t.Bin? && t.n == x && Nodes(t) - {x} == Nodes(t.l) + Nodes(t.r)
    ensures ParentSet(ctx) <= CtxNodes(ctx) && RootSet(t.l) <= Nodes(t.l) && RootSet(t.r) <= Nodes(t.r)
  {
  }

  lemma SpliceRemoves(ctx: Ctx, t: Tree)
    requires t.Bin? && (t.l == Leaf || t.r == Leaf) && Balanced(Plug(ctx, t)) && IsBlack(Plug(ctx, t))
    ensures var t' := if t.l == Leaf then t.r else t.l;
      Removing(ctx, t', t.c) && WithoutFocus(ctx, t, ctx, t')
  {
    SpliceBalance(ctx, t);
    SpliceOrder(ctx, t);
  }

  lemma SpliceBalance(ctx: Ctx, t: Tree)
    requires t.Bin? && (t.l == Leaf || t.r == Leaf) && Balanced(Plug(ctx, t)) && IsBlack(Plug(ctx, t))
    ensures Removing(ctx, if t.l == Leaf then t.r else t.l, t.c)
  {
    PlugBalanced(ctx, t);
    PlugBalanced(ctx, if t.l == Leaf then t.r else t.l);
  }

  lemma OrderRight(s: Tree, front: seq<Node>)
    requires s.Bin?
    ensures front + Order(s) == front + Order(s.l) + [s.n] + Order(s.r)
  {}

  lemma RightEnd(s: Tree, front: seq<Node>)
    requires s.Bin? && s.r == Leaf
    ensures var whole := front + Order(s); whole != [] && whole[|whole| - 1] == s.n
  {}

  lemma SpliceOrder(ctx: Ctx, t: Tree)
    requires t.Bin? && (t.l == Leaf || t.r == Leaf)
    ensures WithoutFocus(ctx, t, ctx, if t.l == Leaf then t.r else t.l)
  {
    hide Plug, Before, After;
    var t' := if t.l == Leaf then t.r else t.l;
    PlugOrder(ctx, t');
    assert Order(t') == Order(t.l) + [] + Order(t.r);
    hide Order;
    RegroupMiddle(Before(ctx), Order(t.l), [], Order(t.r), After(ctx));
  }

  // x with both children: the successor y = at.n is moved up into x's place.
  lemma SuccessorRemoves(ctx: Ctx, t: Tree, path: Ctx, at: Tree)
    requires t.Bin? && t.r.Bin? && Balanced(Plug(ctx, t)) && IsBlack(Plug(ctx, t))
    requires at.Bin? && at.l == Leaf && LeftPath(path) && Plug(path, at) == t.r
    ensures var ctx' := Append(path, InRight(t.l, at.n, t.c, ctx));
      Removing(ctx', at.r, at.c) && WithoutFocus(ctx, t, ctx', at.r)
  {
    hide Removing, WithoutFocus, Append, Balanced, IsBlack;
    SuccessorBalance(ctx, t, path, at);
    SuccessorOrder(ctx, t, path, at);
  }

  lemma SuccessorBalance(ctx: Ctx, t: Tree, path: Ctx, at: Tree)
    requires t.Bin? && Balanced(Plug(ctx, t)) && IsBlack(Plug(ctx, t))
    requires at.Bin? && at.l == Leaf && Plug(path, at) == t.r
    ensures Removing(Append(path, InRight(t.l, at.n, t.c, ctx)), at.r, at.c)
  {
    var base := InRight(t.l, t.n, t.c, ctx);
    var ctx' := Append(path, InRight(t.l, at.n, t.c, ctx));
    AppendPlug(path, base, at);
    PlugBalanced(Append(path, base), at);
    AppendBalanced(path, t.l, t.n, at.n, t.c, ctx, BlackHeight(at));
    PlugBalanced(ctx', at.r);
    hide Append, Plug, CtxBalanced;
  }

  lemma SuccessorOrder(ctx: Ctx, t: Tree, path: Ctx, at: Tree)
    requires t.Bin? && at.Bin? && at.l == Leaf && LeftPath(path) && Plug(path, at) == t.r
    ensures WithoutFocus(ctx, t, Append(path, InRight(t.l, at.n, t.c, ctx)), at.r)
  {
    hide Append, Plug, Before, After;
    SuccessorSequence(ctx, t, path, at);
    SuccessorNodes(ctx, t, path, at);
  }

  lemma Regroup<T>(a: seq<T>, b: seq<T>, y: seq<T>, c: seq<T>, d: seq<T>, e: seq<T>)
    ensures ((a + b + y) + []) + c + (d + e) == (a + b) + ((y + c + d) + e)
  {
  }

  lemma SuccessorParts(ctx: Ctx, t: Tree, path: Ctx, at: Tree)
    requires t.Bin? && at.Bin? && at.l == Leaf && LeftPath(path) && Plug(path, at) == t.r
    ensures Order(t.r) == [at.n] + Order(at.r) + After(path)
    ensures var base' := InRight(t.l, at.n, t.c, ctx);
      Before(base') == Before(ctx) + Order(t.l) + [at.n] && After(base') == After(ctx)
    ensures Before(path) == []
  {
    LeftPathBefore(path);
    PlugOrder(path, at);
    assert Order(at) == [at.n] + Order(at.r);
  }

  lemma SuccessorSequence(ctx: Ctx, t: Tree, path: Ctx, at: Tree)
    requires t.Bin? && at.Bin? && at.l == Leaf && LeftPath(path) && Plug(path, at) == t.r
    ensures Order(Plug(Append(path, InRight(t.l, at.n, t.c, ctx)), at.r))
         == (Before(ctx) + Order(t.l)) + (Order(t.r) + After(ctx))
  {
    hide Append, Plug, Before, After, Order, LeftPath;
    var base' := InRight(t.l, at.n, t.c, ctx);
    PlugOrder(Append(path, base'), at.r);
    AppendOrder(path, base');
    SuccessorParts(ctx, t, path, at);
    Regroup(Before(ctx), Order(t.l), [at.n], Order(at.r), After(path), After(ctx));
  }

  lemma SuccessorNodes(ctx: Ctx, t: Tree, path: Ctx, at: Tree)
    requires t.Bin? && at.Bin? && at.l == Leaf && Plug(path, at) == t.r
    ensures CtxNodes(Append(path, InRight(t.l, at.n, t.c, ctx))) + Nodes(at.r) == CtxNodes(ctx) + Nodes(t.l) + Nodes(t.r)
  {
    AppendNodes(path, InRight(t.l, at.n, t.c, ctx));
    PlugDistinct(path, at);
  }

  lemma SuccessorSets(ctx: Ctx, t: Tree, path: Ctx, at: Tree, x: Node, y: Node, root: Node?)
    requires ZipLinked(ctx, t, x, root) && t.l.Bin? && t.r.Bin?
    requires at.Bin? && at.n == y && at.l == Leaf && LeftPath(path) && Plug(path, at) == t.r
    ensures CtxNodes(path) + {y} + Nodes(at.r) == Nodes(t.r)
    ensures path.Top? <==> y == t.r.n
    ensures path.Top? ==> t.r == Bin(Leaf, y, at.c, at.r)
    ensures !path.Top? ==> path.InLeft?
    ensures ParentOf(Append(path, InRight(t.l, y, t.c, ctx))) == if path.Top? then y else ParentOf(path)
  {
    PlugDistinct(path, at);
    if !path.Top? {
      PlugRoot(path, at);
    }
  }

  lemma RemovedSets(before: Tree, ctx0: Ctx, t0: Tree, ctx: Ctx, t: Tree)
    requires Plug(ctx0, t0) == before && Distinct(before) && t0.Bin? && WithoutFocus(ctx0, t0, ctx, t)
    ensures CtxNodes(ctx) + Nodes(t) == Nodes(before) - {t0.n}
    ensures CtxNodes(ctx) <= Nodes(before) && Nodes(t) <= Nodes(before)
  {
    var rest := CtxNodes(ctx0) + Nodes(t0.l) + Nodes(t0.r);
    FocusNodes(ctx0, t0);
    hide Plug, Order, Distinct;
    assert CtxNodes(ctx) + Nodes(t) == rest;
  }

  lemma FocusNodes(ctx: Ctx, t: Tree)
    requires Distinct(Plug(ctx, t)) && t.Bin?
    ensures CtxNodes(ctx) + Nodes(t.l) + Nodes(t.r) == Nodes(Plug(ctx, t)) - {t.n}
  {
    PlugDistinct(ctx, t);
  }

  lemma RedRemoved(ctx: Ctx, t: Tree, x: Node?, root: Node?)
    requires ZipLinked(ctx, t, x, root) && Removing(ctx, t, Red)
    ensures WholeTree(Plug(ctx, t), root) && Nodes(Plug(ctx, t)) == CtxNodes(ctx) + Nodes(t)
  {
    PlugLinked(ctx, t, x, root);
  }

  lemma BlackRemoved(ctx: Ctx, t: Tree)
    requires Removing(ctx, t, Black)
    ensures !(t.Bin? && t.c.Red?) ==> Deleting(ctx, t)
    ensures t.Bin? && t.c.Red? ==> Finishing(ctx, t)
  {
    if !IsBlack(t) {
      PlugBalanced(ctx, WithColor(t, Black));
    }
  }

  lemma RemoveDone(before: Tree, ctx0: Ctx, t0: Tree, ctx: Ctx, t: Tree, after: Tree, first: Node?, last: Node?)
    requires Plug(ctx0, t0) == before && t0.Bin? && WithoutFocus(ctx0, t0, ctx, t) && Sorted(Order(before))
    requires Order(after) == Order(Plug(ctx, t))
    requires if FirstOf(Order(before)) == t0.n then Follows(Order(before), t0.n, first) else first == FirstOf(Order(before))
    requires if LastOf(Order(before)) == t0.n then Precedes(Order(before), last, t0.n) else last == LastOf(Order(before))
    ensures RemovedFrom(Order(before), t0.n, Order(after)) && Sorted(Order(after))
    ensures first == FirstOf(Order(after)) && last == LastOf(Order(after))
  {
    var a, b := Before(ctx0) + Order(t0.l), Order(t0.r) + After(ctx0);
    FocusOrder(ctx0, t0);
    hide Plug, Before, After, Order, Follows, Precedes, FirstOf, LastOf, Sorted, RemovedFrom;
    DropMiddle(a, t0.n, b);
    DropEnds(a, t0.n, b, first, last);
  }

  lemma DropMiddle(a: seq<Node>, n: Node, b: seq<Node>)
    requires Sorted(a + [n] + b)
    ensures RemovedFrom(a + [n] + b, n, a + b) && Sorted(a + b)
  {
    var s := a + [n] + b;
    assert s[..|a|] == a && s[|a| + 1..] == b && s[|a|] == n;
    SortedParts(a + [n], b);
    SortedParts(a, [n]);
    assert [n][0] == n;
  }

  lemma DropEnds(a: seq<Node>, n: Node, b: seq<Node>, first: Node?, last: Node?)
    requires Sorted(a + [n] + b)
    requires if FirstOf(a + [n] + b) == n then Follows(a + [n] + b, n, first) else first == FirstOf(a + [n] + b)
    requires if LastOf(a + [n] + b) == n then Precedes(a + [n] + b, last, n) else last == LastOf(a + [n] + b)
    ensures first == FirstOf(a + b) && last == LastOf(a + b)
  {
    var s := a + [n] + b;
    assert s[|a|] == n;
    if a != [] {
      assert s[0] == a[0] && s[0].key < s[|a|].key;
      assert s[|a| - 1] == a[|a| - 1];
    }
    if b != [] {
      assert s[|s| - 1] == b[|b| - 1] && s[|a|].key < s[|s| - 1].key;
      assert s[|a| + 1] == b[0];
    }
  }

  lemma SuccessorApart(path: Ctx, ctx: Ctx, l: Tree, x: Node, c: Color, y: Node, cy: Color, yr: Tree)
    requires ZipDistinct(Append(path, InRight(l, x, c, ctx)), Bin(Leaf, y, cy, yr)) && path.InLeft?
    ensures y != x && y !in CtxNodes(ctx) && y !in Nodes(l) && y !in Nodes(Plug(path, yr))
    ensures ParentOf(Append(path, InRight(l, x, c, ctx))) == ParentOf(path)
    ensures ParentSet(Append(path, InRight(l, x, c, ctx))) <= CtxNodes(path)
    ensures Plug(path, yr).Bin? && RootSet(Plug(path, yr)) <= CtxNodes(path)
    ensures ParentSet(ctx) <= CtxNodes(ctx) && RootSet(l) <= Nodes(l) && RootSet(yr) <= Nodes(yr)
  {
    AppendNodes(path, InRight(l, x, c, ctx));
    PlugDistinct(path, yr);
    PlugRoot(path, yr);
  }

  lemma {:induction false} PlugRoot(path: Ctx, t: Tree)
    requires !path.Top?
    ensures Plug(path, t).Bin? && Plug(path, t).n in CtxNodes(path)
    decreases path
  {
    if !path.up.Top? {
      PlugRoot(path.up, Raise(path, t));
    }
  }

  lemma ApartDrop(ctx: Ctx, l: Tree, x: Node, y: Node, c: Color, r: Tree)
    requires Apart(ctx, l, x, Leaf, y, r)
    ensures ZipDistinct(ctx, Bin(l, y, c, r))
  {
    assert Nodes(Bin(l, y, c, r)) == Nodes(l) + {y} + Nodes(r);
  }

  lemma LeafNode(node: Node)
    ensures Nodes(Bin(Leaf, node, Red, Leaf)) == {node} && Distinct(Bin(Leaf, node, Red, Leaf))
    ensures Linked(Bin(Leaf, node, Red, Leaf), node, node.parent)
       <==> node.color == Red && node.left == null && node.right == null
  {
  }

  // s' is s with node put in somewhere.
  ghost predicate InsertedInto(s: seq<Node>, node: Node, s': seq<Node>) {
    exists i :: 0 <= i <= |s| && s' == s[..i] + [node] + s[i..]
  }

  lemma InsertStart(shape: Tree, ctx: Ctx, node: Node)
    requires Plug(ctx, Leaf) == shape && Distinct(shape) && node !in Nodes(shape)
    requires Balanced(shape) && IsBlack(shape) && Sorted(Order(shape))
    ensures node !in CtxNodes(ctx) && CtxNodes(ctx) == Nodes(shape) && ParentSet(ctx) <= CtxNodes(ctx)
    ensures Order(shape) == Before(ctx) + After(ctx)
    ensures Inserting(ctx, Bin(Leaf, node, Red, Leaf))
  {
    PlugDistinct(ctx, Leaf);
    PlugOrder(ctx, Leaf);
    PlugBalanced(ctx, Leaf);
  }

  lemma InsertDone(before: Tree, ctx: Ctx, node: Node, ctx1: Ctx, t1: Tree, shape: Tree)
    requires Plug(ctx, Leaf) == before && Sorted(Order(before)) && Brackets(ctx, node.key)
    requires SameNodes(ctx, Bin(Leaf, node, Red, Leaf), ctx1, t1)
    requires Order(shape) == Order(Plug(ctx1, t1))
    ensures Order(shape) == Before(ctx) + [node] + After(ctx)
    ensures InsertedInto(Order(before), node, Order(shape)) && Sorted(Order(shape))
  {
    hide Sorted, InsertedInto, Before, After, Order, AllBelow, AllAbove, Plug;
    InsertOrder(before, ctx, node);
    SortedJoin(Before(ctx), node, After(ctx));
  }

  lemma InsertNodes(before: Tree, ctx: Ctx, node: Node, ctx1: Ctx, t1: Tree)
    requires CtxNodes(ctx) == Nodes(before) && SameNodes(ctx, Bin(Leaf, node, Red, Leaf), ctx1, t1)
    ensures CtxNodes(ctx1) + Nodes(t1) == Nodes(before) + {node}
  {
    LeafNode(node);
  }

  lemma InsertOrder(before: Tree, ctx: Ctx, node: Node)
    requires Plug(ctx, Leaf) == before
    ensures Order(before) == Before(ctx) + After(ctx)
    ensures Order(Plug(ctx, Bin(Leaf, node, Red, Leaf))) == Before(ctx) + [node] + After(ctx)
    ensures InsertedInto(Order(before), node, Before(ctx) + [node] + After(ctx))
  {
    PlugOrder(ctx, Leaf);
    PlugOrder(ctx, Bin(Leaf, node, Red, Leaf));
    var i := |Before(ctx)|;
    assert Order(before) == Before(ctx) + After(ctx);
    assert Order(before)[..i] == Before(ctx) && Order(before)[i..] == After(ctx);
  }

  lemma InOrderNodes(shape: Tree, i: nat)
    requires i < |Order(shape)|
    ensures Order(shape)[i] in Nodes(shape)
  {
    OrderNodes(shape);
  }

  ghost function FirstOf(s: seq<Node>): Node? {
    if s == [] then null else s[0]
  }

  ghost function LastOf(s: seq<Node>): Node? {
    if s == [] then null else s[|s| - 1]
  }

  lemma WholeZip(t: Tree, root: Node?)
    requires Linked(t, root, null) && Distinct(t)
    ensures ZipLinked(Top, t, root, root)
  {
  }

  lemma EmptyBrackets(key: int)
    ensures Brackets(Top, key)
  {
  }

  // Where a new node ends up in first position or last.
  lemma EndsAt(ctx: Ctx, node: Node)
    requires Sorted(Before(ctx) + After(ctx))
    ensures ctx.InLeft? ==>
      FirstOf(Before(ctx) + [node] + After(ctx)) == (if ctx.n == FirstOf(Before(ctx) + After(ctx)) then node else FirstOf(Before(ctx) + After(ctx)))
    ensures ctx.InLeft? ==> LastOf(Before(ctx) + [node] + After(ctx)) == LastOf(Before(ctx) + After(ctx))
    ensures ctx.InRight? ==>
      LastOf(Before(ctx) + [node] + After(ctx)) == (if ctx.n == LastOf(Before(ctx) + After(ctx)) then node else LastOf(Before(ctx) + After(ctx)))
    ensures ctx.InRight? ==> FirstOf(Before(ctx) + [node] + After(ctx)) == FirstOf(Before(ctx) + After(ctx))
  {
    SortedParts(Before(ctx), After(ctx));
    if ctx.InLeft? {
      assert After(ctx)[0] == ctx.n;
    } else if ctx.InRight? {
      assert Before(ctx)[|Before(ctx)| - 1] == ctx.n;
    }
  }

  lemma InsertingRed(ctx: Ctx, t: Tree)
    requires Inserting(ctx, t)
    ensures t.Bin? && t.c.Red?
  {
  }

  lemma SameNodesReflexive(ctx: Ctx, t: Tree)
    ensures SameNodes(ctx, t, ctx, t)
  {
  }

  lemma SameNodesSets(ctx: Ctx, t: Tree, ctx': Ctx, t': Tree)
    requires SameNodes(ctx, t, ctx', t')
    ensures CtxNodes(ctx') <= CtxNodes(ctx) + Nodes(t) && Nodes(t') <= CtxNodes(ctx) + Nodes(t)
  {
  }

  lemma RootLinked(ctx: Ctx, t: Tree, x: Node?, root: Node?)
    requires ZipLinked(ctx, t, x, root)
    ensures x == RootOf(t)
  {
  }

  lemma SiblingBin(ctx: Ctx, t: Tree)
    requires Deleting(ctx, t) && !ctx.Top?
    ensures Sibling(ctx).Bin?
  {
  }

  // The sibling's fields.
  lemma SiblingFields(ctx: Ctx, t: Tree, x: Node?, root: Node?)
    requires ZipLinked(ctx, t, x, root) && !ctx.Top? && Sibling(ctx).Bin?
    ensures var s := Sibling(ctx);
      && (ctx.InLeft? ==> ctx.n.right == s.n) && (ctx.InRight? ==> ctx.n.left == s.n)
      && s.n.color == s.c && s.n.left == RootOf(s.l) && s.n.right == RootOf(s.r)
      && (s.l.Bin? ==> s.l.n.color == s.l.c) && (s.r.Bin? ==> s.r.n.color == s.r.c)
      && (IsBlack(s.l) <==> s.n.left == null || s.n.left.color.Black?)
      && (IsBlack(s.r) <==> s.n.right == null || s.n.right.color.Black?)
  {
    var s := Sibling(ctx);
    assert Linked(s, s.n, ctx.n);
    assert Linked(s.l, s.n.left, s.n) && Linked(s.r, s.n.right, s.n);
  }

  lemma WholeFinishing(ctx: Ctx, t: Tree, x: Node?, root: Node?)
    requires ZipLinked(ctx, t, x, root) && Balanced(Plug(ctx, t)) && IsBlack(Plug(ctx, t))
    ensures ZipLinked(Top, Plug(ctx, t), root, root) && Finishing(Top, Plug(ctx, t))
    ensures SameNodes(ctx, t, Top, Plug(ctx, t))
  {
    PlugLinked(ctx, t, x, root);
  }

  // r comes right after n in s, or n is last and r is null.
  ghost predicate Follows(s: seq<Node>, n: Node, r: Node?) {
    forall i :: 0 <= i < |s| && s[i] == n ==> r == if i + 1 < |s| then s[i + 1] else null
  }

  lemma FollowsAt(s: seq<Node>, i: nat, r: Node?)
    requires i < |s| && Follows(s, s[i], r)
    ensures r == if i + 1 < |s| then s[i + 1] else null
  {}

  // r comes right before n in s, or n is first and r is null.
  ghost predicate Precedes(s: seq<Node>, r: Node?, n: Node) {
    forall i :: 0 <= i < |s| && s[i] == n ==> r == if i > 0 then s[i - 1] else null
  }

  lemma AroundMiddle(a: seq<Node>, n: Node, b: seq<Node>)
    requires Sorted(a + [n] + b)
    ensures Follows(a + [n] + b, n, FirstOf(b)) && Precedes(a + [n] + b, LastOf(a), n)
  {
    var s := a + [n] + b;
    assert s[|a|] == n;
    assert forall i :: 0 <= i < |s| && s[i] == n ==> i == |a|;
  }

  lemma FollowsFocus(shape: Tree, ctx: Ctx, t: Tree)
    requires Plug(ctx, t) == shape && t.Bin? && Sorted(Order(shape))
    ensures Follows(Order(shape), t.n, FirstOf(Order(t.r) + After(ctx)))
    ensures Precedes(Order(shape), LastOf(Before(ctx) + Order(t.l)), t.n)
  {
    hide Sorted, Follows, Precedes;
    FocusOrder(ctx, t);
    AroundMiddle(Before(ctx) + Order(t.l), t.n, Order(t.r) + After(ctx));
  }

  lemma FocusOrder(ctx: Ctx, t: Tree)
    requires t.Bin?
    ensures Order(Plug(ctx, t)) == (Before(ctx) + Order(t.l)) + [t.n] + (Order(t.r) + After(ctx))
  {
    PlugOrder(ctx, t);
    hide Plug, Before, After;
    RegroupMiddle(Before(ctx), Order(t.l), [t.n], Order(t.r), After(ctx));
  }

  lemma RegroupMiddle<T>(a: seq<T>, b: seq<T>, m: seq<T>, c: seq<T>, d: seq<T>)
    ensures a + (b + m + c) + d == (a + b) + m + (c + d)
  {
  }

  // A whole, well-formed red-black tree below the given root.
  ghost predicate WholeTree(t: Tree, root: Node?)
    reads Nodes(t)
  {
    Linked(t, root, null) && Distinct(t) && Balanced(t) && IsBlack(t)
  }

  lemma TopFinishing(ctx: Ctx, t: Tree, x: Node?, root: Node?)
    requires ZipLinked(ctx, t, x, root) && Deleting(ctx, t) && x == root
    ensures Finishing(ctx, t)
  {
    RootIsTop(ctx, x, root);
  }

  lemma NotTop(ctx: Ctx, t: Tree, x: Node?, root: Node?)
    requires ZipLinked(ctx, t, x, root) && x != root
    ensures !ctx.Top?
  {
  }

  lemma SameNodesWhole(ctx: Ctx, t: Tree, ctx': Ctx, t': Tree)
    requires SameNodes(ctx, t, ctx', t')
    ensures Order(Plug(ctx', t')) == Order(Plug(ctx, t)) && CtxNodes(ctx') + Nodes(t') == CtxNodes(ctx) + Nodes(t)
  {
  }
}
