// Address spaces as sets of disjoint page-aligned areas: kernel/mm/vmm_as.c, kernel/mm/vmm_map.c.
module AddressSpaces {
  import opened Sequences
  import opened RbShape
  import opened RbLinks
  import opened RbTree

  const PAGE_SIZE: int := 4096
  const WORD: int := 0x1_0000_0000_0000_0000
  const USER_START: int := 0x0000_0000_0040_0000
  const USER_STACK_TOP: int := 0x0000_7FFF_FF00_0000

  const OK: int := 0
  const ENOENT: int := -2
  const EIO: int := -5
  const ENOMEM: int := -12
  const EFAULT: int := -14
  const EINVAL: int := -22

  // An area is a non-empty page-aligned interval of 64-bit addresses.
  ghost predicate AreaOk(n: Node) {
    0 <= n.key < n.end < WORD && n.key % PAGE_SIZE == 0 && n.end % PAGE_SIZE == 0
  }

  ghost predicate Describes(n: Node, start: int, end: int, prot: int, flags: int) {
    n.key == start && n.end == end && n.prot == prot && n.flags == flags
  }

  // A non-empty page-aligned interval.
  ghost predicate Aligned(start: int, end: int) {
    start < end && start % PAGE_SIZE == 0 && end % PAGE_SIZE == 0
  }

  ghost predicate AllOk(s: seq<Node>) {
    forall i :: 0 <= i < |s| ==> AreaOk(s[i])
  }

  // Areas in address order that do not overlap.
  ghost predicate Disjoint(s: seq<Node>) {
    forall i, j :: 0 <= i < j < |s| ==> s[i].end <= s[j].key
  }

  // [start, end) overlaps no area of s.
  ghost predicate Free(s: seq<Node>, start: int, end: int) {
    forall i :: 0 <= i < |s| ==> s[i].end <= start || end <= s[i].key
  }

  // r is the first area of s that starts at or after addr.
  ghost predicate FirstAtLeast(s: seq<Node>, addr: int, r: Node?) {
    if r == null then AllBelow(s, addr)
    else exists i :: 0 <= i < |s| && s[i] == r && addr <= r.key && AllBelow(s[..i], addr)
  }

  // r is the last area of s that starts at or before addr.
  ghost predicate LastAtMost(s: seq<Node>, addr: int, r: Node?) {
    if r == null then AllAbove(s, addr)
    else exists i :: 0 <= i < |s| && s[i] == r && r.key <= addr && AllAbove(s[i + 1..], addr)
  }

  // vma_rb_find_ge
  method FindGe(tree: RbTree, addr: int) returns (candidate: Node?)
    requires tree.Sound()
    ensures FirstAtLeast(Order(tree.shape), addr, candidate)
    ensures candidate != null ==> candidate in Nodes(tree.shape)
  {
    hide ZipLinked, Sorted, FirstAtLeast, AllBelow, AllAbove;
    ghost var ctx, t := Top, tree.shape;
    WholeZip(t, tree.root);
    EmptyBounds(addr);
    var cur := tree.root;
    candidate := null;
    while cur != null
      invariant ZipLinked(ctx, t, cur, tree.root) && Plug(ctx, t) == tree.shape
      invariant AllBelow(Before(ctx), addr) && AllAbove(After(ctx), addr - 1)
      invariant candidate == FirstOf(After(ctx))
      decreases t
    {
      AroundFocus(ctx, t, cur, tree.root);
      if cur.key >= addr {
        AboveLeft(ctx, t, addr - 1);
        DownLeft(ctx, cur, t.c, t.r, t.l, tree.root);
        candidate := cur;
        ctx, t, cur := InLeft(ctx, cur, t.c, t.r), t.l, cur.left;
      } else {
        BelowRight(ctx, t, addr);
        DownRight(t.l, cur, t.c, ctx, t.r, tree.root);
        ctx, t, cur := InRight(t.l, cur, t.c, ctx), t.r, cur.right;
      }
    }
    AroundFocus(ctx, t, cur, tree.root);
    FoundGe(tree.shape, ctx, addr);
  }

  // vma_rb_find_le
  method FindLe(tree: RbTree, addr: int) returns (candidate: Node?)
    requires tree.Sound()
    ensures LastAtMost(Order(tree.shape), addr, candidate)
    ensures candidate != null ==> candidate in Nodes(tree.shape)
  {
    hide ZipLinked, Sorted, LastAtMost, AllBelow, AllAbove;
    ghost var ctx, t := Top, tree.shape;
    WholeZip(t, tree.root);
    EmptyBounds(addr);
    var cur := tree.root;
    candidate := null;
    while cur != null
      invariant ZipLinked(ctx, t, cur, tree.root) && Plug(ctx, t) == tree.shape
      invariant AllBelow(Before(ctx), addr + 1) && AllAbove(After(ctx), addr)
      invariant candidate == LastOf(Before(ctx))
      decreases t
    {
      AroundFocus(ctx, t, cur, tree.root);
      if cur.key <= addr {
        BelowRight(ctx, t, addr + 1);
        DownRight(t.l, cur, t.c, ctx, t.r, tree.root);
        candidate := cur;
        ctx, t, cur := InRight(t.l, cur, t.c, ctx), t.r, cur.right;
      } else {
        AboveLeft(ctx, t, addr);
        DownLeft(ctx, cur, t.c, t.r, t.l, tree.root);
        ctx, t, cur := InLeft(ctx, cur, t.c, t.r), t.l, cur.left;
      }
    }
    AroundFocus(ctx, t, cur, tree.root);
    FoundLe(tree.shape, ctx, addr);
  }

  lemma EmptyBounds(addr: int)
    ensures AllBelow([], addr) && AllBelow([], addr + 1) && AllAbove([], addr) && AllAbove([], addr - 1)
  {
  }

  lemma AboveLeft(ctx: Ctx, t: Tree, k: int)
    requires t.Bin? && Sorted(Order(Plug(ctx, t))) && AllAbove(After(ctx), k) && k < t.n.key
    ensures AllAbove(After(InLeft(ctx, t.n, t.c, t.r)), k) && FirstOf(After(InLeft(ctx, t.n, t.c, t.r))) == t.n
  {
    SortedAround(ctx, t);
  }

  lemma BelowRight(ctx: Ctx, t: Tree, k: int)
    requires t.Bin? && Sorted(Order(Plug(ctx, t))) && AllBelow(Before(ctx), k) && t.n.key < k
    ensures AllBelow(Before(InRight(t.l, t.n, t.c, ctx)), k) && LastOf(Before(InRight(t.l, t.n, t.c, ctx))) == t.n
  {
    SortedAround(ctx, t);
  }

  lemma LeafParts(shape: Tree, ctx: Ctx)
    requires Plug(ctx, Leaf) == shape
    ensures Order(shape) == Before(ctx) + After(ctx)
    ensures FirstOf(After(ctx)) != null ==> FirstOf(After(ctx)) in Nodes(shape)
    ensures LastOf(Before(ctx)) != null ==> LastOf(Before(ctx)) in Nodes(shape)
  {
    PlugOrder(ctx, Leaf);
    OrderNodes(shape);
    hide Plug, Before, After;
    assert Order(shape) == Before(ctx) + After(ctx);
    assert forall n :: n in Before(ctx) || n in After(ctx) ==> n in Order(shape);
  }

  lemma FoundGe(shape: Tree, ctx: Ctx, addr: int)
    requires Plug(ctx, Leaf) == shape && AllBelow(Before(ctx), addr) && AllAbove(After(ctx), addr - 1)
    ensures FirstAtLeast(Order(shape), addr, FirstOf(After(ctx)))
    ensures FirstOf(After(ctx)) != null ==> FirstOf(After(ctx)) in Nodes(shape)
  {
    LeafParts(shape, ctx);
    hide Plug, Before, After, Nodes, Order;
    var a, b := Before(ctx), After(ctx);
    if b != [] {
      assert (a + b)[|a|] == b[0] && (a + b)[..|a|] == a;
    } else {
      assert a + b == a;
    }
  }

  lemma FoundLe(shape: Tree, ctx: Ctx, addr: int)
    requires Plug(ctx, Leaf) == shape && AllBelow(Before(ctx), addr + 1) && AllAbove(After(ctx), addr)
    ensures LastAtMost(Order(shape), addr, LastOf(Before(ctx)))
    ensures LastOf(Before(ctx)) != null ==> LastOf(Before(ctx)) in Nodes(shape)
  {
    LeafParts(shape, ctx);
    hide Plug, Before, After, Nodes, Order;
    var a, b := Before(ctx), After(ctx);
    if a != [] {
      assert (a + b)[|a| - 1] == a[|a| - 1] && (a + b)[|a|..] == b;
    } else {
      assert a + b == b;
    }
  }

  // ---- what the neighbours decide ----

  // Testing the successor and its predecessor, or the last area, decides overlap with all.
  lemma NeighboursDecide(s: seq<Node>, start: int, end: int, next: Node?, prev: Node?)
    requires Sorted(s) && Disjoint(s) && AllOk(s) && start < end
    requires FirstAtLeast(s, start, next)
    requires if next != null then Precedes(s, prev, next) else prev == LastOf(s)
    ensures Free(s, start, end) <==> (next == null || end <= next.key) && (prev == null || prev.end <= start)
  {
    if next == null {
      if s != [] {
        assert AreaOk(s[|s| - 1]);
      }
    } else {
      var i :| 0 <= i < |s| && s[i] == next && start <= next.key && AllBelow(s[..i], start);
      assert AreaOk(s[i]);
      assert i > 0 ==> s[i - 1] == s[..i][i - 1] && AreaOk(s[i - 1]);
    }
  }

  // A free interval put in key order keeps the areas disjoint.
  lemma InsertDisjoint(s: seq<Node>, n: Node, s': seq<Node>)
    requires InsertedInto(s, n, s') && Sorted(s') && Disjoint(s) && AllOk(s) && AreaOk(n) && Free(s, n.key, n.end)
    ensures Disjoint(s') && AllOk(s')
  {
    var i :| 0 <= i <= |s| && s' == s[..i] + [n] + s[i..];
    InsertSides(s, n, i);
    hide Sorted, Free, AreaOk, InsertedInto;
    forall j | 0 <= j < |s'|
      ensures s'[j] == if j < i then s[j] else if j == i then n else s[j - 1]
      ensures AreaOk(s'[j])
    {
    }
    forall j, k | 0 <= j < k < |s'|
      ensures s'[j].end <= s'[k].key
    {
    }
  }

  lemma InsertSides(s: seq<Node>, n: Node, i: int)
    requires 0 <= i <= |s| && Sorted(s[..i] + [n] + s[i..]) && AllOk(s) && AreaOk(n) && Free(s, n.key, n.end)
    ensures forall j :: 0 <= j < i ==> s[j].end <= n.key
    ensures forall j :: i <= j < |s| ==> n.end <= s[j].key
  {
    var s' := s[..i] + [n] + s[i..];
    assert s'[i] == n;
    forall j | 0 <= j < i
      ensures s[j].end <= n.key
    {
      assert s'[j] == s[j] && s'[j].key < s'[i].key;
    }
    forall j | i <= j < |s|
      ensures n.end <= s[j].key
    {
      assert s'[j + 1] == s[j] && s'[i].key < s'[j + 1].key && AreaOk(s[j]);
    }
  }

  lemma RemoveDisjoint(s: seq<Node>, n: Node, s': seq<Node>)
    requires RemovedFrom(s, n, s') && Disjoint(s) && AllOk(s)
    ensures Disjoint(s') && AllOk(s')
  {
    var i :| 0 <= i < |s| && s[i] == n && s' == s[..i] + s[i + 1..];
    forall j | 0 <= j < |s'|
      ensures AreaOk(s'[j])
    {
      RemovedAt(s, i, j);
    }
    forall j, k | 0 <= j < k < |s'|
      ensures s'[j].end <= s'[k].key
    {
      RemovedAt(s, i, j);
      RemovedAt(s, i, k);
    }
  }

  lemma RemovedAt(s: seq<Node>, i: int, j: int)
    requires 0 <= i < |s| && 0 <= j < |s| - 1
    ensures (s[..i] + s[i + 1..])[j] == s[if j < i then j else j + 1]
  {
  }

  lemma {:induction false} AppendMember(s: seq<Node>, n: Node)
    requires NoRepeats(s) && n !in Members(s)
    ensures NoRepeats(s + [n])
    ensures Members(s + [n]) == Members(s) + {n}
  {
    if s == [] {
      assert (s + [n])[1..] == [];
    } else {
      AppendMember(s[1..], n);
      assert (s + [n])[1..] == s[1..] + [n];
      assert n !in Members(s[1..]);
      assert s[0] !in Members(s[1..] + [n]);
    }
  }

  class AddressSpace {
    const tree: RbTree
    var list: seq<Node>

    // The tree and the list hold the same areas, which are well formed and pairwise disjoint.
    ghost predicate Valid()
      reads this, tree, Nodes(tree.shape)
    {
      && tree.Valid() && AllOk(Order(tree.shape)) && Disjoint(Order(tree.shape))
      && NoRepeats(list) && Members(list) == Nodes(tree.shape)
    }

    // as_create
    constructor ()
      ensures Valid() && list == [] && fresh(tree) && tree.shape == Leaf
    {
      tree := new RbTree();
      list := [];
    }

    // The overlap test of vma_add: the successor of start and its predecessor, or the last area.
    method Overlaps(start: int, end: int) returns (overlap: bool)
      requires Valid() && start < end
      ensures overlap <==> !Free(Order(tree.shape), start, end)
    {
      hide Sorted, Disjoint, AllOk, Free, FirstAtLeast, Precedes, Linked, Balanced;
      assert allocated(Nodes(tree.shape));
      var next := FindGe(tree, start);
      if next != null {
        var prev := tree.Prev(next);
        NeighboursDecide(Order(tree.shape), start, end, next, prev);
        if next.key < end {
          return true;
        }
        return prev != null && prev.end > start;
      } else {
        var last := tree.last;
        NeighboursDecide(Order(tree.shape), start, end, next, last);
        return last != null && last.end > start;
      }
    }

    // vma_add; allocOk tells whether the heap has room for the descriptor.
    method AddVma(start: int, end: int, prot: int, flags: int, allocOk: bool) returns (ret: int, ghost area: Node?)
      requires Valid() && 0 <= start < WORD && 0 <= end < WORD
      modifies this, tree, Nodes(tree.shape)
      ensures Valid()
      ensures ret == EINVAL <==> !(Aligned(start, end) && Free(old(Order(tree.shape)), start, end))
      ensures ret != EINVAL ==> ret == if allocOk then OK else ENOMEM
      ensures ret == if !(start < end && start % 4096 == 0 && end % 4096 == 0 && Free(old(Order(tree.shape)), start, end)) then -22
                     else if !allocOk then -12 else 0
      ensures ret != OK ==> list == old(list) && tree.shape == old(tree.shape)
      ensures ret == OK ==> area != null && fresh(area) && Describes(area, start, end, prot, flags)
      ensures ret == OK ==> list == old(list) + [area] && Nodes(tree.shape) == old(Nodes(tree.shape)) + {area}
    {
      area := null;
      if start >= end {
        return EINVAL, null;
      }
      if start % PAGE_SIZE != 0 || end % PAGE_SIZE != 0 {
        return EINVAL, null;
      }
      hide Sorted, Disjoint, AllOk, Free, Linked, Balanced, Distinct, NoRepeats, InsertedInto, FirstOf, LastOf, Order, Nodes,
        WholeTree;
      assert allocated(Nodes(tree.shape));
      var overlap := Overlaps(start, end);
      if overlap {
        return EINVAL, null;
      }
      if !allocOk {
        return ENOMEM, null;
      }
      ghost var before := Order(tree.shape);
      ghost var nodes := Nodes(tree.shape);
      var vma := new Node(start, end, prot, flags);
      var exist := tree.Insert(vma);
      if exist != null {
        FreeKeyAbsent(tree.shape, start, end, exist);
        return EINVAL, null;
      }
      InsertDisjoint(before, vma, Order(tree.shape));
      AppendMember(list, vma);
      list := list + [vma];
      return OK, vma;
    }

    // vma_find: the area that holds addr
    method FindVma(addr: int) returns (r: Node?)
      requires Valid()
      ensures r != null ==> r in Nodes(tree.shape) && Holds(r, addr)
      ensures r == null ==> forall n :: n in Nodes(tree.shape) ==> !Holds(n, addr)
    {
      hide Sorted, Disjoint, AllOk, Linked, Balanced, LastAtMost;
      assert allocated(Nodes(tree.shape));
      var candidate := FindLe(tree, addr);
      OnlyCandidate(tree.shape, addr, candidate);
      if candidate != null && addr < candidate.end {
        return candidate;
      }
      return null;
    }

    // vma_remove
    method RemoveVma(vma: Node)
      requires Valid() && vma in Nodes(tree.shape)
      modifies this, tree, Nodes(tree.shape)
      ensures Valid()
      ensures list == Without(old(list), vma) && Nodes(tree.shape) == old(Nodes(tree.shape)) - {vma}
    {
      hide Sorted, Disjoint, AllOk, Linked, Balanced, Distinct, NoRepeats, RemovedFrom, FirstOf, LastOf, Order, Nodes, WholeTree;
      ghost var before := Order(tree.shape);
      WithoutMembers(list, vma);
      list := Without(list, vma);
      tree.Remove(vma);
      RemoveDisjoint(before, vma, Order(tree.shape));
    }

    // as_unmap, its interval part
    method Unmap(addr: int) returns (ret: int, ghost gone: Node?)
      requires Valid()
      modifies this, tree, Nodes(tree.shape)
      ensures Valid()
      ensures ret == ENOENT <==> forall n :: n in old(Nodes(tree.shape)) ==> !Holds(n, addr)
      ensures ret == ENOENT ==> list == old(list) && tree.shape == old(tree.shape)
      ensures ret != ENOENT ==> ret == OK && gone in old(Nodes(tree.shape)) && Holds(gone, addr)
      ensures ret != ENOENT ==> Nodes(tree.shape) == old(Nodes(tree.shape)) - {gone}
    {
      assert allocated(Nodes(tree.shape));
      var vma := FindVma(addr);
      gone := vma;
      if vma == null {
        return ENOENT, null;
      }
      RemoveVma(vma);
      return OK, vma;
    }

    // as_alloc_addr in 64-bit arithmetic; 0 means failure
    method AllocAddr(size: int) returns (start: int)
      requires Valid() && 0 <= size < WORD
      ensures 0 <= start < WORD && start % PAGE_SIZE == 0
      ensures start != 0 ==> forall end :: start < end ==> Free(Order(tree.shape), start, end)
      ensures start != 0 && size % PAGE_SIZE == 0 ==> (start + size) % WORD <= USER_STACK_TOP
      ensures size > 0 && size % PAGE_SIZE == 0 && NextStart(tree.last) + size <= USER_STACK_TOP ==> start == NextStart(tree.last)
      ensures start == Room(tree.last, size)
    {
      hide Sorted, Disjoint, AllOk, Linked, Balanced, Free, Distinct, WholeTree, NoRepeats, Members, RoundUp;
      if size == 0 {
        return 0;
      }
      var total := RoundUp(size);
      var last := tree.last;
      if last == null {
        start := USER_START;
      } else {
        LastArea(tree.shape, last);
        start := RoundUp((last.end + 4096) % WORD);
        PageBorder(last.end);
      }
      RoomWithin(last, size);
      if (start + total) % WORD > USER_STACK_TOP {
        return 0;
      }
      PastTheEnd(Order(tree.shape), start);
    }

    // vmm_map_anon, the choice of the address
    method ChooseAddr(addr0: int, size: int) returns (err: int, addr: int)
      requires Valid() && 0 <= addr0 < WORD && 0 <= size < WORD && size % PAGE_SIZE == 0
      ensures 0 <= addr < WORD && (addr0 != 0 ==> addr == addr0)
      ensures err == OK ==> (addr + size) % WORD <= USER_STACK_TOP && (addr0 != 0 ==> addr0 >= USER_START)
      ensures addr0 == 0 ==> err == OK || err == ENOMEM
      ensures addr0 != 0 ==> err == OK || err == EFAULT || err == EINVAL
      ensures addr0 == 0 && err == OK ==> forall end :: addr < end ==> Free(Order(tree.shape), addr, end)
      ensures addr0 == 0 && size > 0 && NextStart(tree.last) + size <= USER_STACK_TOP ==>
                err == OK && addr == NextStart(tree.last) > 0 && addr % PAGE_SIZE == 0
      ensures addr0 >= USER_START && addr0 % PAGE_SIZE == 0 && addr0 + size <= USER_STACK_TOP ==> err == OK
      ensures addr == Chosen(tree.last, addr0, size) && err == Refusal(tree.last, addr0, size)
    {
      hide Sorted, Disjoint, AllOk, Linked, Balanced, Free, Distinct, WholeTree, NoRepeats, Members, Order, Nodes;
      addr := addr0;
      if addr == 0 {
        if tree.last != null {
          LastArea(tree.shape, tree.last);
        }
        addr := AllocAddr(size);
        if addr == 0 {
          return ENOMEM, addr;
        }
      } else {
        if addr < USER_START || (addr + size) % WORD > USER_STACK_TOP {
          return EFAULT, addr;
        }
        if addr % PAGE_SIZE != 0 {
          return EINVAL, addr;
        }
      }
      return OK, addr;
    }

    // vmm_map_anon from vma_add on: descOk and heapOk tell whether the heap has room, mapRet is
    // what the page-table code returns.
    method Install(start: int, end: int, prot: int, flags: int, alloc: bool, descOk: bool, heapOk: bool, mapRet: int)
      returns (err: int, ghost area: Node?)
      requires Valid() && 0 <= start < WORD && 0 <= end < WORD
      modifies this, tree, Nodes(tree.shape)
      ensures Valid()
      ensures err == EIO ==> alloc && mapRet == EIO
      ensures descOk && (alloc ==> heapOk && mapRet >= 0) ==>
                (err == OK <==> Aligned(start, end) && Free(old(Order(tree.shape)), start, end))
      ensures err == Installed(old(Order(tree.shape)), start, end, alloc, descOk, heapOk, mapRet)
      ensures err == OK ==> area != null && Describes(area, start, end, prot, flags) && start < end
      ensures err == OK ==> list == old(list) + [area] && Nodes(tree.shape) == old(Nodes(tree.shape)) + {area}
      ensures err != OK ==> list == old(list) && Nodes(tree.shape) == old(Nodes(tree.shape))
    {
      hide Sorted, Disjoint, AllOk, Linked, Balanced, Free, Distinct, WholeTree, NoRepeats, Members, Order, Nodes;
      assert allocated(Nodes(tree.shape));
      ghost var nodes := Nodes(tree.shape);
      var ret;
      ret, area := AddVma(start, end, prot, flags, descOk);
      if ret < 0 {
        return ret, null;
      }
      assert Holds(area, start);
      var vma := FindVma(start);
      if vma == null {
        return EIO, null;
      }
      UniqueArea(tree.shape, start, vma, area);
      if alloc {
        WithoutAppended(old(list), vma, nodes);
        if !heapOk {
          RemoveVma(vma);
          return ENOMEM, null;
        }
        if mapRet < 0 {
          RemoveVma(vma);
          return mapRet, null;
        }
      }
      return OK, area;
    }

    // vmm_map_anon, its interval part with rollback
    method MapAnon(addr0: int, pages: int, prot: int, flags: int, alloc: bool, descOk: bool, heapOk: bool, mapRet: int)
      returns (err: int, addr: int, ghost area: Node?)
      requires Valid() && 0 <= addr0 < WORD && 0 <= pages < WORD
      modifies this, tree, Nodes(tree.shape)
      ensures Valid()
      ensures err == EIO ==> alloc && mapRet == EIO
      ensures Requestable(addr0, pages) && descOk && (alloc ==> heapOk && mapRet >= 0) ==>
                (err == OK <==> Free(old(Order(tree.shape)), addr0, addr0 + ByteSize(pages)))
      ensures addr0 == 0 && ByteSize(pages) > 0 && NextStart(old(tree.last)) + ByteSize(pages) <= USER_STACK_TOP && descOk ==>
                (alloc ==> heapOk && mapRet >= 0) ==> err == OK
      ensures err == OK ==> area != null && Describes(area, addr, addr + ByteSize(pages), prot, flags)
      ensures err == OK ==> list == old(list) + [area] && Nodes(tree.shape) == old(Nodes(tree.shape)) + {area}
      ensures err == OK ==> area.end <= USER_STACK_TOP && (addr0 != 0 ==> addr == addr0 >= USER_START)
      ensures err != OK ==> list == old(list) && Nodes(tree.shape) == old(Nodes(tree.shape))
      ensures pages == 0 ==> err == -22
      ensures pages > 0 ==>
        var size := pages * 4096 % 0x1_0000_0000_0000_0000;
        && addr == Chosen(old(tree.last), addr0, size)
        && err == (if Refusal(old(tree.last), addr0, size) != 0 then Refusal(old(tree.last), addr0, size)
                   else Installed(old(Order(tree.shape)), addr, (addr + size) % 0x1_0000_0000_0000_0000, alloc, descOk, heapOk, mapRet))
    {
      hide Sorted, Disjoint, AllOk, Linked, Balanced, Free, Distinct, WholeTree, NoRepeats, Members, Order, Nodes,
        ByteSize, Chosen, Refusal, Installed;
      if pages == 0 {
        return EINVAL, addr0, null;
      }
      assert allocated(Nodes(tree.shape));
      var size := ByteSize(pages);
      BytesOf(pages);
      err, addr := ChooseAddr(addr0, size);
      if err != OK {
        return err, addr, null;
      }
      err, area := Install(addr, (addr + size) % WORD, prot, flags, alloc, descOk, heapOk, mapRet);
    }
  }

  // The two areas cover the same interval with the same attributes.
  ghost predicate SameArea(a: Node, b: Node) {
    Describes(a, b.key, b.end, b.prot, b.flags)
  }

  // The areas copied so far, in list order.
  ghost predicate CopiedUpTo(from: seq<Node>, to: seq<Node>, k: nat) {
    |to| == k <= |from| && forall j :: 0 <= j < k ==> SameArea(to[j], from[j])
  }

  // vmm_copy_as, its interval part: createOk tells whether a new space can be made,
  // descOk(i) and fileOk(i) whether the descriptor of the i-th area can be allocated and its file
  // opened again.
  method CopyAs(src: AddressSpace, createOk: bool, descOk: nat -> bool, fileOk: nat -> bool) returns (copy: AddressSpace?)
    requires src.Valid()
    ensures src.Valid() && src.list == old(src.list)
    ensures copy != null ==> fresh(copy) && copy.Valid() && CopiedUpTo(src.list, copy.list, |src.list|)
    ensures copy != null <==> createOk && forall i: nat :: i < |src.list| ==> descOk(i) && fileOk(i)
  {
    hide Sorted, Disjoint, AllOk, Linked, Balanced, Free, Distinct, WholeTree, NoRepeats, Order, Nodes;
    if !createOk {
      return null;
    }
    assert allocated(Nodes(src.tree.shape));
    var dst := new AddressSpace();
    var i := 0;
    while i < |src.list|
      invariant 0 <= i <= |src.list| && src.list == old(src.list) && src.Valid()
      invariant fresh(dst) && fresh(dst.tree) && fresh(Nodes(dst.tree.shape)) && dst.Valid()
      invariant CopiedUpTo(src.list, dst.list, i)
      invariant forall j: nat :: j < i ==> descOk(j) && fileOk(j)
    {
      var vma := src.list[i];
      CopyIsFree(src, dst, i);
      assert allocated(Nodes(src.tree.shape)) && allocated(Nodes(dst.tree.shape));
      var ret, area := dst.AddVma(vma.key, vma.end, vma.prot, vma.flags, descOk(i));
      if ret < 0 {
        return null;
      }
      assert Holds(area, vma.key);
      var found := dst.FindVma(vma.key);
      if found == null {
        return null;
      }
      if !fileOk(i) {
        return null;
      }
      i := i + 1;
    }
    copy := dst;
  }

  // An area still to be copied overlaps none of those copied before it.
  lemma CopyIsFree(src: AddressSpace, dst: AddressSpace, i: nat)
    requires src.Valid() && dst.Valid() && i < |src.list| && CopiedUpTo(src.list, dst.list, i)
    ensures AreaOk(src.list[i]) && Free(Order(dst.tree.shape), src.list[i].key, src.list[i].end)
  {
    var vma := src.list[i];
    assert vma in Members(src.list);
    InOrder(src.tree.shape, vma);
    forall k | 0 <= k < |Order(dst.tree.shape)|
      ensures Order(dst.tree.shape)[k].end <= vma.key || vma.end <= Order(dst.tree.shape)[k].key
    {
      var n := Order(dst.tree.shape)[k];
      OrderNodes(dst.tree.shape);
      assert n in Members(dst.list);
      var j :| 0 <= j < |dst.list| && dst.list[j] == n;
      assert SameArea(dst.list[j], src.list[j]);
      assert src.list[j] in Members(src.list);
      DistinctEntries(src.list, j, i);
      ApartAreas(src.tree.shape, src.list[j], vma);
    }
  }

  lemma InOrder(shape: Tree, n: Node)
    requires n in Nodes(shape) && AllOk(Order(shape))
    ensures n in Order(shape) && AreaOk(n)
  {
    OrderNodes(shape);
    var i :| 0 <= i < |Order(shape)| && Order(shape)[i] == n;
    assert AreaOk(Order(shape)[i]);
  }

  lemma ApartAreas(shape: Tree, a: Node, b: Node)
    requires a in Nodes(shape) && b in Nodes(shape) && a != b && Disjoint(Order(shape))
    ensures a.end <= b.key || b.end <= a.key
  {
    OrderNodes(shape);
    var s := Order(shape);
    var i :| 0 <= i < |s| && s[i] == a;
    var j :| 0 <= j < |s| && s[j] == b;
    assert i < j ==> s[i].end <= s[j].key;
    assert j < i ==> s[j].end <= s[i].key;
  }

  // Rounding up to whole pages in 64-bit arithmetic; aligned values are kept.
  function RoundUp(x: int): (r: int)
    requires 0 <= x < WORD
    ensures 0 <= r < WORD && r % PAGE_SIZE == 0
    ensures x % PAGE_SIZE == 0 ==> r == x
  {
    (x + PAGE_SIZE - 1) % WORD / PAGE_SIZE * PAGE_SIZE
  }

  // The least multiple of a page that is no less, or 0 if that leaves 64 bits.
  lemma RoundUpIs(x: int)
    requires 0 <= x < WORD
    ensures if x <= 0xFFFF_FFFF_FFFF_F000 then RoundUp(x) % 4096 == 0 && x <= RoundUp(x) < x + 4096 else RoundUp(x) == 0
  {}

  lemma {:induction false} WithoutAppended(s: seq<Node>, n: Node, nodes: set<Node>)
    requires Members(s) == nodes && n !in nodes
    ensures Without(s + [n], n) == s && nodes + {n} - {n} == nodes
  {
    if s != [] {
      assert n !in Members(s[1..]) && s[0] in Members(s);
      WithoutAppended(s[1..], n, Members(s[1..]));
      assert (s + [n])[1..] == s[1..] + [n];
    }
  }

  // Where the next area goes: a page of distance after the last one.
  function NextStart(last: Node?): int {
    if last == null then USER_START else last.end + 4096
  }

  // Where a mapping of the size goes that may go anywhere: 4096 bytes past the last area, or to the
  // start of user memory; 0 if it would then reach past the stack.
  ghost function Room(last: Node?, size: int): int
    requires 0 <= size < WORD
  {
    var start := if last == null then 0x40_0000 else (last.end + 4096) % 0x1_0000_0000_0000_0000;
    if size == 0 || (start + RoundUp(size)) % 0x1_0000_0000_0000_0000 > 0x7FFF_FF00_0000 then 0 else start
  }

  // The address of a mapping, and the error of a request that is turned down before it is entered.
  ghost function Chosen(last: Node?, addr0: int, size: int): int
    requires 0 <= size < WORD
  {
    if addr0 == 0 then Room(last, size) else addr0
  }

  ghost function Refusal(last: Node?, addr0: int, size: int): int
    requires 0 <= size < WORD
  {
    if addr0 == 0 then if Room(last, size) == 0 then -12 else 0
    else if addr0 < 0x40_0000 || (addr0 + size) % 0x1_0000_0000_0000_0000 > 0x7FFF_FF00_0000 then -14
    else if addr0 % 4096 != 0 then -22
    else 0
  }

  // What entering an area and allocating its memory comes to.
  ghost function Installed(areas: seq<Node>, start: int, end: int, alloc: bool, descOk: bool, heapOk: bool, mapRet: int): int {
    if !(start < end && start % 4096 == 0 && end % 4096 == 0 && Free(areas, start, end)) then -22
    else if !descOk || (alloc && !heapOk) then -12
    else if alloc && mapRet < 0 then mapRet
    else 0
  }

  lemma PageBorder(end: int)
    requires 0 <= end < WORD && end % PAGE_SIZE == 0
    ensures RoundUp((end + 4096) % WORD) == (end + 4096) % WORD
  {
    hide RoundUp;
  }

  lemma RoomWithin(last: Node?, size: int)
    requires 0 < size < WORD && (last != null ==> 0 <= last.end < WORD && last.end % PAGE_SIZE == 0)
    ensures 0 <= Room(last, size) < WORD && Room(last, size) % PAGE_SIZE == 0
    ensures Room(last, size) != 0 && size % PAGE_SIZE == 0 ==> (Room(last, size) + size) % WORD <= USER_STACK_TOP
    ensures size % PAGE_SIZE == 0 && NextStart(last) + size <= USER_STACK_TOP ==> Room(last, size) == NextStart(last)
  {
    hide RoundUp;
  }

  lemma BytesOf(pages: int)
    requires 0 <= pages
    ensures ByteSize(pages) == pages * 4096 % 0x1_0000_0000_0000_0000
  {}

  // The length of an area of the given pages, in 64-bit arithmetic.
  function ByteSize(pages: int): (r: int)
    requires 0 <= pages
    ensures 0 <= r < WORD && r % PAGE_SIZE == 0
    ensures pages * PAGE_SIZE < WORD ==> r == pages * PAGE_SIZE
  {
    pages * PAGE_SIZE % WORD
  }

  // A page-aligned request for whole pages inside the user range.
  ghost predicate Requestable(addr: int, pages: int)
    requires 0 <= pages
  {
    USER_START <= addr && addr % PAGE_SIZE == 0 && 0 < ByteSize(pages) && addr + ByteSize(pages) <= USER_STACK_TOP
  }

  // addr lies in the area.
  predicate Holds(n: Node, addr: int) {
    n.key <= addr < n.end
  }

  lemma OnlyCandidate(shape: Tree, addr: int, r: Node?)
    requires Disjoint(Order(shape)) && LastAtMost(Order(shape), addr, r)
    ensures forall n :: n in Nodes(shape) && Holds(n, addr) ==> n == r
    ensures r != null ==> r.key <= addr
  {
    var s := Order(shape);
    OrderNodes(shape);
    forall j | 0 <= j < |s| && Holds(s[j], addr)
      ensures s[j] == r
    {
      HolderIsCandidate(s, addr, r, j);
    }
  }

  lemma HolderIsCandidate(s: seq<Node>, addr: int, r: Node?, j: int)
    requires Disjoint(s) && LastAtMost(s, addr, r) && 0 <= j < |s| && Holds(s[j], addr)
    ensures s[j] == r
  {
    if r != null {
      var i :| 0 <= i < |s| && s[i] == r && r.key <= addr && AllAbove(s[i + 1..], addr);
    }
  }

  // No address lies in two areas.
  lemma UniqueArea(shape: Tree, addr: int, a: Node, b: Node)
    requires Disjoint(Order(shape)) && a in Nodes(shape) && b in Nodes(shape) && Holds(a, addr) && Holds(b, addr)
    ensures a == b
  {
    OrderNodes(shape);
  }

  lemma LastArea(shape: Tree, last: Node)
    requires LastOf(Order(shape)) == last && AllOk(Order(shape)) && Disjoint(Order(shape))
    ensures AreaOk(last) && forall i :: 0 <= i < |Order(shape)| ==> Order(shape)[i].end <= last.end
  {
    var s := Order(shape);
    assert AreaOk(s[|s| - 1]);
    forall i | 0 <= i < |s|
      ensures s[i].end <= last.end
    {
      if i < |s| - 1 {
        assert s[i].end <= s[|s| - 1].key;
      }
    }
  }

  lemma PastTheEnd(s: seq<Node>, start: int)
    requires forall i :: 0 <= i < |s| ==> s[i].end <= start || start == 0
    ensures start != 0 ==> forall end :: start < end ==> Free(s, start, end)
  {
  }

  // No area starts inside a free interval.
  lemma FreeKeyAbsent(shape: Tree, start: int, end: int, n: Node)
    requires start < end && Free(Order(shape), start, end) && AllOk(Order(shape)) && n in Nodes(shape)
    ensures n.key != start
  {
    OrderNodes(shape);
    var i :| 0 <= i < |Order(shape)| && Order(shape)[i] == n;
    assert AreaOk(Order(shape)[i]);
  }
}
