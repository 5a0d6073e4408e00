// Page-frame allocator: kernel/mm/buddy.c.
module PageAllocator {
  import opened Powers
  import opened Blocks
  import opened BlockTable
  import opened FreeLists

  const DMA_END: nat := 4096
  const DMA32_END: nat := 1048576
  const REF_LIMIT: nat := 0x1_0000_0000

  // What an operation leaves alone: which pages are free, and every allocated block.
  ghost predicate SameUse(s: seq<Page>, t: seq<Page>) {
    && |s| == |t|
    && forall q :: 0 <= q < |s| ==> s[q].free == t[q].free && s[q].zone == t[q].zone && (!s[q].free ==> s[q] == t[q])
  }

  // [r, r + Pow2(o)) was free in zone z and is now one allocated block with one reference; nothing else
  // changed hands.
  ghost predicate Allocated(s: seq<Page>, t: seq<Page>, r: nat, o: nat, z: nat) {
    && |s| == |t| && Aligned(r, o) && r + Pow2(o) <= |s|
    && (forall q :: r <= q < r + Pow2(o) ==>
          s[q].free && s[q].zone == z && t[q] == Page(q == r, false, o, z, 1))
    && (forall q :: 0 <= q < |s| && !(r <= q < r + Pow2(o)) ==>
          s[q].free == t[q].free && s[q].zone == t[q].zone && (!s[q].free ==> s[q] == t[q]))
  }

  // The allocated block [p, p + Pow2(o)) has become free; nothing else changed hands.
  ghost predicate Freed(s: seq<Page>, t: seq<Page>, p: nat, o: nat) {
    && |s| == |t| && p + Pow2(o) <= |s|
    && (forall q :: p <= q < p + Pow2(o) ==> !s[q].free && t[q].free)
    && (forall q :: 0 <= q < |s| && !(p <= q < p + Pow2(o)) ==>
          s[q].free == t[q].free && s[q].zone == t[q].zone && (!s[q].free ==> s[q] == t[q]))
  }

  ghost predicate HasRun(pages: seq<Page>, o: nat, z: nat) {
    exists a: nat :: Aligned(a, o) && FreeRun(pages, a, Pow2(o), z)
  }

  // A block's life as its reference count sees it.
  datatype Life = Live(refs: nat) | Released
  datatype RefOp = Add | Drop

  function LifeOf(p: Page): Life {
    if p.free then Released else Live(p.refs)
  }

  // One pmm_add_ref_count or pmm_free_pages call on a block.
  function RefStep(l: Life, op: RefOp): Life {
    match (l, op)
    case (Released, _) => Released
    case (Live(r), Add) => Live((r + 1) % REF_LIMIT)
    case (Live(r), Drop) => if r > 1 then Live(r - 1) else Released
  }

  function RefRun(l: Life, ops: seq<RefOp>): Life
    decreases |ops|
  {
    if ops == [] then l else RefRun(RefStep(l, ops[0]), ops[1..])
  }

  // Calls of one kind minus calls of the other in the first k calls.
  function Surplus(ops: seq<RefOp>, k: nat): int
    requires k <= |ops|
  {
    if k == 0 then 0 else Surplus(ops, k - 1) + if ops[k - 1] == Drop then 1 else -1
  }

  lemma {:induction false} SurplusTail(ops: seq<RefOp>, k: nat)
    requires 0 < k <= |ops|
    ensures Surplus(ops, k) == (if ops[0] == Drop then 1 else -1) + Surplus(ops[1..], k - 1)
  {
    if k > 1 {
      SurplusTail(ops, k - 1);
    }
  }

  // Any number of calls, with the 32-bit wrap: the count before call k is r - Surplus(ops, k), cut to
  // 32 bits, and the block is released exactly by a drop that finds it at most 1. While the count
  // cannot wrap, that is when the drops first outnumber the references taken by r.
  lemma ReleasedExactly(r: nat, ops: seq<RefOp>)
    requires r < REF_LIMIT
    ensures RefRun(Live(r), ops) == Released <==> exists k: nat :: k < |ops| && LastDrop(r, ops, k)
    ensures 1 <= r && r + |ops| < REF_LIMIT ==>
      (RefRun(Live(r), ops) == Released <==> exists k: nat :: k <= |ops| && Surplus(ops, k) == r)
  {
    ReleasedWrapped(r, ops);
    if 1 <= r && r + |ops| < REF_LIMIT {
      ReleasedUnwrapped(r, ops);
    }
  }

  lemma {:induction false} ReleasedUnwrapped(r: nat, ops: seq<RefOp>)
    requires 1 <= r && r + |ops| < REF_LIMIT
    ensures RefRun(Live(r), ops) == Released <==> exists k: nat :: k <= |ops| && Surplus(ops, k) == r
    decreases |ops|
  {
    if ops == [] {
      assert forall k: nat :: k <= |ops| ==> Surplus(ops, k) == 0;
    } else if ops[0] == Drop && r == 1 {
      assert Surplus(ops, 1) == 1;
      ReleasedStays(ops[1..]);
    } else {
      var r' := if ops[0] == Drop then r - 1 else r + 1;
      ReleasedUnwrapped(r', ops[1..]);
      if exists k: nat :: k <= |ops| && Surplus(ops, k) == r {
        var k: nat :| k <= |ops| && Surplus(ops, k) == r;
        SurplusTail(ops, k);
      }
      if exists k: nat :: k <= |ops[1..]| && Surplus(ops[1..], k) == r' {
        var k: nat :| k <= |ops[1..]| && Surplus(ops[1..], k) == r';
        SurplusTail(ops, k + 1);
      }
    }
  }

  lemma {:induction false} ReleasedWrapped(r: nat, ops: seq<RefOp>)
    requires r < REF_LIMIT
    ensures RefRun(Live(r), ops) == Released <==> exists k: nat :: k < |ops| && LastDrop(r, ops, k)
    decreases |ops|
  {
    if ops != [] {
      FirstDrop(r, ops);
      hide LastDrop;
      if ops[0] == Drop && r <= 1 {
        ReleasedStays(ops[1..]);
      } else {
        var r' := if ops[0] == Drop then r - 1 else (r + 1) % REF_LIMIT;
        ReleasedWrapped(r', ops[1..]);
        forall k: nat | 0 < k < |ops|
          ensures LastDrop(r, ops, k) <==> LastDrop(r', ops[1..], k - 1)
        {
          LaterDrop(r, r', ops, k);
        }
        if exists k: nat :: k < |ops[1..]| && LastDrop(r', ops[1..], k) {
          var k: nat :| k < |ops[1..]| && LastDrop(r', ops[1..], k);
          assert LastDrop(r, ops, k + 1);
        }
      }
    }
  }

  lemma FirstDrop(r: nat, ops: seq<RefOp>)
    requires ops != [] && r < REF_LIMIT
    ensures LastDrop(r, ops, 0) <==> ops[0] == Drop && r <= 1
  {}

  lemma LaterDrop(r: nat, r': nat, ops: seq<RefOp>, k: nat)
    requires 0 < k < |ops| && r < REF_LIMIT && (ops[0] == Drop ==> r > 1)
    requires r' == if ops[0] == Drop then r - 1 else (r + 1) % REF_LIMIT
    ensures LastDrop(r, ops, k) <==> LastDrop(r', ops[1..], k - 1)
  {
    hide Surplus;
    SurplusTail(ops, k);
    SameCount(r, r', Surplus(ops, k), Surplus(ops[1..], k - 1));
  }

  predicate LastDrop(r: nat, ops: seq<RefOp>, k: nat)
    requires k < |ops|
  {
    ops[k] == Drop && (r - Surplus(ops, k)) % REF_LIMIT <= 1
  }

  lemma SameCount(r: nat, r': nat, x: int, y: int)
    requires x - y == r - r' || x - y == r - r' - REF_LIMIT
    ensures (r - x) % REF_LIMIT == (r' - y) % REF_LIMIT
  {}

  lemma {:induction false} ReleasedStays(ops: seq<RefOp>)
    ensures RefRun(Released, ops) == Released
  {
    if ops != [] {
      ReleasedStays(ops[1..]);
    }
  }

  function Min(a: nat, b: nat): nat {
    if a < b then a else b
  }

  function Max(a: nat, b: nat): nat {
    if a < b then b else a
  }

  class Pmm {
    const maxPfn: nat
    const blocks: array<Page>
    var lists: Lists

    ghost predicate Consistent()
      reads this, blocks
    {
      && DMA_END <= maxPfn && blocks.Length == maxPfn + 1
      && Partition(blocks[..]) && Holds(lists, FreeEntries(blocks[..]))
    }

    // No two buddies are free side by side.
    ghost predicate Sound()
      reads this, blocks
    {
      Consistent() && Canonical(blocks[..])
    }

    // Page frame 0, the failure value of the allocation, is not free.
    ghost predicate Valid()
      reads this, blocks
    {
      Sound() && !blocks[0].free
    }

    function ZoneStart(z: nat): nat
      requires z < ZONES
    {
      if z == 0 then 0 else if z == 1 then DMA_END else if maxPfn < DMA32_END then 0 else DMA32_END
    }

    function ZoneEnd(z: nat): nat
      requires z < ZONES
    {
      if z == 0 then DMA_END
      else if maxPfn < DMA32_END then (if z == 1 then maxPfn + 1 else 0)
      else if z == 1 then DMA32_END else maxPfn + 1
    }

    // remove_free_lists
    method RemoveFree(pfn: nat)
      requires pfn < blocks.Length && Shape(lists)
      requires blocks[pfn].zone < ZONES && blocks[pfn].order < MAX_ORDER
      modifies this
      ensures lists == Unlink(old(lists), blocks[pfn].zone, blocks[pfn].order, pfn)
    {
      lists := Unlink(lists, blocks[pfn].zone, blocks[pfn].order, pfn);
    }

    // The loop of split_buddy_block over both halves.
    method WriteHalves(pfn: nat, buddy: nat, order: nat, zone: nat)
      requires 0 < order && buddy == pfn + Pow2(order - 1) && pfn + Pow2(order) <= blocks.Length
      requires zone == blocks[pfn].zone
      modifies blocks
      ensures SplitDone(old(blocks[..]), blocks[..], pfn, order)
    {
      ghost var pages := blocks[..];
      var size := Pow2(order - 1);
      for i := 0 to size
        invariant forall q :: pfn <= q < pfn + i ==> blocks[q] == Page(q == pfn, true, order - 1, zone, 0)
        invariant forall q :: buddy <= q < buddy + i ==> blocks[q] == Page(q == buddy, true, order - 1, zone, 0)
        invariant forall q :: 0 <= q < blocks.Length && !(pfn <= q < pfn + i) && !(buddy <= q < buddy + i) ==>
          blocks[q] == pages[q]
      {
        blocks[pfn + i] := Page(i == 0, true, order - 1, zone, 0);
        blocks[buddy + i] := Page(i == 0, true, order - 1, zone, 0);
      }
    }

    // split_buddy_block
    method SplitBlock(pfn: nat)
      requires Consistent()
      requires pfn < blocks.Length && FreeBlock(blocks[..], pfn, blocks[pfn].order) && 0 < blocks[pfn].order
      modifies this, blocks
      ensures Consistent() && (old(CanonicalExcept(blocks[..], pfn)) ==> CanonicalExcept(blocks[..], pfn))
      ensures FreeBlock(blocks[..], pfn, old(blocks[pfn].order) - 1) && Mergeable(blocks[..], pfn)
      ensures SameUse(old(blocks[..]), blocks[..]) && blocks[pfn].zone == old(blocks[pfn].zone) < ZONES && Shape(old(lists))
      ensures var z, o := old(blocks[pfn].zone), old(blocks[pfn].order);
        lists == Push(Push(Unlink(old(lists), z, o, pfn), z, o - 1, pfn), z, o - 1, pfn + Pow2(o - 1))
    {
      hide Partition, CanonicalExcept, Holds, FreeEntries, SplitDone, SameUse;
      ghost var pages, lists0 := blocks[..], lists;
      var zone, order := blocks[pfn].zone, blocks[pfn].order;
      var buddy := Buddy(pfn, order - 1);
      SplitBounds(lists, pages, pfn, order);
      RemoveFree(pfn);
      WriteHalves(pfn, buddy, order, zone);
      lists := Push(lists, zone, order - 1, pfn);
      lists := Push(lists, zone, order - 1, buddy);
      SplitKeeps(lists0, pages, blocks[..], pfn, order);
    }

    // The loop of merge_buddy_block over the merged pages.
    method WriteMerged(pfn: nat, order: nat)
      requires pfn + Pow2(order + 1) <= blocks.Length
      modifies blocks
      ensures MergeDone(old(blocks[..]), blocks[..], pfn, order)
    {
      ghost var pages := blocks[..];
      var pages' := Pow2(order + 1);
      for i := 0 to pages'
        invariant forall q :: pfn <= q < pfn + i ==>
          blocks[q] == Page(q == pfn, true, order + 1, pages[q].zone, pages[q].refs)
        invariant forall q :: 0 <= q < blocks.Length && !(pfn <= q < pfn + i) ==> blocks[q] == pages[q]
      {
        blocks[pfn + i] := blocks[pfn + i].(head := i == 0, order := order + 1, free := true);
      }
    }

    // merge_buddy_block
    method MergeBlock(pfn1: nat, pfn2: nat) returns (merged: bool)
      requires Consistent()
      requires pfn1 < blocks.Length && blocks[pfn1].head && blocks[pfn1].free && blocks[pfn1].order < MAX_ORDER - 1
      requires pfn2 < blocks.Length && blocks[pfn2].free
      modifies this, blocks
      ensures merged == old(blocks[pfn1].order == blocks[pfn2].order && blocks[pfn1].zone == blocks[pfn2].zone
                            && pfn2 == Buddy(pfn1, blocks[pfn1].order))
      ensures !merged ==> lists == old(lists) && blocks[..] == old(blocks[..])
      ensures merged ==> var h := Min(pfn1, pfn2);
        && Consistent() && (old(CanonicalExcept(blocks[..], pfn1)) ==> CanonicalExcept(blocks[..], h))
        && FreeBlock(blocks[..], h, old(blocks[pfn1].order) + 1)
        && SameUse(old(blocks[..]), blocks[..])
      ensures merged ==> old(blocks[pfn1].zone) < ZONES && Shape(old(lists))
      ensures merged ==> var z, o := old(blocks[pfn1].zone), old(blocks[pfn1].order);
        lists == Push(Unlink(Unlink(old(lists), z, o, pfn1), z, o, pfn2), z, o + 1, Min(pfn1, pfn2))
    {
      hide Partition, CanonicalExcept, Holds, FreeEntries, MergeDone, SameUse;
      ghost var pages, lists0 := blocks[..], lists;
      var order, zone := blocks[pfn1].order, blocks[pfn1].zone;
      if order != blocks[pfn2].order || zone != blocks[pfn2].zone {
        return false;
      }
      if pfn2 != Buddy(pfn1, order) {
        return false;
      }
      merged := true;
      var pfn := Min(pfn1, pfn2);
      MergeBounds(lists, pages, pfn1, pfn2);
      RemoveFree(pfn1);
      RemoveFree(pfn2);
      lists := Push(lists, zone, order + 1, pfn);
      WriteMerged(pfn, order);
      MergeKeeps(pages, blocks[..], pfn1, pfn2);
      MergeHolds(lists0, pages, blocks[..], pfn1, pfn2);
    }

    // The search loop of pmm_alloc_pages: the first non-empty list of sufficient order.
    method FindBlock(order: nat, zone: nat) returns (find: bool, findOrder: nat, pfn: nat)
      requires Consistent() && order < MAX_ORDER && zone < ZONES
      ensures find ==> order <= findOrder < MAX_ORDER && lists[zone][findOrder] != [] && pfn == lists[zone][findOrder][0]
      ensures find ==> forall k :: order <= k < findOrder ==> lists[zone][k] == []
      ensures find ==> FreeBlock(blocks[..], pfn, findOrder) && blocks[pfn].zone == zone
      ensures !find ==> pfn == 0 && NothingListed(lists, order, zone)
    {
      find, findOrder, pfn := false, 0, 0;
      var current := order;
      while current < MAX_ORDER
        invariant order <= current <= MAX_ORDER
        invariant forall k :: order <= k < current ==> lists[zone][k] == []
      {
        if lists[zone][current] != [] {
          var first := lists[zone][current][0];
          ListedEntry(lists, blocks[..], zone, current, first);
          if !(!blocks[first].free || blocks[first].order != current || blocks[first].zone != zone) {
            return true, current, first;
          }
        }
        current := current + 1;
      }
    }

    // The loop of pmm_alloc_pages that marks the block allocated.
    method WriteTaken(pfn: nat, order: nat)
      requires pfn + Pow2(order) <= blocks.Length
      modifies blocks
      ensures TakeDone(old(blocks[..]), blocks[..], pfn, order)
    {
      ghost var pages := blocks[..];
      var size := Pow2(order);
      for i := 0 to size
        invariant forall q :: pfn <= q < pfn + i ==>
          blocks[q] == Page(q == pfn, false, pages[q].order, pages[q].zone, 1)
        invariant forall q :: 0 <= q < blocks.Length && !(pfn <= q < pfn + i) ==> blocks[q] == pages[q]
      {
        blocks[pfn + i] := blocks[pfn + i].(head := i == 0, free := false, refs := 1);
      }
    }

    // The splits of pmm_alloc_pages, down to the order asked for.
    method SplitDown(pfn: nat, findOrder: nat, order: nat)
      requires Consistent() && order <= findOrder < MAX_ORDER && FreeBlock(blocks[..], pfn, findOrder)
      modifies this, blocks
      ensures Consistent() && (old(CanonicalExcept(blocks[..], pfn)) ==> CanonicalExcept(blocks[..], pfn))
      ensures FreeBlock(blocks[..], pfn, order) && SameUse(old(blocks[..]), blocks[..])
      ensures findOrder > order ==> Mergeable(blocks[..], pfn)
      ensures findOrder == order ==> lists == old(lists) && blocks[..] == old(blocks[..])
      ensures SplitTo(old(lists), lists, old(blocks[pfn].zone), pfn, order, findOrder)
    {
      hide Partition, CanonicalExcept, Holds, FreeEntries, SameUse, Mergeable, SplitTo;
      ghost var pages, zone := blocks[..], blocks[pfn].zone;
      SameUseReflexive(pages);
      HoldsShape(lists, pages);
      SplitNone(lists, zone, pfn, findOrder);
      var current := findOrder;
      while current > order
        invariant order <= current <= findOrder
        invariant Consistent() && (CanonicalExcept(pages, pfn) ==> CanonicalExcept(blocks[..], pfn))
        invariant FreeBlock(blocks[..], pfn, current) && SameUse(pages, blocks[..])
        invariant findOrder > current ==> Mergeable(blocks[..], pfn)
        invariant findOrder == current ==> lists == old(lists) && blocks[..] == pages
        invariant blocks[pfn].zone == zone && SplitTo(old(lists), lists, zone, pfn, current, findOrder)
      {
        ghost var before, lists1 := blocks[..], lists;
        SplitBlock(pfn);
        SplitRow(old(lists), lists1, zone, pfn, current, findOrder);
        SameUseTransitive(pages, before, blocks[..]);
        current := current - 1;
      }
    }

    // pmm_alloc_pages; 0 is the failure value, and a block at page frame 0 is split and not taken.
    method AllocPages(order: nat, zone: nat) returns (pfn: nat)
      requires Consistent()
      modifies this, blocks
      ensures Consistent() && (old(Valid()) ==> Valid())
      ensures order >= MAX_ORDER || zone >= ZONES || NothingListed(old(lists), order, zone) ==>
        pfn == 0 && lists == old(lists) && blocks[..] == old(blocks[..])
      ensures forall k :: StopsAtZeroIn(old(lists), order, zone, k) ==>
        && pfn == 0 && SameUse(old(blocks[..]), blocks[..])
        && (k == order ==> lists == old(lists) && blocks[..] == old(blocks[..]))
        && (k > order ==> Mergeable(blocks[..], 0)) && SplitTo(old(lists), lists, zone, 0, order, k)
      ensures forall k :: FirstAt(old(lists), order, zone, k) && old(lists)[zone][k][0] != 0 ==>
        pfn == old(lists)[zone][k][0] && TakenFrom(old(lists), lists, zone, pfn, order, k)
      ensures order < MAX_ORDER && zone < ZONES && !NothingListed(old(lists), order, zone) && !StopsAtZero(old(lists), order, zone) ==>
        pfn != 0 && Allocated(old(blocks[..]), blocks[..], pfn, order, zone)
      ensures old(Sound()) ==> (Sound() <==> forall k :: order < k ==> !StopsAtZeroIn(old(lists), order, zone, k))
      ensures old(Sound()) ==>
        (pfn == 0 <==> order >= MAX_ORDER || zone >= ZONES || !HasRun(old(blocks[..]), order, zone) || StopsAtZero(old(lists), order, zone))
    {
      hide Partition, CanonicalExcept, Holds, FreeEntries, HasRun, Allocated, SameUse, TakeDone, NothingListed, StopsAtZeroIn,
        Mergeable, SplitTo, TakenFrom;
      ghost var pages, lists0 := blocks[..], lists;
      if order >= MAX_ORDER || zone >= ZONES {
        OutOfRange(lists, order, zone);
        return 0;
      }
      ListedIffRun(lists, pages, order, zone);
      if ZoneStart(zone) >= ZoneEnd(zone) {
        EmptyZone(lists, pages, order, zone);
        NothingStops(lists, order, zone);
        return 0;
      }
      var find, findOrder;
      find, findOrder, pfn := FindBlock(order, zone);
      if !find {
        NothingStops(lists, order, zone);
        return 0;
      }
      HoldsShape(lists, pages);
      FirstListed(lists, order, zone, findOrder);
      if !pages[0].free {
        NotAtZero(lists, pages, order, zone);
      }
      if Canonical(pages) {
        CanonicalWeaken(pages, pfn);
      }
      SplitDown(pfn, findOrder, order);
      ghost var before, lists1 := blocks[..], lists;
      if pfn != 0 {
        BlockBounds(before, pfn);
        HoldsShape(lists, before);
        RemoveFree(pfn);
        TakeRow(lists0, lists1, zone, pfn, order, findOrder);
        WriteTaken(pfn, order);
        TakeKeeps(lists1, before, blocks[..], pfn, order);
        TakeAllocated(pages, before, blocks[..], pfn, order, zone);
      } else {
        StoppedSound(before, findOrder > order);
      }
    }

    // The loop of pmm_free_pages that drops one reference of every page.
    method DropRefs(pfn: nat, order: nat, ghost refs: nat)
      requires pfn + Pow2(order) <= blocks.Length
      requires forall q :: pfn <= q < pfn + Pow2(order) ==> blocks[q].refs == refs
      modifies blocks
      ensures RefsDone(old(blocks[..]), blocks[..], pfn, order, if refs > 0 then refs - 1 else 0)
    {
      ghost var pages := blocks[..];
      var size := Pow2(order);
      for i := 0 to size
        invariant forall q :: pfn <= q < pfn + i ==>
          blocks[q] == pages[q].(refs := if refs > 0 then refs - 1 else 0)
        invariant forall q :: 0 <= q < blocks.Length && !(pfn <= q < pfn + i) ==> blocks[q] == pages[q]
      {
        if blocks[pfn + i].refs > 0 {
          blocks[pfn + i] := blocks[pfn + i].(refs := blocks[pfn + i].refs - 1);
        }
      }
    }

    // The loop of pmm_free_pages that marks the block free.
    method WriteFree(pfn: nat, order: nat)
      requires pfn + Pow2(order) <= blocks.Length
      modifies blocks
      ensures Rewritten(old(blocks[..]), blocks[..], pfn, Pow2(order))
      ensures forall q :: pfn <= q < pfn + Pow2(order) ==> blocks[q] == old(blocks[..])[q].(free := true)
    {
      ghost var pages := blocks[..];
      var size := Pow2(order);
      for i := 0 to size
        invariant forall q :: pfn <= q < pfn + i ==> blocks[q] == pages[q].(free := true)
        invariant forall q :: 0 <= q < blocks.Length && !(pfn <= q < pfn + i) ==> blocks[q] == pages[q]
      {
        blocks[pfn + i] := blocks[pfn + i].(free := true);
      }
    }

    // The merge loop of pmm_free_pages.
    method MergeUp(pfn: nat, order: nat, zone: nat, ghost lists0: Lists)
      requires Consistent() && FreeBlock(blocks[..], pfn, order) && blocks[pfn].zone == zone
      requires GivenTo(lists0, lists, zone, pfn, order, order) && Base(pfn, order) == pfn
      modifies this, blocks
      ensures Consistent() && SameUse(old(blocks[..]), blocks[..])
      ensures old(CanonicalExcept(blocks[..], pfn)) ==> Sound()
      ensures GivenTo(lists0, lists, zone, pfn, order, blocks[pfn].order)
      ensures FreeBlock(blocks[..], Base(pfn, blocks[pfn].order), blocks[pfn].order)
    {
      hide Partition, CanonicalExcept, Holds, FreeEntries, SameUse, GivenTo, Base;
      ghost var pages := blocks[..];
      SameUseReflexive(pages);
      BlockBounds(pages, pfn);
      var current: nat, k: nat := pfn, order;
      while k < MAX_ORDER - 1
        invariant order <= k < MAX_ORDER
        invariant Consistent() && (CanonicalExcept(pages, pfn) ==> CanonicalExcept(blocks[..], current))
        invariant FreeBlock(blocks[..], current, k) && blocks[current].zone == zone
        invariant SameUse(pages, blocks[..])
        invariant current == Base(pfn, k) && GivenTo(lists0, lists, zone, pfn, order, k)
      {
        var buddy := Buddy(current, k);
        if !(buddy <= maxPfn && blocks[buddy].free && blocks[buddy].order == k && blocks[buddy].zone == zone) {
          break;
        }
        ghost var before := blocks[..];
        MergeRow(lists0, lists, zone, pfn, order, k);
        LowerBuddy(pfn, k);
        var merged := MergeBlock(current, buddy);
        SameUseTransitive(pages, before, blocks[..]);
        ZonesKept(before, blocks[..], current, buddy);
        current := if current < buddy then current else buddy;
        k := k + 1;
      }
      if CanonicalExcept(pages, pfn) {
        MergingDone(blocks[..], current);
      }
      OrderWithin(blocks[..], pfn, current, k);
    }

    // pmm_free_pages
    method FreePages(pfn: nat)
      requires Consistent() && pfn <= maxPfn
      modifies this, blocks
      ensures Consistent() && (old(Sound()) ==> Sound()) && (old(Valid()) && pfn != 0 ==> Valid())
      ensures !old(blocks[pfn].head) || old(blocks[pfn].free) ==> lists == old(lists) && blocks[..] == old(blocks[..])
      ensures old(blocks[pfn].head) && !old(blocks[pfn].free) && old(blocks[pfn].refs) > 1 ==>
        lists == old(lists) && RefsDone(old(blocks[..]), blocks[..], pfn, old(blocks[pfn].order), old(blocks[pfn].refs) - 1)
      ensures old(blocks[pfn].head) && !old(blocks[pfn].free) && old(blocks[pfn].refs) <= 1 ==>
        Freed(old(blocks[..]), blocks[..], pfn, old(blocks[pfn].order))
      ensures old(blocks[pfn].head) && !old(blocks[pfn].free) && old(blocks[pfn].refs) <= 1 ==>
        var k := blocks[pfn].order;
        && GivenTo(old(lists), lists, old(blocks[pfn].zone), pfn, old(blocks[pfn].order), k)
        && FreeBlock(blocks[..], Base(pfn, k), k)
      ensures old(blocks[pfn].head) && !old(blocks[pfn].free) ==>
        LifeOf(blocks[pfn]) == RefStep(old(LifeOf(blocks[pfn])), Drop)
    {
      hide Partition, CanonicalExcept, Holds, FreeEntries, SameUse, Freed;
      ghost var pages, lists0 := blocks[..], lists;
      var zone := blocks[pfn].zone;
      if !blocks[pfn].head || blocks[pfn].free {
        return;
      }
      var order := blocks[pfn].order;
      ghost var refs := blocks[pfn].refs;
      BlockBounds(pages, pfn);
      BlockRefs(pages, pfn);
      HoldsShape(lists, pages);
      DropRefs(pfn, order, refs);
      if blocks[pfn].refs > 0 {
        RefsKeep(pages, blocks[..], pfn, refs - 1);
        return;
      }
      WriteFree(pfn, order);
      lists := Push(lists, zone, order, pfn);
      ghost var given := blocks[..];
      assert GiveDone(pages, given, pfn, order);
      GiveKeeps(lists0, pages, given, pfn, order);
      HeadAligned(pages, pfn);
      GivenFirst(lists0, zone, pfn, order);
      AlignedBase(pfn, order);
      MergeUp(pfn, order, zone, lists0);
      FreedAll(pages, given, blocks[..], pfn, order);
    }

    // The loop of pmm_add_ref_count; inside tells whether the walk over the pages stays in the table.
    method BumpRefs(pfn: nat, size: nat) returns (inside: bool)
      requires pfn < blocks.Length
      modifies blocks
      ensures inside <==> pfn + size <= blocks.Length
      ensures Bumped(old(blocks[..]), blocks[..], pfn, Min(size, blocks.Length - pfn))
    {
      ghost var pages := blocks[..];
      inside := true;
      var i := 0;
      while i < size && inside
        invariant 0 <= i <= size && pfn + i <= blocks.Length && (!inside ==> i < size && pfn + i == blocks.Length)
        invariant forall q :: pfn <= q < pfn + i ==> blocks[q] == pages[q].(refs := (pages[q].refs + 1) % REF_LIMIT)
        invariant forall q :: 0 <= q < blocks.Length && !(pfn <= q < pfn + i) ==> blocks[q] == pages[q]
        decreases size - i, inside
      {
        if pfn + i >= blocks.Length {
          inside := false;
        } else {
          blocks[pfn + i] := blocks[pfn + i].(refs := (blocks[pfn + i].refs + 1) % REF_LIMIT);
          i := i + 1;
        }
      }
    }

    // pmm_add_ref_count
    method AddRefCount(pfn: nat) returns (inside: bool)
      requires Consistent() && pfn <= maxPfn
      modifies blocks
      ensures inside <==> pfn + Pow2(old(blocks[pfn].order)) <= blocks.Length
      ensures old(blocks[pfn].head) ==> inside
      ensures Bumped(old(blocks[..]), blocks[..], pfn, Walk(old(blocks[..]), pfn))
      ensures Consistent() <==> WholeBlocks(old(blocks[..]), pfn, Walk(old(blocks[..]), pfn))
      ensures Consistent() && old(Sound()) ==> Sound() && (old(Valid()) ==> Valid())
      ensures !old(blocks[pfn].free) ==> (Consistent() <==> old(blocks[pfn].head))
      ensures old(blocks[pfn].head) ==> Consistent()
      ensures old(blocks[pfn].head) && !old(blocks[pfn].free) ==>
        RefsDone(old(blocks[..]), blocks[..], pfn, old(blocks[pfn].order), (old(blocks[pfn].refs) + 1) % REF_LIMIT)
      ensures !old(blocks[pfn].free) ==> LifeOf(blocks[pfn]) == RefStep(old(LifeOf(blocks[pfn])), Add)
    {
      hide Partition, CanonicalExcept, Holds, FreeEntries, Pow2, WholeBlocks;
      ghost var pages := blocks[..];
      inside := BumpRefs(pfn, Pow2(blocks[pfn].order));
      WalkKeepsIff(pages, blocks[..], pfn, Walk(pages, pfn));
      WalkFromPage(pages, pfn);
      if pages[pfn].head {
        BlockBounds(pages, pfn);
        if !pages[pfn].free {
          BlockRefs(pages, pfn);
        }
      }
    }

    // ---- initialisation: free_lists_init and mem_block_init ----

    // The largest order whose block fits into the remaining pages and is aligned at current.
    static method BestOrder(current: nat, remaining: nat) returns (best: int)
      requires remaining > 0
      ensures 0 <= best < MAX_ORDER && Pow2(best) <= remaining && Aligned(current, best)
      ensures best < MAX_ORDER - 1 ==> !(Pow2(best + 1) <= remaining && Aligned(current, best + 1))
    {
      best := -1;
      var order := MAX_ORDER - 1;
      while order >= 0
        invariant -1 <= order < MAX_ORDER
        invariant order < MAX_ORDER - 1 ==> !(Pow2(order + 1) <= remaining && Aligned(current, order + 1))
      {
        if Pow2(order) <= remaining && Aligned(current, order) {
          best := order;
          break;
        }
        order := order - 1;
      }
      if best < 0 {
        best := 0;
      }
    }

    // Cut the free run [start, start + size) into maximal aligned blocks.
    method Carve(start: nat, size: nat, zone: nat, ghost bitmap: seq<bool>, ghost plan: seq<Page>)
      returns (ghost plan': seq<Page>)
      requires zone < ZONES && Planned(lists, bitmap, plan, start) && RunAt(bitmap, start, size, zone)
      requires Descending(lists, start)
      modifies this
      ensures Planned(lists, bitmap, plan', start + size) && Descending(lists, start + size)
    {
      hide Planned, Descending;
      plan' := plan;
      var current, remaining: nat := start, size;
      while remaining > 0
        invariant current + remaining == start + size && RunAt(bitmap, current, remaining, zone)
        invariant Planned(lists, bitmap, plan', current) && Descending(lists, current)
      {
        var best := BestOrder(current, remaining);
        PlannedShape(lists, bitmap, plan', current);
        ghost var lists0 := lists;
        lists := Push(lists, zone, best, current);
        PushDescends(lists0, zone, best, current, current + Pow2(best));
        plan' := PlanBlock(lists0, bitmap, plan', current, remaining, best, zone);
        current, remaining := current + Pow2(best), remaining - Pow2(best);
      }
    }

    // free_lists_init over one zone
    method ListZone(zone: nat, bitmap: seq<bool>, ghost upTo: nat, ghost plan: seq<Page>)
      returns (ghost plan': seq<Page>)
      requires zone < ZONES && |bitmap| == maxPfn + 1 && DMA_END <= maxPfn
      requires Planned(lists, bitmap, plan, upTo)
      requires ZoneStart(zone) < ZoneEnd(zone) ==> upTo == ZoneStart(zone)
      requires Descending(lists, upTo)
      modifies this
      ensures var end := if ZoneStart(zone) < ZoneEnd(zone) then ZoneEnd(zone) else upTo;
        Planned(lists, bitmap, plan', end) && Descending(lists, end)
    {
      hide Planned, Descending;
      plan' := plan;
      var pfn, end := ZoneStart(zone), ZoneEnd(zone);
      while pfn < end
        invariant ZoneStart(zone) <= pfn && (ZoneStart(zone) < end ==> pfn <= end)
        invariant Planned(lists, bitmap, plan', if ZoneStart(zone) < end then pfn else upTo)
        invariant Descending(lists, if ZoneStart(zone) < end then pfn else upTo)
      {
        ghost var before := pfn;
        while pfn < end && bitmap[pfn]
          invariant before <= pfn <= end
          invariant Planned(lists, bitmap, plan', pfn) && Descending(lists, pfn)
        {
          DescendsBelow(lists, pfn, pfn + 1);
          PlanSkip(lists, bitmap, plan', pfn);
          pfn := pfn + 1;
        }
        if pfn >= end {
          break;
        }
        var start, size := pfn, 0;
        while pfn < end && !bitmap[pfn]
          invariant start <= pfn <= end && size == pfn - start
          invariant forall q :: start <= q < pfn ==> !bitmap[q]
        {
          size := size + 1;
          pfn := pfn + 1;
        }
        plan' := Carve(start, size, zone, bitmap, plan');
      }
    }

    // free_lists_init
    method FreeListsInit(bitmap: seq<bool>) returns (ghost plan: seq<Page>)
      requires |bitmap| == maxPfn + 1 && DMA_END <= maxPfn
      requires lists == EmptyLists()
      modifies this
      ensures Planned(lists, bitmap, plan, |bitmap|) && Descending(lists, |bitmap|)
    {
      hide Planned;
      plan := PlanStart(bitmap);
      plan := ListZone(0, bitmap, 0, plan);
      plan := ListZone(1, bitmap, DMA_END, plan);
      plan := ListZone(2, bitmap, ZoneEnd(1), plan);
    }

    // The inner loop of mem_block_init: describe one listed block.
    method WriteEntry(pfn: nat, order: nat, zone: nat, ghost plan: seq<Page>)
      requires pfn + Pow2(order) <= blocks.Length == |plan|
      requires forall q :: pfn <= q < pfn + Pow2(order) ==> plan[q] == Page(q == pfn, true, order, zone, 0)
      requires forall q :: 0 <= q < blocks.Length ==> blocks[q].refs == 0
      modifies blocks
      ensures forall q :: 0 <= q < blocks.Length ==>
        blocks[q] == if pfn <= q < pfn + Pow2(order) then plan[q] else old(blocks[q])
    {
      ghost var pages := blocks[..];
      var size := Pow2(order);
      for i := 0 to size
        invariant forall q :: 0 <= q < blocks.Length ==> blocks[q] == if pfn <= q < pfn + i then plan[q] else pages[q]
      {
        blocks[pfn + i] := blocks[pfn + i].(head := i == 0, free := true, order := order, zone := zone);
      }
    }

    // One free list of mem_block_init.
    method WriteList(zone: nat, order: nat, ghost bitmap: seq<bool>, ghost plan: seq<Page>)
      requires zone < ZONES && order < MAX_ORDER && Planned(lists, bitmap, plan, |bitmap|)
      requires blocks.Length == |plan| && forall q :: 0 <= q < blocks.Length ==> blocks[q].refs == 0
      modifies blocks
      ensures forall q :: 0 <= q < blocks.Length ==> blocks[q] == plan[q] || blocks[q] == old(blocks[q])
      ensures forall p: nat :: p in lists[zone][order] ==> Written(blocks[..], plan, p, order)
    {
      hide Planned;
      ghost var pages := blocks[..];
      PlannedShape(lists, bitmap, plan, |bitmap|);
      PlannedRefs(lists, bitmap, plan);
      var list := lists[zone][order];
      for k := 0 to |list|
        invariant forall q :: 0 <= q < blocks.Length ==> blocks[q] == plan[q] || blocks[q] == pages[q]
        invariant forall j :: 0 <= j < k ==> Written(blocks[..], plan, list[j], order)
      {
        ghost var before := blocks[..];
        PlannedEntry(lists, bitmap, plan, zone, order, list[k]);
        WriteEntry(list[k], order, zone, plan);
        forall j | 0 <= j <= k
          ensures Written(blocks[..], plan, list[j], order)
        {
          assert j < k ==> Written(before, plan, list[j], order);
        }
      }
    }

    // The first loop nest of mem_block_init: allocated pages are single blocks.
    method MarkAllocated(bitmap: seq<bool>)
      requires |bitmap| == maxPfn + 1 == blocks.Length && DMA_END <= maxPfn
      requires forall q :: 0 <= q < blocks.Length ==> blocks[q].refs == 0
      modifies blocks
      ensures forall q :: 0 <= q < blocks.Length ==> blocks[q].refs == 0
      ensures forall q :: 0 <= q < blocks.Length && bitmap[q] ==> blocks[q] == Page(true, false, 0, ZoneOf(q), 0)
    {
      for zone := 0 to ZONES
        invariant forall q :: 0 <= q < blocks.Length ==> blocks[q].refs == 0
        invariant forall q :: 0 <= q < blocks.Length && bitmap[q] && ZoneOf(q) < zone ==>
          blocks[q] == Page(true, false, 0, ZoneOf(q), 0)
      {
        if ZoneStart(zone) >= ZoneEnd(zone) {
          continue;
        }
        for pfn := ZoneStart(zone) to ZoneEnd(zone)
          invariant forall q :: 0 <= q < blocks.Length ==> blocks[q].refs == 0
          invariant forall q :: 0 <= q < blocks.Length && bitmap[q] && (ZoneOf(q) < zone || (ZoneOf(q) == zone && q < pfn)) ==>
            blocks[q] == Page(true, false, 0, ZoneOf(q), 0)
        {
          if bitmap[pfn] {
            blocks[pfn] := blocks[pfn].(head := true, free := false, order := 0, zone := zone);
          }
        }
      }
    }

    // mem_block_init
    method MemBlockInit(bitmap: seq<bool>, ghost plan: seq<Page>)
      requires |bitmap| == maxPfn + 1 == blocks.Length && DMA_END <= maxPfn
      requires Planned(lists, bitmap, plan, |bitmap|)
      requires forall q :: 0 <= q < blocks.Length ==> blocks[q].refs == 0
      modifies blocks
      ensures blocks[..] == plan
    {
      hide Planned;
      PlannedShape(lists, bitmap, plan, |bitmap|);
      PlannedRefs(lists, bitmap, plan);
      MarkAllocated(bitmap);
      ghost var marked := blocks[..];
      for zone := 0 to ZONES
        invariant Overlay(marked, plan, blocks[..])
        invariant forall z, o :: 0 <= z < zone && 0 <= o < MAX_ORDER ==> ListWritten(lists, z, o, blocks[..], plan)
      {
        for order := 0 to MAX_ORDER
          invariant Overlay(marked, plan, blocks[..])
          invariant forall z, o :: 0 <= z < ZONES && 0 <= o < MAX_ORDER && (z < zone || (z == zone && o < order)) ==>
            ListWritten(lists, z, o, blocks[..], plan)
        {
          ghost var before := blocks[..];
          WriteList(zone, order, bitmap, plan);
          assert Overlay(before, plan, blocks[..]);
          forall z, o | 0 <= z < ZONES && 0 <= o < MAX_ORDER && ListWritten(lists, z, o, before, plan)
            ensures ListWritten(lists, z, o, blocks[..], plan)
          {
            StaysWritten(lists, z, o, before, blocks[..], plan);
          }
        }
      }
      PlanComplete(lists, bitmap, plan, marked, blocks[..]);
    }

    // pmm_init, from the boot bitmap on.
    constructor (maxPfn: nat, bitmap: seq<bool>)
      requires DMA_END <= maxPfn && |bitmap| == maxPfn + 1
      ensures Sound() && (Valid() <==> bitmap[0]) && this.maxPfn == maxPfn && fresh(blocks)
      ensures forall q :: 0 <= q <= maxPfn ==> blocks[q].free == !bitmap[q] && blocks[q].refs == 0
      ensures forall q :: 0 <= q <= maxPfn && bitmap[q] ==> blocks[q].head && blocks[q].order == 0
      ensures Descending(lists, maxPfn + 1)
    {
      this.maxPfn := maxPfn;
      blocks := new Page[maxPfn + 1](i => Page(false, false, 0, 0, 0));
      lists := EmptyLists();
      new;
      ghost var plan := FreeListsInit(bitmap);
      hide Descending;
      MemBlockInit(bitmap, plan);
      PlanCanonical(lists, bitmap, plan);
      PlanFacts(lists, bitmap, plan);
    }
  }

  lemma BlockBounds(pages: seq<Page>, h: nat)
    requires Partition(pages) && h < |pages| && pages[h].head
    ensures pages[h].order < MAX_ORDER && h + Pow2(pages[h].order) <= |pages|
    ensures Aligned(h, pages[h].order) && pages[h].zone < ZONES
  {
    assert Whole(pages, h);
    HeadIsBase(pages, h);
  }

  lemma SplitBounds(lists: Lists, pages: seq<Page>, h: nat, o: nat)
    requires Partition(pages) && Holds(lists, FreeEntries(pages))
    requires 0 < o && FreeBlock(pages, h, o)
    ensures o < MAX_ORDER && h + Pow2(o) <= |pages| && pages[h].zone < ZONES
    ensures Buddy(h, o - 1) == h + Pow2(o - 1)
    ensures Shape(lists)
  {
    BlockBounds(pages, h);
    SplitBuddy(pages, h, o);
  }

  lemma SplitKeeps(lists: Lists, pages: seq<Page>, pages': seq<Page>, h: nat, o: nat)
    requires Partition(pages) && Holds(lists, FreeEntries(pages))
    requires 0 < o < MAX_ORDER && FreeBlock(pages, h, o) && pages[h].zone < ZONES
    requires SplitDone(pages, pages', h, o)
    ensures Partition(pages') && (CanonicalExcept(pages, h) ==> CanonicalExcept(pages', h))
    ensures Holds(Push(Push(Unlink(lists, pages[h].zone, o, h), pages[h].zone, o - 1, h),
                       pages[h].zone, o - 1, h + Pow2(o - 1)), FreeEntries(pages'))
    ensures FreeBlock(pages', h, o - 1) && Mergeable(pages', h) && SameUse(pages, pages')
  {
    SplitPartition(pages, pages', h, o);
    if CanonicalExcept(pages, h) {
      SplitCanonical(pages, pages', h, o);
    }
    SplitMergeable(pages, pages', h, o);
    SplitEntries(pages, pages', h, o);
    SplitLists(lists, pages, h, o);
    SplitUse(pages, pages', h, o);
  }

  // The two halves could be merged again.
  lemma SplitMergeable(pages: seq<Page>, pages': seq<Page>, h: nat, o: nat)
    requires Partition(pages) && 0 < o < MAX_ORDER && FreeBlock(pages, h, o) && SplitDone(pages, pages', h, o)
    ensures Mergeable(pages', h)
  {
    SplitBuddy(pages, h, o);
  }

  lemma SplitUse(pages: seq<Page>, pages': seq<Page>, h: nat, o: nat)
    requires Partition(pages) && 0 < o && FreeBlock(pages, h, o) && SplitDone(pages, pages', h, o)
    ensures SameUse(pages, pages')
  {
    assert Whole(pages, h);
    HeadIsBase(pages, h);
  }

  lemma SplitFresh(pages: seq<Page>, h: nat, o: nat)
    requires Partition(pages) && 0 < o && FreeBlock(pages, h, o)
    ensures (pages[h].zone, o - 1, h) !in FreeEntries(pages)
    ensures (pages[h].zone, o - 1, h + Pow2(o - 1)) !in FreeEntries(pages)
  {
    OnlyHead(pages, h, h + Pow2(o - 1));
  }

  lemma SplitLists(lists: Lists, pages: seq<Page>, h: nat, o: nat)
    requires Partition(pages) && Holds(lists, FreeEntries(pages))
    requires 0 < o && FreeBlock(pages, h, o) && o < MAX_ORDER && pages[h].zone < ZONES && Shape(lists)
    ensures var z := pages[h].zone;
      var r := h + Pow2(o - 1);
      Holds(Push(Push(Unlink(lists, z, o, h), z, o - 1, h), z, o - 1, r),
            FreeEntries(pages) - {(z, o, h)} + {(z, o - 1, h), (z, o - 1, r)})
  {
    SplitFresh(pages, h, o);
    hide FreeEntries, Holds, Shape, Push, Unlink, Partition;
    HalvesListed(lists, FreeEntries(pages), pages[h].zone, o, h, h + Pow2(o - 1));
  }

  lemma HalvesListed(lists: Lists, e: set<Entry>, z: nat, o: nat, h: nat, r: nat)
    requires Holds(lists, e) && Shape(lists) && z < ZONES && 0 < o < MAX_ORDER && h < r
    requires (z, o - 1, h) !in e && (z, o - 1, r) !in e
    ensures Holds(Push(Push(Unlink(lists, z, o, h), z, o - 1, h), z, o - 1, r), e - {(z, o, h)} + {(z, o - 1, h), (z, o - 1, r)})
  {
    hide Holds, Shape, Push, Unlink;
    UnlinkHolds(lists, e, z, o, h);
    PushHolds(Unlink(lists, z, o, h), e - {(z, o, h)}, z, o - 1, h);
    PushHolds(Push(Unlink(lists, z, o, h), z, o - 1, h), e - {(z, o, h)} + {(z, o - 1, h)}, z, o - 1, r);
    assert e - {(z, o, h)} + {(z, o - 1, h)} + {(z, o - 1, r)}
        == e - {(z, o, h)} + {(z, o - 1, h), (z, o - 1, r)};
  }

  // Free buddies of equal order and zone, in either order of their addresses.
  ghost predicate BuddyBlocks(pages: seq<Page>, p: nat, q: nat) {
    && p < |pages| && q < |pages|
    && pages[p].head && pages[p].free && pages[q].free
    && pages[p].order == pages[q].order < MAX_ORDER - 1 && pages[p].zone == pages[q].zone
    && q == Buddy(p, pages[p].order)
  }

  lemma BuddyBlocksOrdered(pages: seq<Page>, p: nat, q: nat)
    requires Partition(pages) && BuddyBlocks(pages, p, q)
    ensures p != q && Buddies(pages, Min(p, q), pages[p].order)
    ensures Min(p, q) + Pow2(pages[p].order) == Max(p, q)
  {
    BuddyPair(p, pages[p].order) by {
      assert Whole(pages, p);
      HeadIsBase(pages, p);
    }
    assert Whole(pages, q);
    AlignedIsHead(pages, q);
    SplitAligned(Min(p, q), pages[p].order);
  }

  lemma MergeBounds(lists: Lists, pages: seq<Page>, p: nat, q: nat)
    requires Partition(pages) && BuddyBlocks(pages, p, q) && Holds(lists, FreeEntries(pages))
    ensures pages[p].zone < ZONES && pages[q].zone < ZONES && Shape(lists)
    ensures Min(p, q) + Pow2(pages[p].order + 1) <= |pages|
  {
    BuddyBlocksOrdered(pages, p, q);
    BlockBounds(pages, Min(p, q));
    BlockBounds(pages, Max(p, q));
  }

  lemma MergeLists(lists: Lists, e: set<Entry>, z: nat, o: nat, p: nat, q: nat, h: nat)
    requires Shape(lists) && Holds(lists, e) && z < ZONES && o + 1 < MAX_ORDER && (z, o + 1, h) !in e
    ensures Holds(Push(Unlink(Unlink(lists, z, o, p), z, o, q), z, o + 1, h),
                  e - {(z, o, p), (z, o, q)} + {(z, o + 1, h)})
  {
    hide Holds;
    UnlinkHolds(lists, e, z, o, p);
    UnlinkHolds(Unlink(lists, z, o, p), e - {(z, o, p)}, z, o, q);
    assert e - {(z, o, p)} - {(z, o, q)} == e - {(z, o, p), (z, o, q)};
    PushHolds(Unlink(Unlink(lists, z, o, p), z, o, q), e - {(z, o, p), (z, o, q)}, z, o + 1, h);
  }

  lemma MergeKeeps(pages: seq<Page>, pages': seq<Page>, p: nat, q: nat)
    requires Partition(pages) && BuddyBlocks(pages, p, q)
    requires MergeDone(pages, pages', Min(p, q), pages[p].order)
    ensures Partition(pages') && (CanonicalExcept(pages, p) ==> CanonicalExcept(pages', Min(p, q)))
    ensures FreeBlock(pages', Min(p, q), pages[p].order + 1)
    ensures SameUse(pages, pages') && pages'[0].free == pages[0].free
  {
    var h, o := Min(p, q), pages[p].order;
    BuddyBlocksOrdered(pages, p, q);
    MergePartition(pages, pages', h, o);
    if CanonicalExcept(pages, p) {
      MergeCanonical(pages, pages', h, o, p);
    }
    MergeUse(pages, pages', h, o);
  }

  lemma MergeHolds(lists: Lists, pages: seq<Page>, pages': seq<Page>, p: nat, q: nat)
    requires Partition(pages) && BuddyBlocks(pages, p, q)
    requires Shape(lists) && Holds(lists, FreeEntries(pages)) && pages[p].zone < ZONES
    requires MergeDone(pages, pages', Min(p, q), pages[p].order)
    ensures var z, o := pages[p].zone, pages[p].order;
      Holds(Push(Unlink(Unlink(lists, z, o, p), z, o, q), z, o + 1, Min(p, q)), FreeEntries(pages'))
  {
    var h, z, o := Min(p, q), pages[p].zone, pages[p].order;
    BuddyBlocksOrdered(pages, p, q);
    MergeEntries(pages, pages', h, o);
    MergeFresh(pages, z, h, o);
    hide Holds, FreeEntries, Partition, Shape, Push, Unlink;
    MergeLists(lists, FreeEntries(pages), z, o, p, q, h);
    assert {(z, o, p), (z, o, q)} == {(z, o, h), (z, o, h + Pow2(o))};
  }

  lemma MergeFresh(pages: seq<Page>, z: nat, h: nat, o: nat)
    requires FreeBlock(pages, h, o)
    ensures (z, o + 1, h) !in FreeEntries(pages)
  {
  }

  lemma MergeUse(pages: seq<Page>, pages': seq<Page>, h: nat, o: nat)
    requires Partition(pages) && Buddies(pages, h, o) && MergeDone(pages, pages', h, o)
    ensures SameUse(pages, pages')
  {
    BuddiesClosed(pages, h, o);
  }

  // ---- allocation ----

  lemma ListedEntry(lists: Lists, pages: seq<Page>, z: nat, o: nat, p: nat)
    requires Holds(lists, FreeEntries(pages)) && z < ZONES && o < MAX_ORDER
    ensures p in lists[z][o] <==> FreeBlock(pages, p, o) && pages[p].zone == z
  {
    assert p in lists[z][o] <==> (z, o, p) in FreeEntries(pages);
  }

  lemma HoldsShape(lists: Lists, pages: seq<Page>)
    requires Holds(lists, FreeEntries(pages))
    ensures Shape(lists)
  {
  }

  // No block of order o or more is listed in zone z.
  ghost predicate NothingListed(lists: Lists, o: nat, z: nat) {
    Shape(lists) && z < ZONES && forall k :: o <= k < MAX_ORDER ==> lists[z][k] == []
  }

  // The first list from the order up that is not empty.
  ghost predicate FirstAt(lists: Lists, o: nat, z: nat, k: int) {
    && Shape(lists) && z < ZONES && o <= k < MAX_ORDER
    && lists[z][k] != [] && forall j :: o <= j < k ==> lists[z][j] == []
  }

  // List k is the first non-empty one from order o on, and page frame 0 heads it.
  ghost predicate StopsAtZeroIn(lists: Lists, o: nat, z: nat, k: int) {
    && Shape(lists) && z < ZONES && o <= k < MAX_ORDER
    && lists[z][k] != [] && lists[z][k][0] == 0 && forall j :: o <= j < k ==> lists[z][j] == []
  }

  ghost predicate StopsAtZero(lists: Lists, o: nat, z: nat) {
    exists k :: StopsAtZeroIn(lists, o, z, k)
  }

  lemma OutOfRange(lists: Lists, o: nat, z: nat)
    requires o >= MAX_ORDER || z >= ZONES
    ensures !StopsAtZero(lists, o, z)
  {}

  lemma NothingStops(lists: Lists, o: nat, z: nat)
    requires NothingListed(lists, o, z)
    ensures !StopsAtZero(lists, o, z)
  {}

  lemma FirstListed(lists: Lists, o: nat, z: nat, f: nat)
    requires Shape(lists) && z < ZONES && o <= f < MAX_ORDER && lists[z][f] != []
    requires forall k :: o <= k < f ==> lists[z][k] == []
    ensures !NothingListed(lists, o, z)
    ensures forall k :: StopsAtZeroIn(lists, o, z, k) <==> k == f && lists[z][f][0] == 0
    ensures StopsAtZero(lists, o, z) <==> lists[z][f][0] == 0
    ensures forall k :: FirstAt(lists, o, z, k) <==> k == f
  {
    if lists[z][f][0] == 0 {
      assert StopsAtZeroIn(lists, o, z, f);
    }
  }

  // Page frame 0 is listed only in zone 0, and only when it is free.
  lemma NotAtZero(lists: Lists, pages: seq<Page>, o: nat, z: nat)
    requires pages != [] && Partition(pages) && Holds(lists, FreeEntries(pages)) && (!pages[0].free || z > 0)
    ensures !StopsAtZero(lists, o, z)
  {
    hide Holds, FreeEntries;
    forall k
      ensures !StopsAtZeroIn(lists, o, z, k)
    {
      if StopsAtZeroIn(lists, o, z, k) {
        ListedEntry(lists, pages, z, k, 0);
      }
    }
  }

  lemma EmptyZone(lists: Lists, pages: seq<Page>, o: nat, z: nat)
    requires Partition(pages) && Holds(lists, FreeEntries(pages)) && |pages| <= DMA32_END && z == 2
    ensures NothingListed(lists, o, z)
  {
    forall k | o <= k < MAX_ORDER
      ensures lists[z][k] == []
    {
      if lists[z][k] != [] {
        ListedEntry(lists, pages, z, k, lists[z][k][0]);
      }
    }
  }

  // A listed block is an aligned run; without free buddies, no listed block means no aligned run.
  lemma ListedIffRun(lists: Lists, pages: seq<Page>, o: nat, z: nat)
    requires Partition(pages) && Holds(lists, FreeEntries(pages)) && o < MAX_ORDER && z < ZONES
    ensures !NothingListed(lists, o, z) ==> HasRun(pages, o, z)
    ensures Canonical(pages) ==> (NothingListed(lists, o, z) <==> !HasRun(pages, o, z))
  {
    hide HasRun, FreeEntries, Partition, Canonical;
    if !NothingListed(lists, o, z) {
      var k :| o <= k < MAX_ORDER && lists[z][k] != [];
      ListedEntry(lists, pages, z, k, lists[z][k][0]);
      BlockHasRun(pages, lists[z][k][0], k, o);
    } else if Canonical(pages) {
      NoRun(lists, pages, o, z);
    }
  }

  // Split halves that stay free can be merged.
  lemma StoppedSound(pages: seq<Page>, split: bool)
    requires pages != [] && (split ==> Mergeable(pages, 0))
    ensures split ==> !Canonical(pages)
  {}

  // Empty lists from order o up mean that no aligned run of 2^o free pages exists.
  lemma NoRun(lists: Lists, pages: seq<Page>, o: nat, z: nat)
    requires Partition(pages) && Canonical(pages) && Holds(lists, FreeEntries(pages))
    requires o < MAX_ORDER && NothingListed(lists, o, z)
    ensures !HasRun(pages, o, z)
  {
    forall a: nat | Aligned(a, o) && FreeRun(pages, a, Pow2(o), z)
      ensures false
    {
      var k, h := RunListed(lists, pages, a, o, z);
    }
  }

  // An aligned run of free pages lies in a listed block.
  lemma RunListed(lists: Lists, pages: seq<Page>, a: nat, o: nat, z: nat) returns (k: nat, h: nat)
    requires Partition(pages) && Canonical(pages) && Holds(lists, FreeEntries(pages))
    requires o < MAX_ORDER && z < ZONES && Aligned(a, o) && FreeRun(pages, a, Pow2(o), z)
    ensures o <= k < MAX_ORDER && h in lists[z][k]
  {
    RunInBlock(pages, a, o, z);
    k := pages[a].order;
    h := Base(a, k);
    BaseHolds(a, k);
    assert Whole(pages, a);
    ListedEntry(lists, pages, z, k, h);
  }

  lemma BlockHasRun(pages: seq<Page>, h: nat, k: nat, o: nat)
    requires Partition(pages) && FreeBlock(pages, h, k) && o <= k
    ensures HasRun(pages, o, pages[h].zone)
  {
    BlockBounds(pages, h);
    AlignedLower(h, o, k);
    Pow2Monotone(o, k);
    assert Whole(pages, h);
    HeadIsBase(pages, h);
    assert FreeRun(pages, h, Pow2(o), pages[h].zone);
  }

  lemma CanonicalWeaken(pages: seq<Page>, x: nat)
    requires Canonical(pages)
    ensures CanonicalExcept(pages, x)
  {
  }

  lemma SameUseReflexive(s: seq<Page>)
    ensures SameUse(s, s)
  {
  }

  lemma SameUseTransitive(s: seq<Page>, t: seq<Page>, u: seq<Page>)
    requires SameUse(s, t) && SameUse(t, u)
    ensures SameUse(s, u)
  {
  }

  lemma TakeKeeps(lists: Lists, pages: seq<Page>, pages': seq<Page>, h: nat, o: nat)
    requires Partition(pages) && Holds(lists, FreeEntries(pages))
    requires FreeBlock(pages, h, o) && o < MAX_ORDER && pages[h].zone < ZONES && Shape(lists)
    requires TakeDone(pages, pages', h, o)
    ensures Partition(pages') && (CanonicalExcept(pages, h) ==> Canonical(pages'))
    ensures Holds(Unlink(lists, pages[h].zone, o, h), FreeEntries(pages'))
  {
    TakePartition(pages, pages', h, o);
    if CanonicalExcept(pages, h) {
      TakeCanonical(pages, pages', h, o);
    }
    TakeEntries(pages, pages', h, o);
    UnlinkHolds(lists, FreeEntries(pages), pages[h].zone, o, h);
  }

  lemma TakePartition(pages: seq<Page>, pages': seq<Page>, h: nat, o: nat)
    requires Partition(pages) && FreeBlock(pages, h, o) && TakeDone(pages, pages', h, o)
    ensures Partition(pages')
  {
    assert Whole(pages, h);
    HeadIsBase(pages, h);
    assert BlockDone(pages, pages', h);
    BlockPartition(pages, pages', h);
  }

  lemma TakeAllocated(s: seq<Page>, pages: seq<Page>, pages': seq<Page>, h: nat, o: nat, z: nat)
    requires SameUse(s, pages) && Partition(pages)
    requires FreeBlock(pages, h, o) && s[h].zone == z && TakeDone(pages, pages', h, o)
    ensures Allocated(s, pages', h, o, z) && (!s[0].free ==> h != 0 && !pages'[0].free)
  {
    BlockBounds(pages, h);
    assert Whole(pages, h);
    HeadIsBase(pages, h);
  }

  // ---- freeing ----

  lemma BlockRefs(pages: seq<Page>, h: nat)
    requires Partition(pages) && h < |pages| && pages[h].head && !pages[h].free
    ensures h + Pow2(pages[h].order) <= |pages|
    ensures forall q :: h <= q < h + Pow2(pages[h].order) ==> pages[q].refs == pages[h].refs && !pages[q].free
  {
    assert Whole(pages, h);
    HeadIsBase(pages, h);
  }

  // Only reference counts differ, the same way throughout the block at h.
  lemma RefsOnlyKeep(pages: seq<Page>, pages': seq<Page>, h: nat)
    requires Partition(pages) && h < |pages| && pages[h].head
    requires Rewritten(pages, pages', h, Pow2(pages[h].order))
    requires forall q :: h <= q < h + Pow2(pages[h].order) ==> pages'[q] == pages[q].(refs := pages'[q].refs)
    requires !pages[h].free ==> forall q :: h <= q < h + Pow2(pages[h].order) ==> pages'[q].refs == pages'[h].refs
    ensures Partition(pages') && (Canonical(pages) ==> Canonical(pages')) && FreeEntries(pages') == FreeEntries(pages)
  {
    assert Whole(pages, h);
    HeadIsBase(pages, h);
    assert BlockDone(pages, pages', h);
    BlockPartition(pages, pages', h);
    CountsOnly(pages, pages');
  }

  // Reference counts have no part in merging or in the lists.
  lemma CountsOnly(pages: seq<Page>, pages': seq<Page>)
    requires |pages'| == |pages| && forall q: nat :: q < |pages| ==> pages'[q] == pages[q].(refs := pages'[q].refs)
    ensures (Canonical(pages) ==> Canonical(pages')) && FreeEntries(pages') == FreeEntries(pages)
  {
    forall p: nat | p < |pages'| && Mergeable(pages', p)
      ensures Mergeable(pages, p)
    {
    }
  }

  lemma RefsKeep(pages: seq<Page>, pages': seq<Page>, h: nat, refs: nat)
    requires Partition(pages) && h < |pages| && pages[h].head
    requires RefsDone(pages, pages', h, pages[h].order, refs)
    ensures Partition(pages') && (Canonical(pages) ==> Canonical(pages')) && FreeEntries(pages') == FreeEntries(pages)
    ensures pages'[0].free == pages[0].free
  {
    RefsOnlyKeep(pages, pages', h);
  }

  // The counts of n pages from p on are one higher, in 32 bits.
  ghost predicate Bumped(pages: seq<Page>, pages': seq<Page>, p: nat, n: nat) {
    && Rewritten(pages, pages', p, n)
    && forall q :: p <= q < p + n ==> pages'[q] == pages[q].(refs := (pages[q].refs + 1) % REF_LIMIT)
  }

  // How many pages of the table pmm_add_ref_count meets from p on.
  function Walk(pages: seq<Page>, p: nat): nat
    requires p < |pages|
  {
    Min(Pow2(pages[p].order), |pages| - p)
  }

  // Every allocated block that meets the n pages from a on lies within them.
  ghost predicate WholeBlocks(pages: seq<Page>, a: nat, n: nat) {
    forall h: nat :: h < |pages| && pages[h].head && !pages[h].free ==> MissedOrCovered(h, h + Pow2(pages[h].order), a, a + n)
  }

  predicate MissedOrCovered(h: nat, e: nat, a: nat, b: nat) {
    e <= a || b <= h || (a <= h && e <= b)
  }

  // Counting keeps the table exactly when no allocated block is counted in part.
  lemma WalkKeepsIff(pages: seq<Page>, pages': seq<Page>, a: nat, n: nat)
    requires Partition(pages) && n > 0 && Bumped(pages, pages', a, n)
    ensures Partition(pages') <==> WholeBlocks(pages, a, n)
    ensures (Canonical(pages) ==> Canonical(pages')) && FreeEntries(pages') == FreeEntries(pages)
  {
    CountsOnly(pages, pages');
    hide Canonical, FreeEntries;
    if WholeBlocks(pages, a, n) {
      forall p: nat | p < |pages'|
        ensures Whole(pages', p) && pages'[p].zone == ZoneOf(p)
      {
        WalkKeepsBlock(pages, pages', a, n, p);
      }
    } else {
      var h: nat :| h < |pages| && pages[h].head && !pages[h].free && !MissedOrCovered(h, h + Pow2(pages[h].order), a, a + n);
      WalkBreaksBlock(pages, pages', a, n, h);
    }
  }

  lemma WalkKeepsBlock(pages: seq<Page>, pages': seq<Page>, a: nat, n: nat, p: nat)
    requires Partition(pages) && Bumped(pages, pages', a, n) && WholeBlocks(pages, a, n) && p < |pages|
    ensures Whole(pages', p)
  {
    var o := pages[p].order;
    var h := Base(p, o);
    assert Whole(pages, p);
    BaseHolds(p, o);
    assert pages[h].order == o && pages[h].head && pages'[p].order == o;
    if !pages[p].free {
      assert MissedOrCovered(h, h + Pow2(o), a, a + n);
    }
    forall q | h <= q < h + Pow2(o)
      ensures SameBlock(pages'[q], pages'[p]) && (pages'[q].head <==> q == h)
    {
      assert SameBlock(pages[q], pages[p]);
    }
  }

  lemma WalkBreaksBlock(pages: seq<Page>, pages': seq<Page>, a: nat, n: nat, h: nat)
    requires Partition(pages) && n > 0 && Bumped(pages, pages', a, n)
    requires h < |pages| && pages[h].head && !pages[h].free && !MissedOrCovered(h, h + Pow2(pages[h].order), a, a + n)
    ensures !Partition(pages')
  {
    BlockRefs(pages, h);
    HeadAligned(pages, h);
    var e := h + Pow2(pages[h].order);
    var first := if h < a then h else e - 1;
    var last := if h < a then a else h;
    assert pages'[first] == pages[first] && pages'[last].refs == (pages[last].refs + 1) % REF_LIMIT;
    assert pages'[first].refs != pages'[last].refs;
    assert Base(h, pages'[h].order) == h;
    assert !Whole(pages', h);
  }

  lemma HeadAligned(pages: seq<Page>, h: nat)
    requires Partition(pages) && h < |pages| && pages[h].head
    ensures Base(h, pages[h].order) == h
  {
    assert Whole(pages, h);
    HeadIsBase(pages, h);
  }

  // From the first page of a block the walk covers that block and no other; from another page of an
  // allocated block it covers a part of it.
  lemma WalkFromPage(pages: seq<Page>, p: nat)
    requires Partition(pages) && p < |pages|
    ensures pages[p].head ==> Walk(pages, p) == Pow2(pages[p].order) && WholeBlocks(pages, p, Walk(pages, p))
    ensures !pages[p].head && !pages[p].free ==> !WholeBlocks(pages, p, Walk(pages, p))
  {
    if pages[p].head {
      BlockBounds(pages, p);
      forall h: nat | h < |pages| && pages[h].head && !pages[h].free
        ensures MissedOrCovered(h, h + Pow2(pages[h].order), p, p + Pow2(pages[p].order))
      {
        if h < p < h + Pow2(pages[h].order) {
          AllocationsDisjoint(pages, h, p, p);
        } else if p < h < p + Pow2(pages[p].order) {
          AllocationsDisjoint(pages, h, p, h);
        }
      }
    } else if !pages[p].free {
      var h := Base(p, pages[p].order);
      assert Whole(pages, p);
      BaseHolds(p, pages[p].order);
      assert pages[h].head && !pages[h].free && pages[h].order == pages[p].order && h < p;
      assert !MissedOrCovered(h, h + Pow2(pages[h].order), p, p + Walk(pages, p));
    }
  }

  lemma GiveKeeps(lists: Lists, pages: seq<Page>, pages': seq<Page>, h: nat, o: nat)
    requires Partition(pages) && Shape(lists) && Holds(lists, FreeEntries(pages))
    requires h < |pages| && pages[h].head && !pages[h].free && pages[h].order == o < MAX_ORDER
    requires pages[h].zone < ZONES && GiveDone(pages, pages', h, o)
    ensures Partition(pages') && (Canonical(pages) ==> CanonicalExcept(pages', h))
    ensures Holds(Push(lists, pages[h].zone, o, h), FreeEntries(pages'))
    ensures FreeBlock(pages', h, o) && pages'[h].zone == pages[h].zone && (h != 0 ==> pages'[0].free == pages[0].free)
  {
    GivePartition(pages, pages', h, o);
    if Canonical(pages) {
      GiveCanonical(pages, pages', h, o);
    }
    GiveEntries(pages, pages', h, o);
    PushHolds(lists, FreeEntries(pages), pages[h].zone, o, h);
  }

  lemma ZonesKept(pages: seq<Page>, pages': seq<Page>, p: nat, q: nat)
    requires SameUse(pages, pages') && p < |pages| && q < |pages|
    ensures pages'[p].zone == pages[p].zone && pages'[q].zone == pages[q].zone
  {
  }

  // A block that cannot be merged any further leaves no mergeable pair.
  // Every page of a block has its order.
  lemma OrderWithin(pages: seq<Page>, p: nat, h: nat, k: nat)
    requires Partition(pages) && FreeBlock(pages, h, k) && h == Base(p, k)
    ensures p < |pages| && pages[p].order == k
  {
    BaseHolds(p, k);
    assert Whole(pages, h);
    HeadAligned(pages, h);
    AlignedBase(h, k);
  }

  lemma AlignedBase(p: nat, o: nat)
    requires Aligned(p, o)
    ensures Base(p, o) == p
  {
    BaseUnique(p, o, p);
  }

  lemma MergingDone(pages: seq<Page>, x: nat)
    requires Partition(pages) && CanonicalExcept(pages, x) && x < |pages| && !Mergeable(pages, x)
    ensures Canonical(pages)
  {
    forall p: nat | p < |pages|
      ensures !Mergeable(pages, p)
    {
      if Mergeable(pages, p) {
        MergeablePair(pages, p);
        assert false;
      }
    }
  }

  lemma FreedAll(pages: seq<Page>, given: seq<Page>, pages': seq<Page>, h: nat, o: nat)
    requires Partition(pages) && h < |pages| && pages[h].head && !pages[h].free && pages[h].order == o
    requires GiveDone(pages, given, h, o) && SameUse(given, pages')
    ensures Freed(pages, pages', h, o)
  {
    BlockRefs(pages, h);
  }

  // ---- initialisation ----

  // [s, s + n) is a free run of zone z that cannot be extended to the right.
  ghost predicate RunAt(bitmap: seq<bool>, s: nat, n: nat, z: nat) {
    && s + n <= |bitmap|
    && (forall q :: s <= q < s + n ==> !bitmap[q] && ZoneOf(q) == z)
    && (s + n < |bitmap| && ZoneOf(s + n) == z ==> bitmap[s + n])
  }

  // The next larger block starting at p is not all free memory of one zone.
  ghost predicate Blocked(bitmap: seq<bool>, p: nat, o: nat) {
    exists q :: p <= q < p + Pow2(o + 1) && (q >= |bitmap| || bitmap[q] || ZoneOf(q) != ZoneOf(p))
  }

  // p heads a free block that is the left half of the next larger one.
  ghost predicate LeftHalf(plan: seq<Page>, p: nat)
    requires p < |plan|
  {
    plan[p].head && plan[p].free && plan[p].order < MAX_ORDER - 1 && Aligned(p, plan[p].order + 1)
  }

  // The block table under construction: free pages below upTo are planned as maximal aligned
  // blocks, all others are single allocated pages.
  ghost predicate Planned(lists: Lists, bitmap: seq<bool>, plan: seq<Page>, upTo: nat) {
    && |plan| == |bitmap| && upTo <= |bitmap|
    && Partition(plan) && Holds(lists, FreeEntries(plan))
    && (forall q :: 0 <= q < upTo ==> plan[q].free == !bitmap[q])
    && (forall q :: 0 <= q < |plan| && !plan[q].free ==> plan[q] == Page(true, false, 0, ZoneOf(q), 0))
    && (forall q :: upTo <= q < |plan| ==> !plan[q].free)
    && (forall q :: 0 <= q < |plan| ==> plan[q].refs == 0)
    && (forall p: nat :: p < |plan| && LeftHalf(plan, p) ==> Blocked(bitmap, p, plan[p].order))
  }

  lemma PlannedShape(lists: Lists, bitmap: seq<bool>, plan: seq<Page>, upTo: nat)
    requires Planned(lists, bitmap, plan, upTo)
    ensures Shape(lists)
  {
  }

  lemma PlanSkip(lists: Lists, bitmap: seq<bool>, plan: seq<Page>, p: nat)
    requires Planned(lists, bitmap, plan, p) && p < |bitmap| && bitmap[p]
    ensures Planned(lists, bitmap, plan, p + 1)
  {
  }

  // The pages [c, c + Pow2(o)) have become one free block.
  ghost predicate Placed(plan: seq<Page>, plan': seq<Page>, c: nat, o: nat, z: nat) {
    && Rewritten(plan, plan', c, Pow2(o))
    && forall q :: c <= q < c + Pow2(o) ==> plan'[q] == Page(q == c, true, o, z, 0)
  }

  lemma PlaceBlock(plan: seq<Page>, c: nat, o: nat, z: nat) returns (plan': seq<Page>)
    requires c + Pow2(o) <= |plan|
    ensures Placed(plan, plan', c, o, z)
  {
    plan' := plan[..c] + seq(Pow2(o), i => Page(i == 0, true, o, z, 0)) + plan[c + Pow2(o)..];
  }

  lemma PlanBlock(lists: Lists, bitmap: seq<bool>, plan: seq<Page>, c: nat, n: nat, o: nat, z: nat)
    returns (plan': seq<Page>)
    requires Planned(lists, bitmap, plan, c) && RunAt(bitmap, c, n, z) && z < ZONES && Shape(lists)
    requires o < MAX_ORDER && Pow2(o) <= n && Aligned(c, o)
    requires o < MAX_ORDER - 1 ==> !(Pow2(o + 1) <= n && Aligned(c, o + 1))
    ensures Planned(Push(lists, z, o, c), bitmap, plan', c + Pow2(o))
  {
    plan' := PlaceBlock(plan, c, o, z);
    PlanPartition(plan, plan', c, o, z);
    PlanEntries(plan, plan', c, o, z);
    PushHolds(lists, FreeEntries(plan), z, o, c);
    PlanLeftHalves(lists, bitmap, plan, plan', c, n, o, z);
    hide Holds, FreeEntries, Partition, Blocked, LeftHalf;
  }

  lemma PlanLeftHalves(lists: Lists, bitmap: seq<bool>, plan: seq<Page>, plan': seq<Page>, c: nat, n: nat, o: nat, z: nat)
    requires Planned(lists, bitmap, plan, c) && RunAt(bitmap, c, n, z)
    requires Pow2(o) <= n && Placed(plan, plan', c, o, z)
    requires o < MAX_ORDER - 1 ==> !(Pow2(o + 1) <= n && Aligned(c, o + 1))
    ensures forall p: nat :: p < |plan'| && LeftHalf(plan', p) ==> Blocked(bitmap, p, plan'[p].order)
  {
    forall p: nat | p < |plan'| && LeftHalf(plan', p)
      ensures Blocked(bitmap, p, plan'[p].order)
    {
      if c <= p < c + Pow2(o) {
        var q := c + n;
        assert q >= |bitmap| || bitmap[q] || ZoneOf(q) != ZoneOf(c);
      } else {
        assert LeftHalf(plan, p);
      }
    }
  }

  lemma PlanPartition(plan: seq<Page>, plan': seq<Page>, c: nat, o: nat, z: nat)
    requires Partition(plan) && Placed(plan, plan', c, o, z)
    requires o < MAX_ORDER && Aligned(c, o)
    requires forall q :: c <= q < c + Pow2(o) ==> plan[q] == Page(true, false, 0, z, 0) && ZoneOf(q) == z
    ensures Partition(plan')
  {
    assert Closed(plan, c, Pow2(o));
    forall p: nat | c <= p < c + Pow2(o)
      ensures Whole(plan', p) && plan'[p].zone == ZoneOf(p)
    {
      BaseUnique(p, o, c);
    }
    RewritePartition(plan, plan', c, Pow2(o));
  }

  lemma PlanEntries(plan: seq<Page>, plan': seq<Page>, c: nat, o: nat, z: nat)
    requires Placed(plan, plan', c, o, z)
    requires forall q :: c <= q < c + Pow2(o) ==> !plan[q].free
    ensures FreeEntries(plan') == FreeEntries(plan) + {(z, o, c)}
    ensures (z, o, c) !in FreeEntries(plan)
  {
    assert plan'[c].head;
  }

  // A finished plan has no mergeable pair.
  lemma PlanCanonical(lists: Lists, bitmap: seq<bool>, plan: seq<Page>)
    requires Planned(lists, bitmap, plan, |bitmap|)
    ensures Canonical(plan)
  {
    forall p: nat | p < |plan|
      ensures !Mergeable(plan, p)
    {
      if Mergeable(plan, p) {
        var b := Buddy(p, plan[p].order);
        MergeablePair(plan, p);
        BuddyPair(p, plan[p].order);
        LeftNotBlocked(lists, bitmap, plan, Min(p, b));
        assert false;
      }
    }
  }

  lemma LeftNotBlocked(lists: Lists, bitmap: seq<bool>, plan: seq<Page>, h: nat)
    requires Planned(lists, bitmap, plan, |bitmap|)
    requires h < |plan| && Buddies(plan, h, plan[h].order)
    ensures !Blocked(bitmap, h, plan[h].order)
  {
    BuddiesClosed(plan, h, plan[h].order);
  }

  function EmptyLists(): (l: Lists)
    ensures Shape(l) && forall z, o :: 0 <= z < ZONES && 0 <= o < MAX_ORDER ==> l[z][o] == []
  {
    seq(ZONES, z => seq(MAX_ORDER, o => []))
  }

  lemma PlanStart(bitmap: seq<bool>) returns (plan: seq<Page>)
    ensures Planned(EmptyLists(), bitmap, plan, 0)
  {
    plan := seq(|bitmap|, p requires p >= 0 => Page(true, false, 0, ZoneOf(p), 0));
    assert FreeEntries(plan) == {};
  }

  lemma PlannedRefs(lists: Lists, bitmap: seq<bool>, plan: seq<Page>)
    requires Planned(lists, bitmap, plan, |bitmap|)
    ensures |plan| == |bitmap| && forall q :: 0 <= q < |plan| ==> plan[q].refs == 0
  {
  }

  // The table agrees with the plan on the block at p of order o.
  ghost predicate Written(pages: seq<Page>, plan: seq<Page>, p: nat, o: nat) {
    && p + Pow2(o) <= |pages| == |plan|
    && forall q :: p <= q < p + Pow2(o) ==> pages[q] == plan[q]
  }

  lemma PlannedEntry(lists: Lists, bitmap: seq<bool>, plan: seq<Page>, z: nat, o: nat, p: nat)
    requires Planned(lists, bitmap, plan, |bitmap|) && z < ZONES && o < MAX_ORDER && p in lists[z][o]
    ensures p + Pow2(o) <= |plan|
    ensures forall q :: p <= q < p + Pow2(o) ==> plan[q] == Page(q == p, true, o, z, 0)
  {
    ListedEntry(lists, plan, z, o, p);
    assert Whole(plan, p);
    HeadIsBase(plan, p);
  }

  // Every page of t is that of s or already as planned.
  ghost predicate Overlay(s: seq<Page>, plan: seq<Page>, t: seq<Page>) {
    |s| == |plan| == |t| && forall q :: 0 <= q < |s| ==> t[q] == plan[q] || t[q] == s[q]
  }

  ghost predicate ListWritten(lists: Lists, z: nat, o: nat, pages: seq<Page>, plan: seq<Page>)
    requires Shape(lists) && z < ZONES && o < MAX_ORDER
  {
    forall p: nat :: p in lists[z][o] ==> Written(pages, plan, p, o)
  }

  lemma StaysWritten(lists: Lists, z: nat, o: nat, s: seq<Page>, t: seq<Page>, plan: seq<Page>)
    requires Shape(lists) && z < ZONES && o < MAX_ORDER
    requires ListWritten(lists, z, o, s, plan) && Overlay(s, plan, t)
    ensures ListWritten(lists, z, o, t, plan)
  {
    forall p: nat | p in lists[z][o]
      ensures Written(t, plan, p, o)
    {
      assert Written(s, plan, p, o);
    }
  }

  lemma PlanComplete(lists: Lists, bitmap: seq<bool>, plan: seq<Page>, marked: seq<Page>, pages: seq<Page>)
    requires Planned(lists, bitmap, plan, |bitmap|) && Overlay(marked, plan, pages)
    requires Shape(lists)
    requires forall q :: 0 <= q < |marked| && bitmap[q] ==> marked[q] == Page(true, false, 0, ZoneOf(q), 0)
    requires forall z, o :: 0 <= z < ZONES && 0 <= o < MAX_ORDER ==> ListWritten(lists, z, o, pages, plan)
    ensures pages == plan
  {
    forall q: nat | q < |pages|
      ensures pages[q] == plan[q]
    {
      if plan[q].free {
        var o := plan[q].order;
        var h := Base(q, o);
        BaseHolds(q, o);
        assert Whole(plan, q);
        ListedEntry(lists, plan, plan[q].zone, o, h);
        assert ListWritten(lists, plan[q].zone, o, pages, plan);
        assert Written(pages, plan, h, o);
      }
    }
  }

  lemma PlanFacts(lists: Lists, bitmap: seq<bool>, plan: seq<Page>)
    requires Planned(lists, bitmap, plan, |bitmap|)
    ensures Partition(plan) && Holds(lists, FreeEntries(plan))
    ensures forall q :: 0 <= q < |plan| ==> plan[q].free == !bitmap[q] && plan[q].refs == 0
    ensures forall q :: 0 <= q < |plan| && bitmap[q] ==> plan[q].head && plan[q].order == 0
  {
  }

  // ---- what whole runs guarantee ----

  // The free lists are determined by which pages are free: however two reachable states came
  // about, if the same pages are free then the same blocks are listed.
  lemma EntriesDetermined(s: seq<Page>, t: seq<Page>)
    requires Partition(s) && Canonical(s) && Partition(t) && Canonical(t)
    requires |s| == |t| && forall q: nat :: q < |s| ==> s[q].free == t[q].free
    ensures FreeEntries(s) == FreeEntries(t)
  {
    forall p: nat | p < |s| && s[p].free
      ensures s[p].order == t[p].order && s[p].head == t[p].head && s[p].zone == t[p].zone
    {
      FreeBlocksDetermined(s, t, p);
    }
  }

  // Freeing what was just allocated undoes the allocation: every list is as it was, in its order.
  lemma FreeUndoes(s: seq<Page>, t: seq<Page>, u: seq<Page>, l0: Lists, l1: Lists, l2: Lists, p: nat, o: nat, z: nat, k: nat)
    requires Partition(s) && Canonical(s) && Holds(l0, FreeEntries(s)) && FirstAt(l0, o, z, k)
    requires Allocated(s, t, p, o, z) && TakenFrom(l0, l1, z, p, o, k)
    requires Partition(u) && Canonical(u) && Freed(t, u, p, o)
    requires GivenTo(l1, l2, z, p, o, u[p].order) && FreeBlock(u, Base(p, u[p].order), u[p].order)
    ensures l2 == l0
  {
    hide Canonical, Partition, Holds, FreeEntries, Allocated, Freed, TakenFrom, GivenTo;
    FreeRestores(s, t, u, p, o, z);
    TakenHead(l0, l1, z, p, o, k);
    ListedEntry(l0, s, z, k, p);
    EntryBlock(s, u, p, k);
    HeadAligned(u, p);
    ListsRestored(l0, l1, l2, z, p, o, k);
  }

  lemma TakenHead(l0: Lists, l1: Lists, z: nat, p: nat, o: nat, k: nat)
    requires TakenFrom(l0, l1, z, p, o, k)
    ensures Shape(l0) && z < ZONES && k < MAX_ORDER && p in l0[z][k]
  {
    HeadIn(l0[z][k]);
  }

  lemma EntryBlock(s: seq<Page>, u: seq<Page>, p: nat, k: nat)
    requires FreeEntries(u) == FreeEntries(s) && FreeBlock(s, p, k)
    ensures FreeBlock(u, p, k)
  {
    assert (s[p].zone, k, p) in FreeEntries(s);
  }

  lemma ListsRestored(l0: Lists, l1: Lists, l2: Lists, z: nat, p: nat, o: nat, k: nat)
    requires TakenFrom(l0, l1, z, p, o, k) && GivenTo(l1, l2, z, p, o, k) && Base(p, k) == p
    ensures l2 == l0
  {
    BaseHolds(p, k);
    assert Aligned(p, k);
    forall y, j | 0 <= y < ZONES && 0 <= j < MAX_ORDER
      ensures l2[y][j] == l0[y][j]
    {
      if y == z && o <= j < k {
        AlignedLower(p, j + 1, k);
        SplitAligned(p, j);
        AlignedBase(p, j);
        assert ([p + Pow2(j)] + l0[z][j])[1..] == l0[z][j];
      } else if y == z && j == k {
        assert l0[z][k] == [p] + l0[z][k][1..];
      }
    }
    forall y | 0 <= y < ZONES
      ensures l2[y] == l0[y]
    {
    }
  }

  // The block that was freed last, with the buddies it was joined with, is handed out first.
  lemma LastFreedFirst(lists: Lists, lists': Lists, z: nat, p: nat, o: nat, k: nat)
    requires GivenTo(lists, lists', z, p, o, k)
    ensures FirstAt(lists', k, z, k) && lists'[z][k][0] == Base(p, k)
  {}

  // Freeing what was just allocated restores the same set of free blocks, whatever splits and
  // merges happened in between.
  lemma FreeRestores(s: seq<Page>, t: seq<Page>, u: seq<Page>, r: nat, o: nat, z: nat)
    requires Partition(s) && Canonical(s) && Partition(u) && Canonical(u)
    requires Allocated(s, t, r, o, z) && Freed(t, u, r, o)
    ensures FreeEntries(u) == FreeEntries(s)
  {
    assert forall q: nat :: q < |s| ==> s[q].free == u[q].free;
    EntriesDetermined(s, u);
  }

  // No aligned run of free pages of the block's zone is larger and holds it.
  lemma FreeBlocksMaximal(pages: seq<Page>, p: nat, o: nat, k: nat)
    requires Partition(pages) && Canonical(pages) && FreeBlock(pages, p, o)
    requires o < k < MAX_ORDER
    ensures !FreeRun(pages, Base(p, k), Pow2(k), pages[p].zone)
  {
    var a := Base(p, k);
    BaseHolds(p, k);
    if FreeRun(pages, a, Pow2(k), pages[p].zone) {
      RunInBlock(pages, a, k, pages[p].zone);
      var j := pages[a].order;
      BaseUnique(a, k, a);
      BaseNested(a, k, j);
      assert Whole(pages, a);
      BlockPage(pages, a, p);
      assert false;
    }
  }

  // The next larger aligned run around a is not free, or larger than any block.
  ghost predicate Maximal(pages: seq<Page>, a: nat, o: nat, z: nat) {
    o == MAX_ORDER - 1 || !FreeRun(pages, Base(a, o + 1), Pow2(o + 1), z)
  }

  // The free blocks of a zone are exactly the maximal aligned runs of its free pages.
  lemma FreeBlocksAreMaximalRuns(pages: seq<Page>, a: nat, o: nat, z: nat)
    requires Partition(pages) && Canonical(pages) && o < MAX_ORDER
    ensures FreeBlock(pages, a, o) && pages[a].zone == z <==>
            Aligned(a, o) && FreeRun(pages, a, Pow2(o), z) && Maximal(pages, a, o, z)
  {
    if FreeBlock(pages, a, o) && pages[a].zone == z {
      BlockIsRun(pages, a);
      if o < MAX_ORDER - 1 {
        FreeBlocksMaximal(pages, a, o, o + 1);
      }
    }
    if Aligned(a, o) && FreeRun(pages, a, Pow2(o), z) && Maximal(pages, a, o, z) {
      MaximalIsBlock(pages, a, o, z);
    }
  }

  lemma BlockIsRun(pages: seq<Page>, h: nat)
    requires Partition(pages) && h < |pages| && pages[h].head && pages[h].free
    ensures Aligned(h, pages[h].order) && FreeRun(pages, h, Pow2(pages[h].order), pages[h].zone)
  {
    assert Whole(pages, h);
    HeadIsBase(pages, h);
  }

  lemma MaximalIsBlock(pages: seq<Page>, a: nat, o: nat, z: nat)
    requires Partition(pages) && Canonical(pages) && o < MAX_ORDER
    requires Aligned(a, o) && FreeRun(pages, a, Pow2(o), z) && Maximal(pages, a, o, z)
    ensures FreeBlock(pages, a, o)
  {
    RunInBlock(pages, a, o, z);
    var k := pages[a].order;
    assert Whole(pages, a);
    if k > o {
      BaseNested(a, o + 1, k);
      assert FreeRun(pages, Base(a, o + 1), Pow2(o + 1), z);
      assert false;
    }
    AlignedIsHead(pages, a);
  }

  // Live allocations are disjoint: two different allocated blocks share no page.
  lemma AllocationsDisjoint(pages: seq<Page>, p: nat, q: nat, x: nat)
    requires Partition(pages) && p < |pages| && q < |pages| && pages[p].head && pages[q].head
    requires p <= x < p + Pow2(pages[p].order) && q <= x < q + Pow2(pages[q].order)
    ensures p == q
  {
    assert Whole(pages, p) && Whole(pages, q);
    HeadIsBase(pages, p);
    HeadIsBase(pages, q);
    BlockPage(pages, p, x);
    BlockPage(pages, q, x);
  }

  // With page frames 0 and 1 free and no other, frame 0 heads the first list that is not empty.
  lemma FirstTwoFree(lists: Lists, pages: seq<Page>)
    requires Partition(pages) && Canonical(pages) && Holds(lists, FreeEntries(pages)) && |pages| > 2
    requires forall q: nat :: q < |pages| ==> (pages[q].free <==> q < 2)
    ensures StopsAtZeroIn(lists, 0, 0, 1) && pages[0].zone == 0
  {
    assert Pow2(1) == 2 && Pow2(2) == 4 && Base(0, 2) == 0 && Aligned(0, 1);
    assert !pages[2].free;
    FreeBlocksAreMaximalRuns(pages, 0, 1, 0);
    OnlyHead(pages, 0, 1);
    HoldsShape(lists, pages);
    hide Partition, Canonical, Holds, FreeEntries, FreeRun;
    forall k, p: nat | 0 <= k < 2 && p in lists[0][k]
      ensures k == 1 && p == 0
    {
      ListedEntry(lists, pages, 0, k, p);
    }
    ListedEntry(lists, pages, 0, 1, 0);
    HeadIn(lists[0][0]);
    HeadIn(lists[0][1]);
  }

  lemma HeadIn(s: seq<nat>)
    ensures s == [] || s[0] in s
  {}

  // Frame 1 free at boot, then frame 0 freed: the next allocation of one page fails although two
  // are free, and leaves two free buddies.
  method FreedFrameZero() returns (pmm: Pmm, pfn: nat)
    ensures fresh(pmm) && fresh(pmm.blocks)
    ensures pfn == 0 && HasRun(pmm.blocks[..], 0, 0) && pmm.Consistent() && !pmm.Sound()
  {
    hide Partition, Canonical, Holds, FreeEntries;
    var bitmap := seq(DMA_END + 1, q => q != 1);
    pmm := new Pmm(DMA_END, bitmap);
    assert Pow2(0) == 1;
    pmm.FreePages(0);
    ghost var pages := pmm.blocks[..];
    assert forall q: nat :: q < |pages| ==> (pages[q].free <==> q < 2);
    FirstTwoFree(pmm.lists, pages);
    pfn := pmm.AllocPages(0, 0);
    assert Aligned(0, 0) && FreeRun(pmm.blocks[..], 0, Pow2(0), 0);
  }
}
