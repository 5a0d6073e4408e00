// Kernel heap on top of the page allocator: kernel/mm/heap.c.
module KernelHeap {
  import opened Powers
  import opened BlockTable
  import opened FreeLists
  import opened PageAllocator

  const PAGE_SIZE: nat := 4096
  const WORD: nat := 0x1_0000_0000_0000_0000

  // Pages requested for a size, in 64-bit arithmetic: the rounding addition wraps around.
  function PageCount(size: nat): nat {
    (size + PAGE_SIZE - 1) % WORD / PAGE_SIZE
  }

  // o is the least order whose block holds n pages.
  ghost predicate LeastOrder(n: nat, o: nat) {
    n <= Pow2(o) && (o > 0 ==> Pow2(o - 1) < n)
  }

  lemma {:induction false} LeastOrderUnique(n: nat, o: nat, k: nat)
    requires LeastOrder(n, o) && LeastOrder(n, k)
    ensures o == k
  {
    if o < k {
      Pow2Monotone(o, k - 1);
    } else if k < o {
      Pow2Monotone(k, o - 1);
    }
  }

  // order is the least whose block of 4096-byte pages holds the size, and 0 for the sizes whose
  // rounding leaves 64 bits.
  ghost predicate OrderFor(size: nat, order: nat) {
    if size <= 0xFFFF_FFFF_FFFF_F000 then
      size <= Pow2(order) * 4096 && (order > 0 ==> Pow2(order - 1) * 4096 < size)
    else order == 0
  }

  // size_to_order
  method SizeToOrder(size: nat) returns (order: nat)
    requires size < WORD
    ensures LeastOrder(PageCount(size), order) && OrderFor(size, order)
  {
    var count := PageCount(size);
    order := 0;
    ghost var n := count;
    if count <= 1 {
      OrderFits(size, order);
      return;
    }
    count := count - 1;
    while count > 0
      invariant count == Shr(n - 1, order)
      invariant order > 0 ==> Shr(n - 1, order - 1) > 0
    {
      ShrStep(n - 1, order);
      count := count / 2;
      order := order + 1;
    }
    ShrZero(n - 1, order);
    if order > 0 {
      ShrZero(n - 1, order - 1);
    }
    OrderFits(size, order);
  }

  // n >> o
  function Shr(n: nat, o: nat): nat {
    if o == 0 then n else Shr(n / 2, o - 1)
  }

  lemma {:induction false} ShrStep(n: nat, o: nat)
    ensures Shr(n, o) / 2 == Shr(n, o + 1)
  {
    if o > 0 {
      ShrStep(n / 2, o - 1);
    }
  }

  lemma {:induction false} ShrZero(n: nat, o: nat)
    ensures Shr(n, o) == 0 <==> n < Pow2(o)
  {
    if o > 0 {
      ShrZero(n / 2, o - 1);
    }
  }

  // The least order for the rounded page count is the least order for the size.
  lemma OrderFits(size: nat, o: nat)
    requires size < WORD && LeastOrder(PageCount(size), o)
    ensures OrderFor(size, o)
  {
    if size <= 0xFFFF_FFFF_FFFF_F000 {
      PagesHold(size, Pow2(o));
      if o > 0 {
        PagesHold(size, Pow2(o - 1));
      }
    } else {
      assert PageCount(size) == 0;
    }
  }

  lemma PagesHold(size: nat, pages: nat)
    requires size <= 0xFFFF_FFFF_FFFF_F000
    ensures PageCount(size) <= pages <==> size <= pages * 4096
  {}

  // The block chosen for a size holds it exactly when the rounding addition does not wrap.
  lemma OrderHoldsSize(size: nat, o: nat)
    requires size < WORD && LeastOrder(PageCount(size), o)
    ensures size <= Pow2(o) * PAGE_SIZE <==> size <= WORD - PAGE_SIZE
  {
    if size > WORD - PAGE_SIZE {
      assert PageCount(size) == 0;
      assert o == 0;
    }
  }

  // The last zone at or below z, down to 0, that has an aligned run of 2^o free pages, if any.
  ghost predicate ServedBy(pages: seq<Page>, o: nat, z: nat, served: nat) {
    && served <= z && served < ZONES && HasRun(pages, o, served)
    && forall y :: served < y <= z && y < ZONES ==> !HasRun(pages, o, y)
  }

  ghost predicate NoneServes(pages: seq<Page>, o: nat, z: nat) {
    forall y :: 0 <= y <= z && y < ZONES ==> !HasRun(pages, o, y)
  }

  // An allocation of order o succeeds in zone z.
  ghost predicate Serves(lists: Lists, o: nat, z: nat) {
    z < ZONES && !NothingListed(lists, o, z) && !StopsAtZero(lists, o, z)
  }

  // While page frame 0 is not free, that is when the zone has an aligned run.
  lemma ServesIffRun(pmm: Pmm, o: nat, z: nat)
    requires pmm.Valid() && o < MAX_ORDER && z < ZONES
    ensures Serves(pmm.lists, o, z) <==> HasRun(pmm.blocks[..], o, z)
  {
    hide HasRun, Partition, Canonical, Holds, FreeEntries, NothingListed, StopsAtZero;
    ListedIffRun(pmm.lists, pmm.blocks[..], o, z);
    NotAtZero(pmm.lists, pmm.blocks[..], o, z);
  }

  // _kheap_alloc; the result is the page frame, 0 for NULL.
  method KheapAlloc(pmm: Pmm, size: nat, zone: nat) returns (pfn: nat, ghost order: nat, ghost served: nat)
    requires pmm.Consistent() && size < WORD && zone < 256
    modifies pmm, pmm.blocks
    ensures pmm.Consistent() && (old(pmm.Valid()) ==> pmm.Valid())
    ensures LeastOrder(PageCount(size), order) && OrderFor(size, order)
    ensures pfn == 0 <==> size == 0 || order >= MAX_ORDER || forall y :: 0 <= y <= zone ==> !Serves(old(pmm.lists), order, y)
    ensures pfn == 0 ==> SameUse(old(pmm.blocks[..]), pmm.blocks[..])
    ensures pfn == 0 && old(pmm.Valid()) ==> pmm.lists == old(pmm.lists) && pmm.blocks[..] == old(pmm.blocks[..])
    ensures pfn != 0 ==> served <= zone && Serves(old(pmm.lists), order, served)
    ensures pfn != 0 ==> forall y :: served < y <= zone ==> !Serves(old(pmm.lists), order, y)
    ensures pfn != 0 ==> Allocated(old(pmm.blocks[..]), pmm.blocks[..], pfn, order, served)
    ensures old(pmm.Valid()) ==>
      (pfn == 0 <==> size == 0 || order >= MAX_ORDER || NoneServes(old(pmm.blocks[..]), order, zone))
    ensures old(pmm.Valid()) && pfn != 0 ==> ServedBy(old(pmm.blocks[..]), order, zone, served)
  {
    hide HasRun, Allocated, Partition, Canonical, Holds, FreeEntries, LeastOrder, OrderFor, NothingListed, StopsAtZeroIn, SameUse, Mergeable;
    pfn, served := 0, 0;
    var o := SizeToOrder(size);
    order := o;
    SameUseReflexive(pmm.blocks[..]);
    if size == 0 || o >= MAX_ORDER {
      return;
    }
    ghost var pages, lists := pmm.blocks[..], pmm.lists;
    if pmm.Valid() {
      forall y: nat | y < ZONES
        ensures Serves(lists, o, y) <==> HasRun(pages, o, y)
      {
        ServesIffRun(pmm, o, y);
      }
    }
    var current: int := zone;
    while current >= 0
      invariant -1 <= current <= zone && pmm.Consistent() && SameUse(pages, pmm.blocks[..])
      invariant current >= 0 || old(pmm.Valid()) ==> pmm.lists == lists && pmm.blocks[..] == pages
      invariant forall y :: current < y <= zone ==> !Serves(lists, o, y)
    {
      if current > 0 || !pages[0].free {
        NotAtZero(lists, pages, o, current);
      }
      pfn := pmm.AllocPages(o, current);
      if pfn != 0 {
        served := current;
        assert Serves(lists, o, current);
        return;
      }
      current := current - 1;
    }
  }
}
