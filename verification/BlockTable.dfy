// The per-page block table of the buddy allocator as a value: what every operation keeps.
module BlockTable {
  import opened Powers
  import opened Blocks

  const MAX_ORDER: nat := 16

  // Per-page record; flags, map count and page-table back pointer are not modelled.
  datatype Page = Page(head: bool, free: bool, order: nat, zone: nat, refs: nat)

  // Zones split physical memory at 16 MiB and 4 GiB.
  function ZoneOf(p: nat): nat {
    if p < 4096 then 0 else if p < 1048576 then 1 else 2
  }

  // By address: below 16 MiB, below 4 GiB, and above.
  lemma ZoneByAddress(p: nat)
    ensures ZoneOf(p) == 0 <==> p * 4096 < 0x100_0000
    ensures ZoneOf(p) == 2 <==> p * 4096 >= 0x1_0000_0000
    ensures ZoneOf(p) <= 2
  {}

  predicate SameBlock(a: Page, b: Page) {
    a.order == b.order && a.free == b.free && a.zone == b.zone && (!a.free ==> a.refs == b.refs)
  }

  // The block that page p claims to be in is inside the table and all its pages agree.
  ghost predicate Whole(pages: seq<Page>, p: nat)
    requires p < |pages|
  {
    var o := pages[p].order;
    var h := Base(p, o);
    && o < MAX_ORDER && h + Pow2(o) <= |pages|
    && forall q :: h <= q < h + Pow2(o) ==> SameBlock(pages[q], pages[p]) && (pages[q].head <==> q == h)
  }

  // Blocks partition the pages: each page's block is whole and lies in the page's zone.
  ghost predicate Partition(pages: seq<Page>) {
    && (forall p: nat :: p < |pages| ==> Whole(pages, p))
    && (forall p: nat :: p < |pages| ==> pages[p].zone == ZoneOf(p))
  }

  // A block whose buddy is free, of the same order and in the same zone.
  ghost predicate Mergeable(pages: seq<Page>, p: nat)
    requires p < |pages|
  {
    var o := pages[p].order;
    var b := Buddy(p, o);
    && pages[p].head && pages[p].free && o < MAX_ORDER - 1
    && b < |pages| && pages[b].free && pages[b].order == o && pages[b].zone == pages[p].zone
  }

  // No two buddies are free side by side, except possibly the block at x and its buddy.
  ghost predicate CanonicalExcept(pages: seq<Page>, x: int) {
    forall p: nat :: p < |pages| && Mergeable(pages, p) ==> p == x || Buddy(p, pages[p].order) == x
  }

  ghost predicate Canonical(pages: seq<Page>) {
    CanonicalExcept(pages, -1)
  }

  ghost predicate FreeBlock(pages: seq<Page>, p: nat, o: nat) {
    p < |pages| && pages[p].head && pages[p].free && pages[p].order == o
  }

  // All pages of [a, a + n) are free and in zone z.
  ghost predicate FreeRun(pages: seq<Page>, a: nat, n: nat, z: nat) {
    a + n <= |pages| && forall q :: a <= q < a + n ==> pages[q].free && pages[q].zone == z
  }

  lemma BlockPage(pages: seq<Page>, p: nat, q: nat)
    requires p < |pages| && Whole(pages, p)
    requires Base(p, pages[p].order) <= q < Base(p, pages[p].order) + Pow2(pages[p].order)
    ensures q < |pages| && SameBlock(pages[q], pages[p]) && Base(q, pages[q].order) == Base(p, pages[p].order)
  {
    BaseHolds(p, pages[p].order);
    BaseUnique(q, pages[p].order, Base(p, pages[p].order));
  }

  lemma HeadIsBase(pages: seq<Page>, p: nat)
    requires p < |pages| && Whole(pages, p) && pages[p].head
    ensures Base(p, pages[p].order) == p && Aligned(p, pages[p].order)
  {
    BaseHolds(p, pages[p].order);
  }

  lemma AlignedIsHead(pages: seq<Page>, p: nat)
    requires p < |pages| && Whole(pages, p) && Aligned(p, pages[p].order)
    ensures pages[p].head
  {
    BaseUnique(p, pages[p].order, p);
  }

  // ---- eager merging makes every aligned free run visible as one block ----

  // Two adjacent free halves, each covered by blocks at least as large, share a block.
  lemma HalvesJoined(pages: seq<Page>, a: nat, o: nat)
    requires Partition(pages) && Canonical(pages)
    requires o < MAX_ORDER - 1 && Aligned(a, o + 1) && a + Pow2(o) < |pages|
    requires pages[a].free && pages[a + Pow2(o)].free && pages[a].zone == pages[a + Pow2(o)].zone
    requires pages[a].order >= o && pages[a + Pow2(o)].order >= o
    ensures pages[a].order > o
  {
    var b := a + Pow2(o);
    var k := pages[b].order;
    SplitAligned(a, o);
    assert Whole(pages, a) && Whole(pages, b);
    if k > o {
      BaseUnique(b, o + 1, a);
      BaseNested(b, o + 1, k);
      BlockPage(pages, b, a);
    } else if pages[a].order == o {
      LeftMergeable(pages, a, o);
      assert false;
    }
  }

  lemma LeftMergeable(pages: seq<Page>, a: nat, o: nat)
    requires Partition(pages)
    requires o < MAX_ORDER - 1 && Aligned(a, o + 1) && a + Pow2(o) < |pages|
    requires pages[a].free && pages[a + Pow2(o)].free && pages[a].zone == pages[a + Pow2(o)].zone
    requires pages[a].order == o && pages[a + Pow2(o)].order == o
    ensures Mergeable(pages, a)
  {
    SplitAligned(a, o);
    assert Whole(pages, a);
    AlignedIsHead(pages, a);
  }

  // The first page of an aligned free run of order o is in a free block of order at least o.
  lemma {:induction false} RunInBlock(pages: seq<Page>, a: nat, o: nat, z: nat)
    requires Partition(pages) && Canonical(pages)
    requires o < MAX_ORDER && Aligned(a, o) && FreeRun(pages, a, Pow2(o), z)
    ensures pages[a].order >= o
    decreases o
  {
    hide Partition, Canonical;
    if o > 0 {
      SplitAligned(a, o - 1);
      RunInBlock(pages, a, o - 1, z);
      RunInBlock(pages, a + Pow2(o - 1), o - 1, z);
      HalvesJoined(pages, a, o - 1);
    }
  }

  // The free blocks are a function of which pages are free: two canonical tables with the
  // same free pages have the same free blocks.
  lemma OrderDetermined(s: seq<Page>, t: seq<Page>, p: nat)
    requires Partition(s) && Canonical(s) && Partition(t) && Canonical(t)
    requires |s| == |t| && forall q: nat :: q < |s| ==> s[q].free == t[q].free
    requires p < |s| && s[p].free
    ensures s[p].order <= t[p].order
  {
    var o := s[p].order;
    var h := Base(p, o);
    BaseHolds(p, o);
    assert Whole(s, p);
    assert FreeRun(t, h, Pow2(o), s[p].zone);
    RunInBlock(t, h, o, s[p].zone);
    var k := t[h].order;
    BaseUnique(h, o, h);
    BaseNested(h, o, k);
    assert Whole(t, h);
    BlockPage(t, h, p);
  }

  lemma FreeBlocksDetermined(s: seq<Page>, t: seq<Page>, p: nat)
    requires Partition(s) && Canonical(s) && Partition(t) && Canonical(t)
    requires |s| == |t| && forall q: nat :: q < |s| ==> s[q].free == t[q].free
    requires p < |s| && s[p].free
    ensures s[p].order == t[p].order && s[p].head == t[p].head && s[p].zone == t[p].zone
  {
    OrderDetermined(s, t, p);
    OrderDetermined(t, s, p);
    assert Whole(s, p) && Whole(t, p);
    BaseHolds(p, s[p].order);
  }

  // ---- rewriting a union of blocks ----

  ghost predicate Rewritten(pages: seq<Page>, pages': seq<Page>, a: nat, n: nat) {
    && |pages'| == |pages| && a + n <= |pages|
    && forall q :: 0 <= q < |pages| && !(a <= q < a + n) ==> pages'[q] == pages[q]
  }

  // [a, a + n) is a union of whole blocks.
  ghost predicate Closed(pages: seq<Page>, a: nat, n: nat) {
    && a + n <= |pages|
    && forall p: nat :: a <= p < a + n ==>
      a <= Base(p, pages[p].order) && Base(p, pages[p].order) + Pow2(pages[p].order) <= a + n
  }

  lemma RewriteWhole(pages: seq<Page>, pages': seq<Page>, a: nat, n: nat, p: nat)
    requires Partition(pages) && Rewritten(pages, pages', a, n) && Closed(pages, a, n)
    requires p < |pages| && !(a <= p < a + n)
    ensures Whole(pages', p)
  {
    var o, h := pages[p].order, Base(p, pages[p].order);
    BaseHolds(p, o);
    assert Whole(pages, p);
    forall q | h <= q < h + Pow2(o)
      ensures pages'[q] == pages[q]
    {
      BlockPage(pages, p, q);
      if a <= q < a + n {
        assert false;
      }
    }
  }

  lemma RewritePartition(pages: seq<Page>, pages': seq<Page>, a: nat, n: nat)
    requires Partition(pages) && Rewritten(pages, pages', a, n) && Closed(pages, a, n)
    requires forall p: nat :: a <= p < a + n ==> Whole(pages', p) && pages'[p].zone == ZoneOf(p)
    ensures Partition(pages')
  {
    forall p: nat | p < |pages'|
      ensures Whole(pages', p) && pages'[p].zone == ZoneOf(p)
    {
      if !(a <= p < a + n) {
        RewriteWhole(pages, pages', a, n, p);
      }
    }
  }

  lemma BlockClosed(pages: seq<Page>, h: nat)
    requires Partition(pages) && h < |pages| && pages[h].head
    ensures Closed(pages, h, Pow2(pages[h].order))
  {
    assert Whole(pages, h);
    HeadIsBase(pages, h);
    forall p: nat | h <= p < h + Pow2(pages[h].order)
      ensures Base(p, pages[p].order) == h && pages[p].order == pages[h].order
    {
      BlockPage(pages, h, p);
    }
  }

  // A mergeable block's buddy is a block head, too.
  lemma MergeablePair(pages: seq<Page>, p: nat)
    requires Partition(pages) && p < |pages| && Mergeable(pages, p)
    ensures Aligned(p, pages[p].order) && pages[Buddy(p, pages[p].order)].head
    ensures Buddy(Buddy(p, pages[p].order), pages[p].order) == p
  {
    var b := Buddy(p, pages[p].order);
    assert Whole(pages, p);
    HeadIsBase(pages, p);
    BuddyPair(p, pages[p].order);
    assert Whole(pages, b);
    AlignedIsHead(pages, b);
  }

  lemma OnlyHead(pages: seq<Page>, h: nat, q: nat)
    requires Partition(pages) && h < |pages| && pages[h].head
    requires h <= q < h + Pow2(pages[h].order)
    ensures q < |pages| && (pages[q].head <==> q == h)
  {
    assert Whole(pages, h);
    HeadIsBase(pages, h);
  }

  // A pair of free buddies outside the rewritten pages was there before.
  lemma OutsideMergeable(pages: seq<Page>, pages': seq<Page>, a: nat, n: nat, p: nat)
    requires Rewritten(pages, pages', a, n)
    requires p < |pages'| && Mergeable(pages', p)
    requires !(a <= p < a + n) && !(a <= Buddy(p, pages'[p].order) < a + n)
    ensures Mergeable(pages, p) && pages[p].order == pages'[p].order
  {
  }

  // ---- split ----

  // The block at h of order o has become two free blocks of order o - 1.
  ghost predicate SplitDone(pages: seq<Page>, pages': seq<Page>, h: nat, o: nat)
    requires 0 < o && h < |pages|
  {
    && Rewritten(pages, pages', h, Pow2(o))
    && forall q :: h <= q < h + Pow2(o) ==>
      pages'[q] == Page(q == h || q == h + Pow2(o - 1), true, o - 1, pages[h].zone, 0)
  }

  lemma SplitPartition(pages: seq<Page>, pages': seq<Page>, h: nat, o: nat)
    requires Partition(pages) && 0 < o && FreeBlock(pages, h, o) && SplitDone(pages, pages', h, o)
    ensures Partition(pages')
    ensures Aligned(h, o - 1) && Aligned(h + Pow2(o - 1), o - 1)
  {
    var s := Pow2(o - 1);
    assert Whole(pages, h);
    HeadIsBase(pages, h);
    SplitAligned(h, o - 1);
    BlockClosed(pages, h);
    forall p: nat | h <= p < h + Pow2(o)
      ensures Whole(pages', p) && pages'[p].zone == ZoneOf(p)
    {
      BaseUnique(p, o - 1, if p < h + s then h else h + s);
    }
    RewritePartition(pages, pages', h, Pow2(o));
  }

  lemma SplitCanonical(pages: seq<Page>, pages': seq<Page>, h: nat, o: nat)
    requires Partition(pages) && 0 < o && FreeBlock(pages, h, o) && SplitDone(pages, pages', h, o)
    requires CanonicalExcept(pages, h)
    ensures CanonicalExcept(pages', h)
  {
    SplitPartition(pages, pages', h, o);
    SplitBuddy(pages, h, o);
    hide Partition;
    forall p: nat | p < |pages'| && Mergeable(pages', p)
      ensures p == h || Buddy(p, pages'[p].order) == h
    {
      var b := Buddy(p, pages'[p].order);
      MergeablePair(pages', p);
      if !(h <= p < h + Pow2(o)) && !(h <= b < h + Pow2(o)) {
        OutsideMergeable(pages, pages', h, Pow2(o), p);
      }
    }
  }

  lemma SplitBuddy(pages: seq<Page>, h: nat, o: nat)
    requires Partition(pages) && 0 < o && FreeBlock(pages, h, o)
    ensures Buddy(h, o - 1) == h + Pow2(o - 1) && Buddy(h + Pow2(o - 1), o - 1) == h
  {
    assert Whole(pages, h);
    HeadIsBase(pages, h);
    SplitAligned(h, o - 1);
  }

  // ---- merge ----

  // The free buddies at h and h + Pow2(o) have become one free block of order o + 1.
  ghost predicate MergeDone(pages: seq<Page>, pages': seq<Page>, h: nat, o: nat) {
    && Rewritten(pages, pages', h, Pow2(o + 1))
    && forall q :: h <= q < h + Pow2(o + 1) ==>
      pages'[q] == Page(q == h, true, o + 1, pages[q].zone, pages[q].refs)
  }

  // Two free buddies of order o < 15 in one zone, the left one at h.
  ghost predicate Buddies(pages: seq<Page>, h: nat, o: nat) {
    && o < MAX_ORDER - 1 && Aligned(h, o + 1)
    && FreeBlock(pages, h, o) && FreeBlock(pages, h + Pow2(o), o)
    && pages[h].zone == pages[h + Pow2(o)].zone
  }

  lemma BuddiesClosed(pages: seq<Page>, h: nat, o: nat)
    requires Partition(pages) && Buddies(pages, h, o)
    ensures Closed(pages, h, Pow2(o + 1))
    ensures FreeRun(pages, h, Pow2(o + 1), pages[h].zone)
  {
    assert Whole(pages, h) && Whole(pages, h + Pow2(o));
    HeadIsBase(pages, h);
    HeadIsBase(pages, h + Pow2(o));
    BlockClosed(pages, h);
    BlockClosed(pages, h + Pow2(o));
  }

  lemma MergePartition(pages: seq<Page>, pages': seq<Page>, h: nat, o: nat)
    requires Partition(pages) && Buddies(pages, h, o) && MergeDone(pages, pages', h, o)
    ensures Partition(pages')
  {
    BuddiesClosed(pages, h, o);
    forall p: nat | h <= p < h + Pow2(o + 1)
      ensures Whole(pages', p) && pages'[p].zone == ZoneOf(p)
    {
      BaseUnique(p, o + 1, h);
    }
    RewritePartition(pages, pages', h, Pow2(o + 1));
  }

  lemma MergeCanonical(pages: seq<Page>, pages': seq<Page>, h: nat, o: nat, x: nat)
    requires Partition(pages) && Buddies(pages, h, o) && MergeDone(pages, pages', h, o)
    requires x == h || x == h + Pow2(o)
    requires CanonicalExcept(pages, x)
    ensures CanonicalExcept(pages', h)
  {
    MergePartition(pages, pages', h, o);
    hide Partition;
    forall p: nat | p < |pages'| && Mergeable(pages', p)
      ensures p == h || Buddy(p, pages'[p].order) == h
    {
      var b := Buddy(p, pages'[p].order);
      MergeablePair(pages', p);
      if p != h && b != h {
        OutsideMergeable(pages, pages', h, Pow2(o + 1), p);
        assert false;
      }
    }
  }

  // ---- allocate and free one whole block ----

  // The block at h of order o has been marked allocated with one reference.
  ghost predicate TakeDone(pages: seq<Page>, pages': seq<Page>, h: nat, o: nat) {
    && Rewritten(pages, pages', h, Pow2(o))
    && forall q :: h <= q < h + Pow2(o) ==>
      pages'[q] == Page(q == h, false, pages[q].order, pages[q].zone, 1)
  }

  // The allocated block at h of order o has been marked free.
  ghost predicate GiveDone(pages: seq<Page>, pages': seq<Page>, h: nat, o: nat) {
    && Rewritten(pages, pages', h, Pow2(o))
    && forall q :: h <= q < h + Pow2(o) ==> pages'[q] == pages[q].(free := true, refs := 0)
  }

  // Every page of the block at h of order o has the given reference count.
  ghost predicate RefsDone(pages: seq<Page>, pages': seq<Page>, h: nat, o: nat, refs: nat) {
    && Rewritten(pages, pages', h, Pow2(o))
    && forall q :: h <= q < h + Pow2(o) ==> pages'[q] == pages[q].(refs := refs)
  }

  // The pages of one block change together.
  ghost predicate BlockDone(pages: seq<Page>, pages': seq<Page>, h: nat) {
    && h < |pages| && Rewritten(pages, pages', h, Pow2(pages[h].order))
    && (forall q :: h <= q < h + Pow2(pages[h].order) ==>
          && pages'[q].order == pages[h].order && pages'[q].zone == pages[h].zone
          && SameBlock(pages'[q], pages'[h]) && (pages'[q].head <==> q == h))
  }

  lemma BlockPartition(pages: seq<Page>, pages': seq<Page>, h: nat)
    requires Partition(pages) && BlockDone(pages, pages', h) && pages[h].head
    ensures Partition(pages')
  {
    var o := pages[h].order;
    assert Whole(pages, h);
    HeadIsBase(pages, h);
    BlockClosed(pages, h);
    forall p: nat | h <= p < h + Pow2(o)
      ensures Whole(pages', p) && pages'[p].zone == ZoneOf(p)
    {
      BaseUnique(p, o, h);
    }
    RewritePartition(pages, pages', h, Pow2(o));
  }

  lemma TakeCanonical(pages: seq<Page>, pages': seq<Page>, h: nat, o: nat)
    requires Partition(pages) && FreeBlock(pages, h, o) && TakeDone(pages, pages', h, o)
    requires CanonicalExcept(pages, h)
    ensures Canonical(pages')
  {
    forall p: nat | p < |pages'|
      ensures !Mergeable(pages', p)
    {
      if Mergeable(pages', p) {
        OutsideMergeable(pages, pages', h, Pow2(o), p);
        assert false;
      }
    }
  }

  lemma GiveCanonical(pages: seq<Page>, pages': seq<Page>, h: nat, o: nat)
    requires Partition(pages) && h < |pages| && pages[h].head && pages[h].order == o
    requires GiveDone(pages, pages', h, o)
    requires Canonical(pages)
    ensures CanonicalExcept(pages', h)
  {
    GivePartition(pages, pages', h, o);
    hide Partition;
    forall p: nat | p < |pages'| && Mergeable(pages', p)
      ensures p == h || Buddy(p, pages'[p].order) == h
    {
      var b := Buddy(p, pages'[p].order);
      MergeablePair(pages', p);
      if h <= p < h + Pow2(o) {
        OnlyHead(pages', h, p);
      } else if h <= b < h + Pow2(o) {
        OnlyHead(pages', h, b);
      } else {
        OutsideMergeable(pages, pages', h, Pow2(o), p);
        assert false;
      }
    }
  }

  lemma GivePartition(pages: seq<Page>, pages': seq<Page>, h: nat, o: nat)
    requires Partition(pages) && h < |pages| && pages[h].head && pages[h].order == o
    requires GiveDone(pages, pages', h, o)
    ensures Partition(pages')
  {
    assert Whole(pages, h);
    HeadIsBase(pages, h);
    assert BlockDone(pages, pages', h);
    BlockPartition(pages, pages', h);
  }
}
