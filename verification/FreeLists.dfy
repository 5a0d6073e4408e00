// The per-zone, per-order free lists and their agreement with the block table.
module FreeLists {
  import opened Powers
  import opened Blocks
  import opened Sequences
  import opened BlockTable

  const ZONES: nat := 3

  type Lists = seq<seq<seq<nat>>>

  // (zone, order, first page) of a free block
  type Entry = (nat, nat, nat)

  ghost predicate Shape(lists: Lists) {
    |lists| == ZONES && forall z :: 0 <= z < ZONES ==> |lists[z]| == MAX_ORDER
  }

  // The lists hold exactly the entries of set e, each once.
  ghost predicate Holds(lists: Lists, e: set<Entry>) {
    && Shape(lists)
    && (forall z, o :: 0 <= z < ZONES && 0 <= o < MAX_ORDER ==> NoRepeats(lists[z][o]))
    && (forall z: nat, o: nat, p: nat :: z < ZONES && o < MAX_ORDER ==> (p in lists[z][o] <==> (z, o, p) in e))
  }

  // list_add: push at the front of list (z, o).
  function Push(lists: Lists, z: nat, o: nat, p: nat): (l: Lists)
    requires Shape(lists) && z < ZONES && o < MAX_ORDER
    ensures Shape(l)
  {
    lists[z := lists[z][o := [p] + lists[z][o]]]
  }

  // list_del: unlink p from list (z, o).
  function Unlink(lists: Lists, z: nat, o: nat, p: nat): (l: Lists)
    requires Shape(lists) && z < ZONES && o < MAX_ORDER
    ensures Shape(l)
  {
    lists[z := lists[z][o := Without(lists[z][o], p)]]
  }

  lemma PushHolds(lists: Lists, e: set<Entry>, z: nat, o: nat, p: nat)
    requires Holds(lists, e) && z < ZONES && o < MAX_ORDER && (z, o, p) !in e
    ensures Holds(Push(lists, z, o, p), e + {(z, o, p)})
  {
    var s := lists[z][o];
    assert ([p] + s)[1..] == s;
  }

  lemma UnlinkHolds(lists: Lists, e: set<Entry>, z: nat, o: nat, p: nat)
    requires Holds(lists, e) && z < ZONES && o < MAX_ORDER
    ensures Holds(Unlink(lists, z, o, p), e - {(z, o, p)})
  {
    var s := lists[z][o];
    WithoutMembers(s, p);
    assert forall q :: q in Without(s, p) <==> q in Members(Without(s, p));
    assert forall q :: q in s <==> q in Members(s);
  }

  // ---------------------------------------------------------------- the order of the lists

  // Every list runs from high to low page frames, all of them below the limit.
  ghost predicate Descending(lists: Lists, limit: int) {
    && Shape(lists)
    && (forall z, o, i :: 0 <= z < ZONES && 0 <= o < MAX_ORDER && 0 <= i < |lists[z][o]| ==> lists[z][o][i] < limit)
    && (forall z, o, i, j :: 0 <= z < ZONES && 0 <= o < MAX_ORDER && 0 <= i < j < |lists[z][o]| ==>
          lists[z][o][i] > lists[z][o][j])
  }

  lemma PushDescends(lists: Lists, z: nat, o: nat, p: nat, limit: int)
    requires Descending(lists, p) && z < ZONES && o < MAX_ORDER && p < limit
    ensures Descending(Push(lists, z, o, p), limit)
  {}

  lemma DescendsBelow(lists: Lists, limit: int, limit': int)
    requires Descending(lists, limit) && limit <= limit'
    ensures Descending(lists, limit')
  {}

  // Block p, listed at order k of zone z, has been split down to order o: its upper halves head
  // their lists, and p itself follows the last of them.
  ghost predicate SplitTo(lists: Lists, lists': Lists, z: nat, p: nat, o: nat, k: nat) {
    && Shape(lists) && Shape(lists') && o <= k < MAX_ORDER
    && forall y, j :: 0 <= y < ZONES && 0 <= j < MAX_ORDER ==>
         lists'[y][j] == if y == z && o <= j <= k then SplitList(lists[y][j], p, j, o, k) else lists[y][j]
  }

  ghost function SplitList(list: seq<nat>, p: nat, j: nat, o: nat, k: nat): seq<nat> {
    if o == k then list
    else if j == k then Without<nat>(list, p)
    else if j == o then [p + Pow2(j), p] + list
    else [p + Pow2(j)] + list
  }

  // The first block p of list (z, k) is gone, but for the upper halves down to order o.
  ghost predicate TakenFrom(lists: Lists, lists': Lists, z: nat, p: nat, o: nat, k: nat) {
    && Shape(lists) && Shape(lists') && z < ZONES && o <= k < MAX_ORDER && lists[z][k] != [] && lists[z][k][0] == p
    && lists'[z][k] == lists[z][k][1..]
    && (forall j :: o <= j < k ==> lists'[z][j] == [p + Pow2(j)] + lists[z][j])
    && forall y, j :: 0 <= y < ZONES && 0 <= j < MAX_ORDER && !(y == z && o <= j <= k) ==> lists'[y][j] == lists[y][j]
  }

  // Block p of order o has been given back to zone z and joined with its buddies up to order k: it
  // heads its list, and the buddies are gone from theirs.
  ghost predicate GivenTo(lists: Lists, lists': Lists, z: nat, p: nat, o: nat, k: nat) {
    && Shape(lists) && Shape(lists') && z < ZONES && o <= k < MAX_ORDER
    && lists'[z][k] == [Base(p, k)] + lists[z][k]
    && (forall j :: o <= j < k ==> lists'[z][j] == Without(lists[z][j], Buddy(Base(p, j), j)))
    && forall y, j :: 0 <= y < ZONES && 0 <= j < MAX_ORDER && !(y == z && o <= j <= k) ==> lists'[y][j] == lists[y][j]
  }

  // Without a split the lists are as before; block p is put in front of its list.
  lemma SplitNone(lists: Lists, z: nat, p: nat, o: nat)
    requires Shape(lists) && o < MAX_ORDER
    ensures SplitTo(lists, lists, z, p, o, o)
  {}

  lemma GivenFirst(lists: Lists, z: nat, p: nat, o: nat)
    requires Shape(lists) && z < ZONES && o < MAX_ORDER && Aligned(p, o)
    ensures GivenTo(lists, Push(lists, z, o, p), z, p, o, o)
  {
    BasePositive(o);
    BaseUnique(p, o, p);
  }

  lemma BasePositive(o: nat)
    ensures Pow2(o) > 0
  {}

  // The lower of a block and its buddy is the block of the next order.
  lemma LowerBuddy(p: nat, k: nat)
    ensures var b, q := Base(p, k), Buddy(Base(p, k), k); Base(p, k + 1) == if b < q then b else q
  {
    BaseHolds(p, k);
    BuddyPair(Base(p, k), k);
    BaseUnique(p, k + 1, if Base(p, k) < Buddy(Base(p, k), k) then Base(p, k) else Buddy(Base(p, k), k));
  }

  lemma SplitRow(lists: Lists, lists': Lists, z: nat, p: nat, o: nat, k: nat)
    requires SplitTo(lists, lists', z, p, o, k) && z < ZONES && o > 0
    ensures SplitTo(lists, Push(Push(Unlink(lists', z, o, p), z, o - 1, p), z, o - 1, p + Pow2(o - 1)), z, p, o - 1, k)
  {
    var next := Push(Push(Unlink(lists', z, o, p), z, o - 1, p), z, o - 1, p + Pow2(o - 1));
    SplitStep(lists[z][o], lists[z][o - 1], p, o, k);
    assert next[z][o] == Without(lists'[z][o], p);
    assert next[z][o - 1] == [p + Pow2(o - 1), p] + lists[z][o - 1];
    hide Without, SplitList, Pow2;
    forall y, j | 0 <= y < ZONES && 0 <= j < MAX_ORDER && !(y == z && o - 1 <= j <= o)
      ensures next[y][j] == lists'[y][j]
    {
    }
    SplitElsewhere(lists[z], p, o, k);
  }

  lemma SplitStep(list: seq<nat>, lower: seq<nat>, p: nat, o: nat, k: nat)
    requires 0 < o <= k
    ensures Without(SplitList(list, p, o, o, k), p) == SplitList(list, p, o, o - 1, k)
    ensures SplitList(lower, p, o - 1, o - 1, k) == [p + Pow2(o - 1), p] + lower
  {
    if o < k {
      WithoutSecond(p + Pow2(o), p, list);
    }
  }

  // The lists above are not touched.
  lemma SplitElsewhere(row: seq<seq<nat>>, p: nat, o: nat, k: nat)
    requires 0 < o <= k < |row|
    ensures forall j :: o < j <= k ==> SplitList(row[j], p, j, o - 1, k) == SplitList(row[j], p, j, o, k)
  {}

  lemma WithoutSecond(a: nat, b: nat, s: seq<nat>)
    requires a != b
    ensures Without([a, b] + s, b) == [a] + s
  {
    assert ([a, b] + s)[1..] == [b] + s;
    assert ([b] + s)[1..] == s;
  }

  lemma TakeRow(lists: Lists, lists': Lists, z: nat, p: nat, o: nat, k: nat)
    requires SplitTo(lists, lists', z, p, o, k) && z < ZONES && lists[z][k] != [] && lists[z][k][0] == p
    ensures TakenFrom(lists, Unlink(lists', z, o, p), z, p, o, k)
  {
    var next := Unlink(lists', z, o, p);
    forall j | o <= j <= k
      ensures next[z][j] == if j == k then lists[z][j][1..] else [p + Pow2(j)] + lists[z][j]
    {
      TakeList(lists[z][j], p, j, o, k);
    }
    hide Without, SplitList, Pow2;
  }

  lemma TakeList(list: seq<nat>, p: nat, j: nat, o: nat, k: nat)
    requires o <= j <= k && (j == k ==> list != [] && list[0] == p)
    ensures var s := SplitList(list, p, j, o, k);
      (if j == o then Without(s, p) else s) == if j == k then list[1..] else [p + Pow2(j)] + list
  {
    if j == o < k {
      WithoutSecond(p + Pow2(j), p, list);
    }
  }

  lemma MergeRow(lists: Lists, lists': Lists, z: nat, p: nat, o: nat, k: nat)
    requires GivenTo(lists, lists', z, p, o, k) && k + 1 < MAX_ORDER
    ensures var b := Buddy(Base(p, k), k);
      GivenTo(lists, Push(Unlink(Unlink(lists', z, k, Base(p, k)), z, k, b), z, k + 1, Base(p, k + 1)), z, p, o, k + 1)
  {
    hide Base, Buddy;
    assert ([Base(p, k)] + lists[z][k])[1..] == lists[z][k];
  }

  // The free blocks of a block table.
  ghost function FreeEntries(pages: seq<Page>): set<Entry> {
    set p: nat | p < |pages| && pages[p].head && pages[p].free :: (pages[p].zone, pages[p].order, p)
  }

  lemma SplitEntries(pages: seq<Page>, pages': seq<Page>, h: nat, o: nat)
    requires Partition(pages) && 0 < o && FreeBlock(pages, h, o) && SplitDone(pages, pages', h, o)
    ensures FreeEntries(pages')
         == FreeEntries(pages) - {(pages[h].zone, o, h)} + {(pages[h].zone, o - 1, h), (pages[h].zone, o - 1, h + Pow2(o - 1))}
  {
    forall q: nat | h <= q < h + Pow2(o)
      ensures q < |pages| && (pages[q].head <==> q == h)
    {
      OnlyHead(pages, h, q);
    }
    var r := h + Pow2(o - 1);
    assert pages'[h].head && pages'[h].order == o - 1 && pages'[r].head && pages'[r].order == o - 1;
  }

  lemma MergeEntries(pages: seq<Page>, pages': seq<Page>, h: nat, o: nat)
    requires Partition(pages) && Buddies(pages, h, o) && MergeDone(pages, pages', h, o)
    ensures FreeEntries(pages')
         == FreeEntries(pages) - {(pages[h].zone, o, h), (pages[h].zone, o, h + Pow2(o))} + {(pages[h].zone, o + 1, h)}
  {
    forall q: nat | h <= q < h + Pow2(o + 1)
      ensures q < |pages| && (pages[q].head <==> q == h || q == h + Pow2(o))
    {
      OnlyHead(pages, if q < h + Pow2(o) then h else h + Pow2(o), q);
    }
  }

  lemma TakeEntries(pages: seq<Page>, pages': seq<Page>, h: nat, o: nat)
    requires Partition(pages) && FreeBlock(pages, h, o) && TakeDone(pages, pages', h, o)
    ensures FreeEntries(pages') == FreeEntries(pages) - {(pages[h].zone, o, h)}
  {
    forall q: nat | h <= q < h + Pow2(o)
      ensures q < |pages| && (pages[q].head <==> q == h)
    {
      OnlyHead(pages, h, q);
    }
  }

  lemma GiveEntries(pages: seq<Page>, pages': seq<Page>, h: nat, o: nat)
    requires Partition(pages) && h < |pages| && pages[h].head && pages[h].order == o && !pages[h].free
    requires GiveDone(pages, pages', h, o)
    ensures FreeEntries(pages') == FreeEntries(pages) + {(pages[h].zone, o, h)}
    ensures (pages[h].zone, o, h) !in FreeEntries(pages)
  {
    forall q: nat | h <= q < h + Pow2(o)
      ensures q < |pages| && (pages[q].head <==> q == h)
    {
      OnlyHead(pages, h, q);
    }
  }
}
