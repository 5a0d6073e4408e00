/**
 * Where a block of a file hangs in the ext2 block map, and from which entry on a truncation may
 * release the indirect trees. e is the number of entries of one indirect block.
 */
module Ext2Map {
  const DIRECT: nat := 12
  const U32: nat := 0x1_0000_0000

  // The way to a block: the entry of the inode for depth 0, else one index for every level, the
  // index in the root block first.
  datatype Path =
    | Direct(entry: nat)
    | Single(l1: nat)
    | Double(l2: nat, l1: nat)
    | Triple(l3: nat, l2: nat, l1: nat)

  ghost predicate InRange(p: Path, e: nat) {
    match p
    case Direct(entry) => entry < DIRECT
    case Single(l1) => l1 < e
    case Double(l2, l1) => l2 < e && l1 < e
    case Triple(l3, l2, l1) => l3 < e && l2 < e && l1 < e
  }

  function Depth(p: Path): nat {
    match p
    case Direct(_) => 0
    case Single(_) => 1
    case Double(_, _) => 2
    case Triple(_, _, _) => 3
  }

  // The block that a path leads to.
  function BlockOf(p: Path, e: nat): nat {
    match p
    case Direct(entry) => entry
    case Single(l1) => DIRECT + l1
    case Double(l2, l1) => DIRECT + e + l2 * e + l1
    case Triple(l3, l2, l1) => DIRECT + e + e * e + l3 * (e * e) + (l2 * e + l1)
  }

  function Div(x: nat, d: nat): nat
    requires d > 0
  {
    x / d
  }

  function Mod(x: nat, d: nat): nat
    requires d > 0
  {
    x % d
  }

  // e * e in 32 bits
  function Square(e: nat): nat {
    e * e % U32
  }

  // ext2_bmap_levels, in 32-bit arithmetic, for the given square of e
  function Levels(lb: nat, e: nat, square: nat): Path
    requires e > 0 && square > 0
  {
    if lb < DIRECT then Direct(lb)
    else
      var idx := lb - DIRECT;
      if idx < e then Single(idx)
      else if idx < (e + square) % U32 then Double(Div(idx - e, e), Mod(idx - e, e))
      else
        var rest := (idx - (e + square)) % U32;
        Triple(Div(rest, square), Div(Mod(rest, square), e), Mod(Mod(rest, square), e))
  }

  // How many blocks the tree of the given depth reaches, and where its first block is.
  function Capacity(e: nat, level: nat): nat {
    if level == 0 then 1 else Capacity(e, level - 1) * e
  }

  function FirstBlock(e: nat, level: nat): nat
    requires 1 <= level
  {
    if level == 1 then DIRECT else FirstBlock(e, level - 1) + Capacity(e, level - 1)
  }

  // No 32-bit step of the computation wraps.
  ghost predicate Fits(e: nat) {
    0 < e && e + e * e < U32
  }

  lemma Digit(x: nat, d: nat)
    requires d > 0
    ensures x == Div(x, d) * d + Mod(x, d) && Mod(x, d) < d
  {}

  lemma DigitsAre(q: nat, r: nat, d: nat)
    requires r < d
    ensures Div(q * d + r, d) == q && Mod(q * d + r, d) == r
  {
    hide Div, Mod;
    var x := q * d + r;
    Digit(x, d);
    Same(Div(x, d), q, d);
    Same(q, Div(x, d), d);
  }

  lemma Same(p: nat, q: nat, d: nat)
    requires d > 0 && p * d < q * d + d
    ensures p <= q
  {
    if p > q {
      Wider(q + 1, p, d);
    }
  }

  lemma Wider(a: nat, b: nat, d: nat)
    requires a <= b
    ensures a * d <= b * d
  {}

  lemma Narrower(x: nat, q: nat, d: nat)
    requires d > 0 && x < q * d
    ensures Div(x, d) < q
  {
    hide Div, Mod;
    Digit(x, d);
    if Div(x, d) >= q {
      Wider(q, Div(x, d), d);
    }
  }

  lemma SquareFits(e: nat)
    requires Fits(e)
    ensures Square(e) == e * e > 0
  {
    Wider(1, e, e);
  }

  // Every block below the end of the triple tree has a path in range, and the path leads back.
  lemma LevelsLeadBack(lb: nat, e: nat)
    requires Fits(e) && lb < DIRECT + e + e * e + e * e * e && lb < U32
    ensures Square(e) > 0
    ensures InRange(Levels(lb, e, Square(e)), e) && BlockOf(Levels(lb, e, Square(e)), e) == lb
  {
    hide Div, Mod;
    SquareFits(e);
    if DIRECT + e <= lb {
      var idx := lb - DIRECT - e;
      if idx < e * e {
        Digit(idx, e);
        Narrower(idx, e, e);
      } else {
        TripleDigits(idx - e * e, e, e * e);
      }
    }
  }

  lemma TripleDigits(rest: nat, e: nat, s: nat)
    requires e > 0 && s == e * e > 0 && rest < e * e * e
    ensures Div(rest, s) < e && Div(Mod(rest, s), e) < e && Mod(Mod(rest, s), e) < e
    ensures rest == Div(rest, s) * s + (Div(Mod(rest, s), e) * e + Mod(Mod(rest, s), e))
  {
    hide Div, Mod;
    assert e * e * e == e * s;
    Digit(rest, s);
    Narrower(rest, e, s);
    Digit(Mod(rest, s), e);
    Narrower(Mod(rest, s), e, e);
  }

  // And every path in range is the path of the block it leads to.
  lemma PathsAreLevels(p: Path, e: nat)
    requires Fits(e) && InRange(p, e) && BlockOf(p, e) < U32
    ensures Square(e) > 0
    ensures Levels(BlockOf(p, e), e, Square(e)) == p && BlockOf(p, e) < DIRECT + e + e * e + e * e * e
  {
    hide Square, Levels, Div, Mod, BlockOf;
    SquareFits(e);
    match p
    case Direct(_) => ShallowBack(p, e, e * e);
    case Single(_) => ShallowBack(p, e, e * e);
    case Double(l2, l1) =>
      DoubleBack(p, e, e * e, l2 * e + l1);
    case Triple(l3, l2, l1) =>
      TripleBack(p, e, e * e, l2 * e + l1);
  }

  lemma ShallowBack(p: Path, e: nat, square: nat)
    requires e > 0 && square > 0 && Depth(p) <= 1 && InRange(p, e)
    ensures Levels(BlockOf(p, e), e, square) == p && BlockOf(p, e) < DIRECT + e
  {}

  lemma DoubleBack(p: Path, e: nat, square: nat, low: nat)
    requires p.Double? && InRange(p, e) && square == e * e > 0 && e + square < U32 && low == p.l2 * e + p.l1
    ensures Levels(BlockOf(p, e), e, square) == p && BlockOf(p, e) < DIRECT + e + square
  {
    hide Div, Mod;
    Below2(p.l2, p.l1, e);
    DigitsAre(p.l2, p.l1, e);
  }

  lemma TripleBack(p: Path, e: nat, square: nat, low: nat)
    requires p.Triple? && InRange(p, e) && square == e * e > 0 && e + square < U32 && low == p.l2 * e + p.l1
    requires BlockOf(p, e) < U32
    ensures Levels(BlockOf(p, e), e, square) == p && BlockOf(p, e) < DIRECT + e + square + e * e * e
  {
    hide Div, Mod, Levels;
    Below2(p.l2, p.l1, e);
    Below3(p.l3, low, e);
    DigitsAre(p.l3, low, square);
    DigitsAre(p.l2, p.l1, e);
    TripleBranch(BlockOf(p, e), e, square, p.l3 * square + low);
  }

  lemma TripleBranch(lb: nat, e: nat, square: nat, rest: nat)
    requires e > 0 && square > 0 && e + square < U32 && lb == DIRECT + e + square + rest < U32
    ensures Levels(lb, e, square) == Triple(Div(rest, square), Div(Mod(rest, square), e), Mod(Mod(rest, square), e))
  {
    hide Div, Mod;
  }

  lemma Below2(l2: nat, l1: nat, e: nat)
    requires l2 < e && l1 < e
    ensures l2 * e + l1 < e * e
  {
    Wider(l2 + 1, e, e);
  }

  lemma Below3(l3: nat, r: nat, e: nat)
    requires l3 < e && r < e * e
    ensures l3 * (e * e) + r < e * e * e
  {
    Wider(l3 + 1, e, e * e);
    assert e * (e * e) == e * e * e;
  }

  // ---------------------------------------------------------------- truncation

  lemma Layers(e: nat)
    ensures Capacity(e, 1) == e && Capacity(e, 2) == e * e && Capacity(e, 3) == e * e * e
    ensures FirstBlock(e, 1) == DIRECT && FirstBlock(e, 2) == DIRECT + e && FirstBlock(e, 3) == DIRECT + e + e * e
  {
    assert Capacity(e, 0) == 1;
    assert Capacity(e, 1) == Capacity(e, 0) * e;
    assert Capacity(e, 2) == Capacity(e, 1) * e;
    assert FirstBlock(e, 2) == FirstBlock(e, 1) + Capacity(e, 1);
  }

  // Both functions draw the same borders between the trees.
  lemma SameBorders(lb: nat, e: nat, level: nat)
    requires Fits(e) && lb < DIRECT + e + e * e + e * e * e && lb < U32 && 1 <= level <= 3
    ensures Square(e) > 0
    ensures Depth(Levels(lb, e, Square(e))) == level <==> FirstBlock(e, level) <= lb < FirstBlock(e, level) + Capacity(e, level)
  {
    hide Capacity, FirstBlock, Square, Levels;
    SquareFits(e);
    Layers(e);
    DepthOf(lb, e, e * e);
  }

  lemma DepthOf(lb: nat, e: nat, square: nat)
    requires e > 0 && square > 0 && e + square < U32
    ensures var d := Depth(Levels(lb, e, square));
      && (d == 0 <==> lb < DIRECT) && (d == 1 <==> DIRECT <= lb < DIRECT + e)
      && (d == 2 <==> DIRECT + e <= lb < DIRECT + e + square) && (d == 3 <==> DIRECT + e + square <= lb)
  {
    hide Div, Mod;
  }

  // The index in the root block of the tree that holds the block.
  function RootIndex(p: Path): nat
    requires Depth(p) >= 1
  {
    match p
    case Single(l1) => l1
    case Double(l2, _) => l2
    case Triple(l3, _, _) => l3
  }

  // What ext2_truncate does with the tree of one level.
  datatype Action = Keep | FreeAll | FreeFrom(start: nat)

  // The blocks below entry k of the root start at this one.
  function EntryStart(e: nat, level: nat, k: nat): nat
    requires 1 <= level
  {
    FirstBlock(e, level) + k * Capacity(e, level - 1)
  }

  // A tree goes as a whole when it starts at or past the new end; else exactly those root entries
  // go whose blocks all lie there.
  ghost predicate Right(action: Action, e: nat, level: nat, newBlocks: nat)
    requires 1 <= level
  {
    match action
    case FreeAll => newBlocks <= FirstBlock(e, level)
    case Keep => FirstBlock(e, level) + Capacity(e, level) <= newBlocks
    case FreeFrom(start) =>
      && FirstBlock(e, level) < newBlocks < FirstBlock(e, level) + Capacity(e, level)
      && 0 < start <= e
      && forall k: nat :: start <= k <==> newBlocks <= EntryStart(e, level, k)
  }

  // ceil(n / d)
  lemma Ceiling(n: nat, d: nat, k: nat)
    requires d > 0
    ensures Div(n + d - 1, d) <= k <==> n <= k * d
  {
    hide Div, Mod;
    var c := Div(n + d - 1, d);
    Digit(n + d - 1, d);
    if c <= k {
      Wider(c, k, d);
    } else {
      Wider(k + 1, c, d);
    }
  }

  // The thresholds of ext2_truncate for the trees of all three levels
  method Plan(newBlocks: nat, e: nat) returns (plan: seq<Action>)
    requires Fits(e)
    ensures |plan| == 3
    ensures forall i :: 0 <= i < |plan| ==> Right(plan[i], e, i + 1, newBlocks)
  {
    plan := [];
    var thresholdBase := DIRECT;
    var level := 1;
    while level <= 3
      invariant 1 <= level <= 4 && |plan| == level - 1
      invariant thresholdBase == FirstBlock(e, level)
      invariant forall i :: 0 <= i < |plan| ==> Right(plan[i], e, i + 1, newBlocks)
    {
      var layerCapacity := 1;
      var i := 0;
      while i < level
        invariant 0 <= i <= level && layerCapacity == Capacity(e, i)
      {
        layerCapacity := layerCapacity * e;
        i := i + 1;
      }
      thresholdBase := thresholdBase + layerCapacity;
      var action := Threshold(newBlocks, e, level, layerCapacity, thresholdBase);
      plan := plan + [action];
      level := level + 1;
    }
  }

  // One turn: what happens to a tree that exists
  method Threshold(newBlocks: nat, e: nat, level: nat, layerCapacity: nat, thresholdBase: nat) returns (action: Action)
    requires Fits(e) && 1 <= level <= 3 && layerCapacity == Capacity(e, level)
    requires thresholdBase == FirstBlock(e, level) + layerCapacity
    ensures Right(action, e, level, newBlocks)
  {
    var full := thresholdBase - layerCapacity;
    if newBlocks <= full {
      return FreeAll;
    } else if newBlocks < thresholdBase {
      SubCapacity(e, level);
      Start(newBlocks, e, level, Capacity(e, level - 1), newBlocks - full);
      if level == 1 {
        return FreeFrom((newBlocks - full) % U32);
      } else {
        return FreeFrom(Div(newBlocks - full + Div(layerCapacity, e) - 1, Div(layerCapacity, e)) % U32);
      }
    } else {
      return Keep;
    }
  }

  lemma {:induction false} CapacityPositive(e: nat, level: nat)
    requires e > 0
    ensures Capacity(e, level) > 0
  {
    if level > 0 {
      CapacityPositive(e, level - 1);
      Wider(1, Capacity(e, level - 1), e);
    }
  }

  lemma SubCapacity(e: nat, level: nat)
    requires e > 0 && level >= 1
    ensures Div(Capacity(e, level), e) == Capacity(e, level - 1) > 0 && Capacity(e, level) == Capacity(e, level - 1) * e
  {
    CapacityPositive(e, level - 1);
    DigitsAre(Capacity(e, level - 1), 0, e);
  }

  // The rounded-up quotient is the first entry that lies wholly at or past the new end.
  lemma Start(newBlocks: nat, e: nat, level: nat, sub: nat, n: nat)
    requires Fits(e) && 1 <= level && sub == Capacity(e, level - 1) > 0
    requires newBlocks == FirstBlock(e, level) + n && 0 < n < sub * e
    ensures var start := Div(n + sub - 1, sub);
      && 0 < start <= e && start % U32 == start
      && forall k: nat :: start <= k <==> newBlocks <= EntryStart(e, level, k)
  {
    hide FirstBlock, Capacity, Div;
    Ceiling(n, sub, 0);
    Ceiling(n, sub, e);
    Wider(1, e, e);
    forall k: nat
      ensures Div(n + sub - 1, sub) <= k <==> newBlocks <= EntryStart(e, level, k)
    {
      Ceiling(n, sub, k);
    }
  }

  // A block lies at or past the start of the root entry above it.
  lemma UnderEntry(lb: nat, e: nat, p: Path)
    requires Depth(p) >= 1 && BlockOf(p, e) == lb
    ensures EntryStart(e, Depth(p), RootIndex(p)) <= lb
  {
    Layers(e);
    hide Capacity, FirstBlock;
    assert Capacity(e, 0) == 1 by {
      CapacityZero(e);
    }
  }

  lemma CapacityZero(e: nat)
    ensures Capacity(e, 0) == 1
  {}

  // No block before the new end hangs below anything the plan frees.
  lemma LiveBlocksStay(lb: nat, e: nat, action: Action, newBlocks: nat)
    requires Fits(e) && lb < DIRECT + e + e * e + e * e * e && lb < U32
    requires Square(e) > 0 && Depth(Levels(lb, e, Square(e))) >= 1
    requires var p := Levels(lb, e, Square(e));
      && Right(action, e, Depth(p), newBlocks)
      && (action.FreeAll? || (action.FreeFrom? && action.start <= RootIndex(p)))
    ensures newBlocks <= lb
  {
    hide Levels, Square, Right, InRange, BlockOf;
    LevelsLeadBack(lb, e);
    PastEnd(lb, e, Levels(lb, e, Square(e)), action, newBlocks);
  }

  lemma PastEnd(lb: nat, e: nat, p: Path, action: Action, newBlocks: nat)
    requires Depth(p) >= 1 && BlockOf(p, e) == lb && Right(action, e, Depth(p), newBlocks)
    requires action.FreeAll? || (action.FreeFrom? && action.start <= RootIndex(p))
    ensures newBlocks <= lb
  {
    hide FirstBlock, Capacity, BlockOf;
    UnderEntry(lb, e, p);
    Wider(0, RootIndex(p), Capacity(e, Depth(p) - 1));
  }
}
