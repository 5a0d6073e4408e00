// Arithmetic of naturally aligned power-of-two blocks, bit by bit.
module Blocks {
  import opened Powers

  // The low o bits of p are zero.
  predicate Aligned(p: nat, o: nat) {
    o == 0 || (p % 2 == 0 && Aligned(p / 2, o - 1))
  }

  // p with its low o bits cleared: first page of the aligned block that holds page p.
  function Base(p: nat, o: nat): nat {
    if o == 0 then p else 2 * Base(p / 2, o - 1)
  }

  // p ^ (1 << o): p with bit o flipped.
  function Buddy(p: nat, o: nat): nat {
    if o > 0 then 2 * Buddy(p / 2, o - 1) + p % 2
    else if p % 2 == 0 then p + 1
    else p - 1
  }

  lemma {:induction false} BaseHolds(p: nat, o: nat)
    ensures Base(p, o) <= p < Base(p, o) + Pow2(o) && Aligned(Base(p, o), o)
  {
    if o > 0 {
      BaseHolds(p / 2, o - 1);
    }
  }

  lemma {:induction false} BaseUnique(p: nat, o: nat, h: nat)
    requires Aligned(h, o) && h <= p < h + Pow2(o)
    ensures Base(p, o) == h
  {
    if o > 0 {
      BaseUnique(p / 2, o - 1, h / 2);
    }
  }

  // An aligned block splits into two buddies.
  lemma {:induction false} SplitAligned(p: nat, o: nat)
    requires Aligned(p, o + 1)
    ensures Aligned(p, o) && Aligned(p + Pow2(o), o) && !Aligned(p + Pow2(o), o + 1)
    ensures Buddy(p, o) == p + Pow2(o) && Buddy(p + Pow2(o), o) == p
  {
    if o > 0 {
      SplitAligned(p / 2, o - 1);
      assert (p + Pow2(o)) / 2 == p / 2 + Pow2(o - 1);
    }
  }

  // A block is the left or the right half of the next larger block.
  lemma {:induction false} HalfOf(p: nat, o: nat)
    requires Aligned(p, o) && !Aligned(p, o + 1)
    ensures p >= Pow2(o) && Aligned(p - Pow2(o), o + 1)
  {
    if o > 0 {
      HalfOf(p / 2, o - 1);
      assert (p - Pow2(o)) / 2 == p / 2 - Pow2(o - 1);
    }
  }

  lemma {:induction false} AlignedLower(p: nat, o: nat, k: nat)
    requires o <= k && Aligned(p, k)
    ensures Aligned(p, o)
  {
    if o > 0 {
      AlignedLower(p / 2, o - 1, k - 1);
    }
  }

  // Blocks nest: the smaller block of a page lies inside the larger one.
  lemma {:induction false} BaseNested(p: nat, o: nat, k: nat)
    requires o <= k
    ensures Base(p, k) <= Base(p, o) && Base(p, o) + Pow2(o) <= Base(p, k) + Pow2(k)
    decreases o
  {
    if o > 0 {
      BaseNested(p / 2, o - 1, k - 1);
    } else {
      BaseHolds(p, k);
    }
  }

  lemma BuddyPair(p: nat, o: nat)
    requires Aligned(p, o)
    ensures Aligned(Buddy(p, o), o) && Buddy(Buddy(p, o), o) == p && Buddy(p, o) != p
    ensures Aligned(p, o + 1) ==> Buddy(p, o) == p + Pow2(o)
    ensures !Aligned(p, o + 1) ==> p >= Pow2(o) && Buddy(p, o) == p - Pow2(o) && Aligned(p - Pow2(o), o + 1)
  {
    if Aligned(p, o + 1) {
      SplitAligned(p, o);
    } else {
      HalfOf(p, o);
      SplitAligned(p - Pow2(o), o);
    }
  }
}
