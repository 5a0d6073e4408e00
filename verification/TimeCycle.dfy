/**
 * Conversion between clock cycles and nanoseconds by a multiplication and a shift: how the
 * parameters are chosen for a clock frequency, and how far the results can be off.
 */
module TimeCycle {
  import opened Powers

  const NS: nat := 1_000_000_000
  const MAX_SHIFT: nat := 32
  const U32: nat := 0x1_0000_0000
  const U64: nat := 0x1_0000_0000_0000_0000
  const U128: nat := U64 * U64

  lemma {:induction false} Pow2Adds(m: nat, n: nat, r: nat)
    requires r == m + n
    ensures Pow2(r) == Pow2(m) * Pow2(n)
  {
    if m > 0 {
      Pow2Adds(m - 1, n, r - 1);
      assert 2 * (Pow2(m - 1) * Pow2(n)) == 2 * Pow2(m - 1) * Pow2(n);
    }
  }

  lemma Pow2Values()
    ensures Pow2(31) == 0x8000_0000 && Pow2(32) == U32 && Pow2(64) == U64
  {
    assert Pow2(1) == 2 && Pow2(2) == 4 && Pow2(3) == 8 && Pow2(4) == 16;
    hide Pow2;
    Pow2Adds(4, 4, 8);
    Pow2Adds(8, 8, 16);
    Pow2Adds(16, 16, 32);
    Pow2Adds(32, 32, 64);
    Pow2Adds(1, 31, 32);
  }

  lemma Quotient(x: nat, d: nat)
    requires d > 0
    ensures x / d * d <= x < x / d * d + d
  {}

  lemma Times(a: nat, b: nat, c: nat)
    requires a <= b
    ensures a * c <= b * c
  {}

  lemma Cancels(a: nat, b: nat, c: nat)
    requires a * c <= b * c && c > 0
    ensures a <= b
  {}

  lemma QuotientIs(x: nat, d: nat, q: nat)
    requires d > 0 && q * d <= x < q * d + d
    ensures x / d == q
  {
    Quotient(x, d);
    Below(x / d, q, d);
    Below(q, x / d, d);
  }

  lemma Below(p: nat, q: nat, d: nat)
    requires d > 0 && p * d < q * d + d
    ensures p <= q
  {
    if p > q {
      Times(q + 1, p, d);
    }
  }

  lemma DivRises(x: nat, y: nat, d: nat)
    requires x <= y && d > 0
    ensures x / d <= y / d
  {
    Quotient(x, d);
    Quotient(y, d);
    Below(x / d, y / d, d);
  }

  lemma DivLess(x: nat, d: nat, q: nat)
    requires d > 0
    ensures x / d < q <==> x < q * d
  {
    Quotient(x, d);
    if x / d < q {
      Times(x / d + 1, q, d);
    } else {
      Times(q, x / d, d);
    }
  }

  // ---------------------------------------------------------------- choosing the parameters

  // The multiplier for a shift, before it is cut to 32 bits.
  function Mult(hz: nat, shift: nat): nat
    requires hz > 0
  {
    NS * Pow2(shift) / hz
  }

  // shift is the least that keeps the multiplier from vanishing.
  ghost predicate LeastShift(hz: nat, shift: nat) {
    hz <= NS * Pow2(shift) && (shift > 0 ==> NS * Pow2(shift - 1) < hz)
  }

  // shift is the greatest, up to 32, that keeps the multiplier within 32 bits.
  ghost predicate GreatestShift(hz: nat, shift: nat)
    requires hz > 0
  {
    shift <= MAX_SHIFT && 0 < Mult(hz, shift) < U32 && (shift < MAX_SHIFT ==> Mult(hz, shift + 1) >= U32)
  }

  // The nanoseconds of the whole span, as converted with this shift, fit 64 bits.
  ghost predicate Fits(hz: nat, span: nat, shift: nat)
    requires hz > 0
  {
    hz * span * Mult(hz, shift) / Pow2(shift) < U64
  }

  ghost predicate LeastFits(hz: nat, span: nat)
    requires hz > 0
  {
    forall s :: LeastShift(hz, s) ==> Fits(hz, span, s)
  }

  // The least shift if the span fits with it; otherwise it fits with none, and the greatest.
  ghost predicate Best(hz: nat, span: nat, shift: nat)
    requires hz > 0
  {
    if LeastFits(hz, span) then LeastShift(hz, shift)
    else GreatestShift(hz, shift) && !Fits(hz, span, shift)
  }

  lemma NumeratorFits(shift: nat)
    requires shift <= MAX_SHIFT
    ensures NS * Pow2(shift) <= NS * U32 < U64
  {
    hide Pow2;
    Pow2Values();
    Pow2Monotone(shift, 32);
  }

  lemma MultVanishes(x: nat, hz: nat)
    requires hz > 0
    ensures x / hz == 0 <==> x < hz
  {
    DivLess(x, hz, 1);
  }

  // The least shift's multiplier is at most 10^9, and exactly 1 for any shift but 0.
  lemma LeastMult(hz: nat, shift: nat)
    requires hz > 0 && LeastShift(hz, shift)
    ensures 1 <= Mult(hz, shift) <= NS && (shift > 0 ==> Mult(hz, shift) == 1)
  {
    var x := NS * Pow2(shift);
    MultVanishes(x, hz);
    if shift > 0 {
      assert x == 2 * (NS * Pow2(shift - 1));
      QuotientIs(x, hz, 1);
    } else {
      Quotient(x, hz);
      Times(1, hz, x / hz);
    }
  }

  lemma {:induction false} LeastUnique(hz: nat, s: nat, t: nat)
    requires LeastShift(hz, s) && LeastShift(hz, t)
    ensures s == t
  {
    hide Pow2;
    if s < t {
      Pow2Monotone(s, t - 1);
    } else if t < s {
      Pow2Monotone(t, s - 1);
    }
  }

  // The shift is 0 exactly for clocks of at most 10^9 Hz.
  lemma LeastZero(hz: nat, shift: nat)
    requires LeastShift(hz, shift)
    ensures shift == 0 <==> hz <= NS
  {
    assert Pow2(0) == 1;
    hide Pow2;
    if shift > 0 {
      Pow2Monotone(0, shift - 1);
    }
  }

  // A span whose nanoseconds fit 64 bits fits with every shift.
  lemma SpanFits(hz: nat, span: nat, shift: nat)
    requires hz > 0 && span * NS < U64
    ensures Fits(hz, span, shift)
  {
    hide Pow2;
    var p, mult := Pow2(shift), Mult(hz, shift);
    Quotient(NS * p, hz);
    Regroup(hz, span, mult, p);
    DivLess(hz * span * mult, p, U64);
    Times(span * NS + 1, U64, p);
  }

  lemma Regroup(hz: nat, span: nat, mult: nat, p: nat)
    requires mult * hz <= NS * p
    ensures hz * span * mult <= span * NS * p
  {
    assert hz * span * mult == mult * hz * span;
    Times(mult * hz, NS * p, span);
    assert NS * p * span == span * NS * p;
  }

  lemma ProductFits(hz: nat, span: nat, shift: nat)
    requires hz > 0 && span < U64 && shift <= MAX_SHIFT
    ensures hz * span * Mult(hz, shift) < U128
  {
    hide Pow2;
    var p, mult := Pow2(shift), Mult(hz, shift);
    NumeratorFits(shift);
    Quotient(NS * p, hz);
    Regroup(hz, span, mult, p);
    assert span * NS * p == NS * p * span;
    Times(NS * p, U64 - 1, span);
    Times(span, U64 - 1, U64 - 1);
  }

  // A span that does not fit fits with no greater shift either.
  lemma StillTooLong(hz: nat, span: nat, shift: nat)
    requires hz > 0 && !Fits(hz, span, shift)
    ensures !Fits(hz, span, shift + 1) && Mult(hz, shift + 1) >= 2 * Mult(hz, shift)
  {
    var p, m, m' := Pow2(shift), Mult(hz, shift), Mult(hz, shift + 1);
    assert Pow2(shift + 1) == 2 * p;
    hide Pow2;
    Doubled(NS * p, hz);
    assert NS * Pow2(shift + 1) == 2 * (NS * p);
    DivLess(hz * span * m, p, U64);
    DivLess(hz * span * m', 2 * p, U64);
    Times(2 * m, m', hz * span);
    assert 2 * m * (hz * span) == 2 * (hz * span * m);
    assert U64 * (2 * p) == 2 * (U64 * p);
  }

  lemma Doubled(x: nat, d: nat)
    requires d > 0
    ensures 2 * (x / d) <= 2 * x / d
  {
    Quotient(x, d);
    assert 2 * (x / d) * d == 2 * (x / d * d);
    DivLess(2 * x, d, 2 * (x / d));
  }

  // What the search knows before it tries shift: no multiplier yet, or one for each shift from
  // the least on, and the span too long with all of them.
  ghost predicate Searched(hz: nat, span: nat, shift: nat, found: bool)
    requires hz > 0
  {
    if !found then shift > 0 ==> NS * Pow2(shift - 1) < hz
    else
      && shift > 0 && hz <= NS * U32 && !LeastFits(hz, span)
      && 0 < Mult(hz, shift - 1) < U32 && !Fits(hz, span, shift - 1)
  }

  // The nanoseconds of the span, computed in 128 bits
  function MaxNs(hz: nat, span: nat, mult: nat, shift: nat): int {
    hz * span * mult % U128 / Pow2(shift)
  }

  // calc_optimal_shift
  method OptimalShift(hz: nat, span: nat) returns (shift: int)
    requires 0 < hz < U64 && span < U64
    ensures 0 <= shift <= MAX_SHIFT
    ensures if hz <= NS * U32 then Best(hz, span, shift) else shift == MAX_SHIFT
  {
    hide Pow2, Mult, Fits, Best, Searched;
    ghost var found := false;
    SearchStarts(hz, span);
    shift := 0;
    while shift <= MAX_SHIFT
      invariant 0 <= shift <= MAX_SHIFT + 1 && Searched(hz, span, shift, found)
    {
      var mult := Mult(hz, shift) % U64;
      MultSmall(hz, shift);
      SearchStep(hz, span, shift, found);
      if mult == 0 {
        shift := shift + 1;
        continue;
      }
      if mult >= U32 {
        return if shift > 0 then shift - 1 else 0;
      }
      FitsMeans(hz, span, shift);
      if MaxNs(hz, span, mult, shift) >= U64 {
        found := true;
        shift := shift + 1;
        continue;
      }
      return shift;
    }
    SearchEnds(hz, span, found);
    return MAX_SHIFT;
  }

  lemma SearchStarts(hz: nat, span: nat)
    requires hz > 0
    ensures Searched(hz, span, 0, false)
  {}

  lemma MultSmall(hz: nat, shift: nat)
    requires hz > 0 && shift <= MAX_SHIFT
    ensures Mult(hz, shift) % U64 == Mult(hz, shift)
  {
    hide Pow2;
    NumeratorFits(shift);
    Quotient(NS * Pow2(shift), hz);
    Times(1, hz, Mult(hz, shift));
  }

  // The 128-bit product never wraps, so the test tells whether the span fits.
  lemma FitsMeans(hz: nat, span: nat, shift: nat)
    requires hz > 0 && span < U64 && shift <= MAX_SHIFT
    ensures Fits(hz, span, shift) <==> MaxNs(hz, span, Mult(hz, shift), shift) < U64
  {
    hide Pow2, Mult;
    ProductFits(hz, span, shift);
  }

  // One turn: a vanishing or fitting multiplier is only met before the first one is found.
  lemma SearchStep(hz: nat, span: nat, shift: nat, found: bool)
    requires hz > 0 && shift <= MAX_SHIFT && Searched(hz, span, shift, found)
    ensures var mult := Mult(hz, shift);
      && (mult == 0 ==> !found && Searched(hz, span, shift + 1, false))
      && (mult >= U32 ==> shift > 0 && hz <= NS * U32 && Best(hz, span, shift - 1))
      && (0 < mult < U32 && !Fits(hz, span, shift) ==> Searched(hz, span, shift + 1, true))
      && (0 < mult < U32 && Fits(hz, span, shift) ==> hz <= NS * U32 && Best(hz, span, shift))
  {
    hide Pow2, Fits;
    if found {
      StillTooLong(hz, span, shift - 1);
      hide Mult, LeastFits, LeastShift;
    } else {
      MultVanishes(NS * Pow2(shift), hz);
      if Mult(hz, shift) > 0 {
        assert LeastShift(hz, shift);
        LeastMult(hz, shift);
        NumeratorFits(shift);
        LeastDecides(hz, span, shift);
      }
    }
  }

  lemma LeastDecides(hz: nat, span: nat, shift: nat)
    requires hz > 0 && LeastShift(hz, shift)
    ensures LeastFits(hz, span) <==> Fits(hz, span, shift)
  {
    hide Fits, Mult;
    forall s | LeastShift(hz, s)
      ensures s == shift
    {
      LeastUnique(hz, s, shift);
    }
  }

  lemma SearchEnds(hz: nat, span: nat, found: bool)
    requires hz > 0 && Searched(hz, span, MAX_SHIFT + 1, found)
    ensures hz <= NS * U32 ==> Best(hz, span, MAX_SHIFT)
  {
    hide Pow2, Fits, LeastFits, Mult;
    Pow2Values();
  }

  // calc_forward_params, its multiplier
  function ForwardMult(hz: nat, shift: nat): nat
    requires hz > 0
  {
    Mult(hz, shift) % U32
  }

  lemma BestForward(hz: nat, span: nat, shift: nat)
    requires 0 < hz <= NS * U32 && Best(hz, span, shift)
    ensures 0 < ForwardMult(hz, shift) == Mult(hz, shift) < U32
  {
    hide Pow2, Mult, Fits, LeastFits;
    if LeastFits(hz, span) {
      LeastMult(hz, shift);
    }
  }

  // The inverse of a multiplier: 2^shiftInv / mult, with the greatest shift up to shift + 32
  // that keeps it within 32 bits.
  ghost predicate InverseOf(mult: nat, shift: nat, multInv: nat, shiftInv: nat)
    requires mult > 0
  {
    && shift < shiftInv <= shift + 32
    && 0 < multInv == Pow2(shiftInv) / mult < U32
    && (shiftInv < shift + 32 ==> Pow2(shiftInv + 1) / mult >= U32)
  }

  // calc_inverse_params; a multiplier of 0 stands for the panic
  method InverseParams(mult: nat, shift: nat) returns (multInv: nat, shiftInv: nat)
    requires 0 < mult < U32 && shift <= MAX_SHIFT
    ensures multInv > 0 <==> Pow2(shift) < mult * Pow2(31)
    ensures multInv > 0 ==> InverseOf(mult, shift, multInv, shiftInv)
  {
    hide Pow2, InverseOf;
    var extra := 32;
    while extra > 0
      invariant 0 <= extra <= 32
      invariant extra < 32 ==> Pow2(shift + extra + 1) / mult >= U32
      decreases extra
    {
      var one := Pow2(shift + extra);
      var inv := one / mult % U64;
      InverseStep(mult, shift, extra);
      if inv < U32 {
        return inv, shift + extra;
      }
      extra := extra - 1;
    }
    InverseFails(mult, shift);
    return 0, shift;
  }

  // One turn: the quotient is cut to 64 bits only for 2^64 / 1, and that panics.
  lemma InverseStep(mult: nat, shift: nat, extra: nat)
    requires 0 < mult < U32 && shift <= MAX_SHIFT && 0 < extra <= 32
    requires extra < 32 ==> Pow2(shift + extra + 1) / mult >= U32
    ensures var inv := Pow2(shift + extra) / mult % U64;
      && (inv >= U32 ==> Pow2(shift + extra) / mult >= U32)
      && (0 < inv < U32 ==> InverseOf(mult, shift, inv, shift + extra) && Pow2(shift) < mult * Pow2(31))
      && (inv == 0 ==> Pow2(shift) >= mult * Pow2(31))
  {
    hide Pow2;
    var n := shift + extra;
    if n == 64 && mult == 1 {
      Pow2Values();
    } else {
      InverseUncut(mult, n);
      InverseNonzero(mult, shift, extra);
      hide *;
      Cut(Pow2(n) / mult);
      if Pow2(n) / mult < U32 {
        HalfOfBound(mult, shift, n);
        IsInverse(mult, shift, n);
      }
    }
  }

  lemma Cut(x: nat)
    requires x < U64
    ensures x % U64 == x
  {}

  lemma IsInverse(mult: nat, shift: nat, n: nat)
    requires 0 < mult && shift < n <= shift + 32 && 0 < Pow2(n) / mult < U32
    requires n < shift + 32 ==> Pow2(n + 1) / mult >= U32
    ensures InverseOf(mult, shift, Pow2(n) / mult, n)
  {
    hide Pow2;
  }

  lemma InverseUncut(mult: nat, n: nat)
    requires 0 < mult && n <= 64 && (n == 64 ==> mult > 1)
    ensures Pow2(n) / mult < U64
  {
    if n < 64 {
      Pow2Monotone(n + 1, 64);
      assert Pow2(n + 1) == 2 * Pow2(n);
    }
    hide Pow2;
    Pow2Values();
    DivLess(Pow2(n), mult, U64);
    Times(1, mult, U64);
    if mult > 1 {
      Times(2, mult, U64);
    }
  }

  lemma InverseNonzero(mult: nat, shift: nat, extra: nat)
    requires 0 < mult < U32 && 0 < extra <= 32
    requires extra < 32 ==> Pow2(shift + extra + 1) / mult >= U32
    ensures Pow2(shift + extra) / mult > 0
  {
    var n := shift + extra;
    assert Pow2(n + 1) == 2 * Pow2(n);
    hide Pow2;
    DivLess(Pow2(n), mult, 1);
    if extra == 32 {
      Pow2Values();
      Pow2Monotone(32, n);
    } else {
      DivLess(Pow2(n + 1), mult, U32);
    }
  }

  lemma HalfOfBound(mult: nat, shift: nat, n: nat)
    requires mult > 0 && shift < n && Pow2(n) / mult < U32
    ensures Pow2(shift) < mult * Pow2(31)
  {
    assert Pow2(shift + 1) == 2 * Pow2(shift);
    hide Pow2;
    Pow2Monotone(shift + 1, n);
    Pow2Values();
    DivLess(Pow2(n), mult, U32);
  }

  lemma InverseFails(mult: nat, shift: nat)
    requires mult > 0 && Pow2(shift + 1) / mult >= U32
    ensures Pow2(shift) >= mult * Pow2(31)
  {
    assert Pow2(shift + 1) == 2 * Pow2(shift);
    hide Pow2;
    Pow2Values();
    DivLess(Pow2(shift + 1), mult, U32);
  }

  datatype Params = Params(mult: nat, shift: nat, multInv: nat, shiftInv: nat) | Panic | DivisionByZero

  // What the parameters of a clock are.
  ghost predicate Chosen(hz: nat, span: nat, r: Params)
    requires r.Params? && hz > 0
  {
    && Best(hz, span, r.shift) && 0 < r.mult == Mult(hz, r.shift) < U32
    && InverseOf(r.mult, r.shift, r.multInv, r.shiftInv)
  }

  // When the multiplier that was found has no inverse.
  ghost predicate NoInverse(hz: nat, span: nat)
    requires hz > 0
  {
    if LeastFits(hz, span) then hz > NS * Pow2(30) else 3 * hz > NS * U32
  }

  lemma InverseExists(hz: nat, span: nat, shift: nat)
    requires 0 < hz <= NS * U32 && Best(hz, span, shift)
    ensures Pow2(shift) < Mult(hz, shift) * Pow2(31) <==> !NoInverse(hz, span)
  {
    hide Pow2, Fits, LeastFits, Mult, LeastShift;
    Pow2Values();
    if LeastFits(hz, span) {
      LeastInverse(hz, shift);
    } else if shift == MAX_SHIFT {
      DivLessMult(hz, shift, 3);
    } else {
      GreatestInverse(hz, shift);
    }
  }

  lemma DivLessMult(hz: nat, shift: nat, q: nat)
    requires hz > 0
    ensures Mult(hz, shift) < q <==> NS * Pow2(shift) < q * hz
  {
    hide Pow2;
    DivLess(NS * Pow2(shift), hz, q);
  }

  lemma LeastInverse(hz: nat, shift: nat)
    requires 0 < hz && LeastShift(hz, shift)
    ensures Pow2(shift) < Mult(hz, shift) * Pow2(31) <==> hz <= NS * Pow2(30)
  {
    assert Pow2(0) == 1 && Pow2(31) == 2 * Pow2(30);
    LeastMult(hz, shift);
    ShiftBound(hz, shift);
    hide Pow2, Mult, LeastShift;
    if shift == 0 {
      Times(1, Mult(hz, shift), Pow2(31));
    } else if shift <= 30 {
      Pow2Monotone(shift, 30);
    } else {
      Pow2Monotone(31, shift);
    }
  }

  lemma ShiftBound(hz: nat, shift: nat)
    requires LeastShift(hz, shift)
    ensures shift <= 30 <==> hz <= NS * Pow2(30)
  {
    hide Pow2;
    if shift <= 30 {
      Pow2Monotone(shift, 30);
    } else {
      Pow2Monotone(30, shift - 1);
    }
  }

  lemma GreatestInverse(hz: nat, shift: nat)
    requires 0 < hz && GreatestShift(hz, shift) && shift < MAX_SHIFT
    ensures Pow2(shift) < Mult(hz, shift) * Pow2(31) && 3 * hz <= NS * U32
  {
    assert Pow2(shift + 1) == 2 * Pow2(shift);
    hide Pow2, Mult;
    Pow2Values();
    Pow2Monotone(shift + 1, 32);
    DivLessMult(hz, shift + 1, U32);
    DivLessMult(hz, shift, 0x8000_0000);
    Times(2, Mult(hz, shift), Pow2(31));
  }

  // The second search of timecycle_init_params, for a multiplier that vanished
  method Retry(hz: nat, start: nat) returns (shift: nat, mult: nat)
    requires hz > 0
    ensures start <= shift && mult == ForwardMult(hz, shift)
    ensures mult == 0 ==> forall s :: start <= s <= MAX_SHIFT ==> ForwardMult(hz, s) == 0
    ensures start >= MAX_SHIFT ==> shift == start
  {
    shift, mult := start, ForwardMult(hz, start);
    var s := start + 1;
    while mult == 0 && s <= MAX_SHIFT
      invariant start <= shift < s && mult == ForwardMult(hz, shift)
      invariant mult == 0 ==> forall t :: start <= t < s ==> ForwardMult(hz, t) == 0
      invariant s > start + 1 ==> s <= MAX_SHIFT + 1
      invariant s == start + 1 ==> shift == start
      decreases MAX_SHIFT + 1 - s
    {
      shift, mult := s, ForwardMult(hz, s);
      s := s + 1;
    }
  }

  // timecycle_init_params
  method InitParams(hz: nat, span: nat) returns (r: Params)
    requires hz < U64 && span < U64
    ensures r.DivisionByZero? <==> hz > NS * U32 && span != 0
    ensures r.Panic? <==> hz == 0 || span == 0 || (hz <= NS * U32 && NoInverse(hz, span))
    ensures span * NS < U64 ==> (r.Panic? <==> hz == 0 || span == 0 || NS * Pow2(30) < hz <= NS * U32)
    ensures r.Params? ==> Chosen(hz, span, r)
    ensures r.Params? ==> hz > 0 && r.mult * hz <= 1_000_000_000 * Pow2(r.shift) < (r.mult + 1) * hz
    ensures r.Params? ==> r.mult > 0 && r.multInv * r.mult <= Pow2(r.shiftInv) < (r.multInv + 1) * r.mult
  {
    hide Pow2, Mult, ForwardMult, Best, NoInverse, InverseOf;
    if hz > 0 && span * NS < U64 {
      OrdinarySpan(hz, span);
    }
    if hz == 0 || span == 0 {
      return Panic;
    }
    var optimal := OptimalShift(hz, span);
    var shift: nat, mult := optimal, ForwardMult(hz, optimal);
    if mult == 0 {
      shift, mult := Retry(hz, shift);
    }
    if hz > NS * U32 {
      TooFast(hz);
    } else {
      BestForward(hz, span, optimal);
      InverseExists(hz, span, optimal);
    }
    if mult == 0 {
      return DivisionByZero;
    }
    var multInv, shiftInv := InverseParams(mult, shift);
    if multInv == 0 {
      return Panic;
    }
    r := Params(mult, shift, multInv, shiftInv);
    Rounded(hz, span, r);
  }

  // Both multipliers are rounded down.
  lemma Rounded(hz: nat, span: nat, r: Params)
    requires r.Params? && hz > 0 && Chosen(hz, span, r)
    ensures r.mult * hz <= 1_000_000_000 * Pow2(r.shift) < (r.mult + 1) * hz
    ensures r.mult > 0 && r.multInv * r.mult <= Pow2(r.shiftInv) < (r.multInv + 1) * r.mult
  {
    hide Pow2, Best;
    Quotient(NS * Pow2(r.shift), hz);
    Quotient(Pow2(r.shiftInv), r.mult);
  }

  lemma TooFast(hz: nat)
    requires hz > NS * U32
    ensures ForwardMult(hz, MAX_SHIFT) == 0
  {
    hide Pow2;
    Pow2Values();
    DivLessMult(hz, MAX_SHIFT, 1);
  }

  // Over a span whose nanoseconds fit 64 bits, as the kernel's one year: the parameters are those
  // of the least shift, and the panics are those of a clock that is too fast.
  lemma OrdinarySpan(hz: nat, span: nat)
    requires hz > 0 && span * NS < U64
    ensures LeastFits(hz, span) && (NoInverse(hz, span) <==> hz > NS * Pow2(30))
  {
    hide Pow2, Fits, LeastShift;
    forall s: nat
      ensures Fits(hz, span, s)
    {
      SpanFits(hz, span, s);
    }
  }

  // The forward shift is 0 exactly for a clock of at most 10^9 Hz over a span that fits.
  lemma ShiftZero(hz: nat, span: nat, r: Params)
    requires r.Params? && hz > 0 && Chosen(hz, span, r)
    ensures r.shift == 0 <==> hz <= NS && LeastFits(hz, span)
  {
    assert Pow2(1) == 2;
    hide Pow2, Fits, LeastFits, InverseOf, LeastShift;
    if LeastFits(hz, span) {
      LeastZero(hz, r.shift);
    } else if r.shift == 0 {
      DivLessMult(hz, 1, U32);
    }
  }

  // ---------------------------------------------------------------- converting

  // (x * m) >> s, cut to 64 bits
  function Scale(x: nat, m: nat, s: nat): nat {
    x * m / Pow2(s) % U64
  }

  lemma ScaleIs(x: nat, m: nat, s: nat, p: nat, q: nat)
    requires p == Pow2(s) && q * p <= x * m < q * p + p && q < U64
    ensures Scale(x, m, s) == q
  {
    hide Pow2;
    QuotientIs(x * m, p, q);
  }

  // timecycle_cycles_to_ns
  function CyclesToNs(cycles: nat, mult: nat, shift: nat): nat {
    Scale(cycles, mult, shift)
  }

  // timecycle_ns_to_cycles
  function NsToCycles(ns: nat, multInv: nat, shiftInv: nat): nat {
    Scale(ns, multInv, shiftInv)
  }

  // The nanoseconds of a cycle count fit 64 bits.
  predicate Representable(cycles: nat, r: Params)
    requires r.Params?
  {
    cycles * r.mult / Pow2(r.shift) < U64
  }

  // Up to the whole span, if it fits.
  lemma InSpan(hz: nat, r: Params, cycles: nat, span: nat)
    requires r.Params? && hz > 0 && r.mult == Mult(hz, r.shift) && cycles <= hz * span && Fits(hz, span, r.shift)
    ensures Representable(cycles, r)
  {
    hide Pow2, Mult;
    Times(cycles, hz * span, r.mult);
    DivRises(cycles * r.mult, hz * span * r.mult, Pow2(r.shift));
  }

  lemma Monotone(r: Params, c0: nat, c1: nat)
    requires r.Params? && c0 <= c1 && Representable(c1, r)
    ensures CyclesToNs(c0, r.mult, r.shift) <= CyclesToNs(c1, r.mult, r.shift)
  {
    hide Pow2;
    Times(c0, c1, r.mult);
    DivRises(c0 * r.mult, c1 * r.mult, Pow2(r.shift));
  }

  // The conversions are exact to the last unit if and only if the result fits 64 bits.
  lemma ScaleExactIff(x: nat, m: nat, s: nat)
    ensures Scale(x, m, s) < 0x1_0000_0000_0000_0000
    ensures Scale(x, m, s) * Pow2(s) <= x * m < Scale(x, m, s) * Pow2(s) + Pow2(s) <==> x * m / Pow2(s) < 0x1_0000_0000_0000_0000
  {
    hide Pow2;
    CutIff(x * m, Pow2(s));
  }

  lemma CutIff(y: nat, p: nat)
    requires p > 0
    ensures var r := y / p % U64; r * p <= y < r * p + p <==> y / p < U64
  {
    var r := y / p % U64;
    Quotient(y, p);
    if y / p < U64 {
      assert r == y / p;
    } else if r * p <= y < r * p + p {
      QuotientIs(y, p, r);
      assert false;
    }
  }

  lemma ExactIff(cycles: nat, ns: nat, r: Params)
    requires r.Params?
    ensures var t := CyclesToNs(cycles, r.mult, r.shift);
      t * Pow2(r.shift) <= cycles * r.mult < t * Pow2(r.shift) + Pow2(r.shift) <==> Representable(cycles, r)
    ensures var c := NsToCycles(ns, r.multInv, r.shiftInv);
      c * Pow2(r.shiftInv) <= ns * r.multInv < c * Pow2(r.shiftInv) + Pow2(r.shiftInv) <==>
        ns * r.multInv / Pow2(r.shiftInv) < 0x1_0000_0000_0000_0000
  {
    hide Pow2, Scale;
    ScaleExactIff(cycles, r.mult, r.shift);
    ScaleExactIff(ns, r.multInv, r.shiftInv);
  }

  // Never more than the true time cycles * 10^9 / hz, and never less than half of it minus one.
  lemma Accuracy(hz: nat, span: nat, r: Params, cycles: nat)
    requires r.Params? && hz > 0 && Chosen(hz, span, r) && Representable(cycles, r)
    ensures var ns := CyclesToNs(cycles, r.mult, r.shift);
      ns * hz <= cycles * NS && cycles * NS <= 2 * (ns + 1) * hz
  {
    hide Pow2, Best, InverseOf, Scale;
    var p, ns := Pow2(r.shift), cycles * r.mult / Pow2(r.shift);
    HalfMult(NS * p, hz, r.mult);
    Quotient(cycles * r.mult, p);
    ScaleIs(cycles, r.mult, r.shift, p, ns);
    hide *;
    Scaled(cycles, r.mult, p, hz);
  }

  lemma HalfMult(x: nat, hz: nat, mult: nat)
    requires hz > 0 && mult >= 1 && mult == x / hz
    ensures mult * hz <= x <= 2 * mult * hz
  {
    Quotient(x, hz);
    Times(1, mult, hz);
  }

  lemma Scaled(cycles: nat, mult: nat, p: nat, hz: nat)
    requires p > 0 && hz > 0 && mult * hz <= NS * p <= 2 * mult * hz
    ensures var ns := cycles * mult / p; ns * hz <= cycles * NS && cycles * NS <= 2 * (ns + 1) * hz
  {
    var ns := cycles * mult / p;
    Quotient(cycles * mult, p);
    Upper(cycles, mult, p, hz, ns);
    Lower(cycles, mult, p, hz, ns);
  }

  lemma Upper(cycles: nat, mult: nat, p: nat, hz: nat, ns: nat)
    requires p > 0 && mult * hz <= NS * p && ns * p <= cycles * mult
    ensures ns * hz <= cycles * NS
  {
    Times(ns * p, cycles * mult, hz);
    Times(mult * hz, NS * p, cycles);
    assert cycles * mult * hz == mult * hz * cycles;
    assert ns * p * hz == ns * hz * p;
    assert NS * p * cycles == cycles * NS * p;
    Cancels(ns * hz, cycles * NS, p);
  }

  lemma Lower(cycles: nat, mult: nat, p: nat, hz: nat, ns: nat)
    requires p > 0 && NS * p <= 2 * mult * hz && cycles * mult <= (ns + 1) * p
    ensures cycles * NS <= 2 * (ns + 1) * hz
  {
    Times(cycles * mult, (ns + 1) * p, 2 * hz);
    Times(NS * p, 2 * mult * hz, cycles);
    assert cycles * mult * (2 * hz) == 2 * mult * hz * cycles;
    assert NS * p * cycles == cycles * NS * p;
    assert (ns + 1) * p * (2 * hz) == 2 * (ns + 1) * hz * p;
    Cancels(cycles * NS, 2 * (ns + 1) * hz, p);
  }

  // Back and forth: what comes back is at most cycles / 2^shift, because the inverse undoes the
  // multiplication and not the shift.
  lemma TripLosesShift(hz: nat, span: nat, r: Params, cycles: nat)
    requires r.Params? && hz > 0 && Chosen(hz, span, r) && Representable(cycles, r)
    ensures var back := NsToCycles(CyclesToNs(cycles, r.mult, r.shift), r.multInv, r.shiftInv);
      && back * Pow2(r.shift) <= cycles
      && (r.shift > 0 ==> (back == cycles <==> cycles == 0))
  {
    hide Pow2, Best, Mult, Scale, CyclesToNs, NsToCycles;
    Trip(cycles, r.mult, r.shift, Pow2(r.shift), r.multInv, r.shiftInv, Pow2(r.shiftInv));
    hide Chosen, InverseOf, Representable;
    if r.shift > 0 {
      Pow2Even(r.shift);
      Fixpoint(NsToCycles(CyclesToNs(cycles, r.mult, r.shift), r.multInv, r.shiftInv), cycles, Pow2(r.shift));
    }
  }

  lemma Trip(cycles: nat, mult: nat, shift: nat, p: nat, inv: nat, n: nat, q: nat)
    requires p == Pow2(shift) && q == Pow2(n) && mult > 0 && inv == q / mult && cycles * mult / p < U64
    ensures NsToCycles(CyclesToNs(cycles, mult, shift), inv, n) * p <= cycles
  {
    hide Pow2, Scale;
    var ns := cycles * mult / p;
    Quotient(cycles * mult, p);
    ScaleIs(cycles, mult, shift, p, ns);
    Quotient(q, mult);
    hide *;
    Back(cycles, mult, p, ns, inv, n, q);
  }

  lemma Back(cycles: nat, mult: nat, p: nat, ns: nat, inv: nat, n: nat, q: nat)
    requires q == Pow2(n) && mult > 0 && ns * p <= cycles * mult && inv * mult <= q && ns < U64
    ensures NsToCycles(ns, inv, n) * p <= cycles
  {
    hide Pow2, Scale;
    var back := ns * inv / q;
    Quotient(ns * inv, q);
    SmallBack(ns, inv, mult, q, back);
    ScaleIs(ns, inv, n, q, back);
    BackAtMost(cycles, mult, p, ns, inv, q, back);
  }

  lemma Fixpoint(back: nat, cycles: nat, p: nat)
    requires p >= 2 && back * p <= cycles
    ensures back == cycles <==> cycles == 0
  {
    Times(2, p, back);
  }

  lemma BackAtMost(cycles: nat, mult: nat, p: nat, ns: nat, inv: nat, q: nat, back: nat)
    requires mult > 0 && q > 0 && ns * p <= cycles * mult && inv * mult <= q && back * q <= ns * inv
    ensures back * p <= cycles
  {
    BackTimesMult(ns, inv, mult, q, back);
    Times(back * mult, ns, p);
    assert back * mult * p == back * p * mult;
    Cancels(back * p, cycles, mult);
  }

  lemma BackTimesMult(ns: nat, inv: nat, mult: nat, q: nat, back: nat)
    requires q > 0 && inv * mult <= q && back * q <= ns * inv
    ensures back * mult <= ns
  {
    Times(back * q, ns * inv, mult);
    Times(inv * mult, q, ns);
    assert ns * inv * mult == inv * mult * ns;
    assert back * q * mult == back * mult * q;
    assert q * ns == ns * q;
    Cancels(back * mult, ns, q);
  }

  lemma SmallBack(ns: nat, inv: nat, mult: nat, q: nat, back: nat)
    requires mult > 0 && q > 0 && inv * mult <= q && back * q <= ns * inv && ns < U64
    ensures back < U64
  {
    BackTimesMult(ns, inv, mult, q, back);
    Times(1, mult, back);
  }

  // Back and forth without a forward shift: at most ceil(cycles * mult / 2^32) cycles are lost.
  lemma RoundTrip(hz: nat, span: nat, r: Params, cycles: nat)
    requires r.Params? && hz > 0 && Chosen(hz, span, r) && r.shift == 0 && Representable(cycles, r)
    ensures var back := NsToCycles(CyclesToNs(cycles, r.mult, r.shift), r.multInv, r.shiftInv);
      back <= cycles && (cycles - back) * U32 < cycles * r.mult + U32
  {
    assert Pow2(0) == 1;
    hide Pow2, Scale, Best, InverseOf, Mult;
    Pow2Values();
    var ns := cycles * r.mult;
    ScaleIs(cycles, r.mult, 0, 1, ns);
    Times(1, r.mult, cycles);
    if r.mult == 1 {
      UnitInverse(0, r.multInv, r.shiftInv);
      ScaleIs(ns, Pow2(31), 31, Pow2(31), cycles);
    } else {
      PlainInverse(r.mult, r.multInv, r.shiftInv);
      BackBounds(cycles, r.mult);
      var x := ns * (U32 / r.mult);
      Quotient(x, U32);
      ScaleIs(ns, U32 / r.mult, 32, U32, x / U32);
    }
  }

  lemma BackBounds(cycles: nat, mult: nat)
    requires 0 < mult < U32
    ensures var back := cycles * mult * (U32 / mult) / U32;
      back <= cycles && (cycles - back) * U32 < cycles * mult + U32
  {
    var inv := U32 / mult;
    Quotient(U32, mult);
    var x := cycles * mult * inv;
    Times(inv * mult, U32, cycles);
    Times(U32, inv * mult + mult, cycles);
    assert x == inv * mult * cycles;
    assert (inv * mult + mult) * cycles == x + cycles * mult;
    Quotient(x, U32);
    Cancels(x / U32, cycles, U32);
  }

  lemma UnitInverse(shift: nat, multInv: nat, shiftInv: nat)
    requires InverseOf(1, shift, multInv, shiftInv)
    ensures multInv == Pow2(31) && shiftInv == 31
  {
    hide Pow2;
    Pow2Values();
    if shiftInv > 31 {
      Pow2Monotone(32, shiftInv);
    } else if shiftInv < 31 {
      Pow2Monotone(shiftInv + 1, 31);
    }
  }

  lemma PlainInverse(mult: nat, multInv: nat, shiftInv: nat)
    requires 1 < mult < U32 && InverseOf(mult, 0, multInv, shiftInv)
    ensures multInv == U32 / mult && shiftInv == 32
  {
    hide Pow2;
    Pow2Values();
    Times(2, mult, U32);
    if shiftInv < 32 {
      Pow2Monotone(shiftInv + 1, 32);
      DivLess(Pow2(shiftInv + 1), mult, U32);
    }
  }

  // With the least shift and a shift above 0 the trip returns cycles >> shift.
  lemma ShiftedTrip(hz: nat, span: nat, r: Params, cycles: nat)
    requires r.Params? && hz > 0 && Chosen(hz, span, r) && LeastFits(hz, span) && r.shift > 0 && cycles < U64
    ensures NsToCycles(CyclesToNs(cycles, r.mult, r.shift), r.multInv, r.shiftInv) == cycles / Pow2(r.shift)
    ensures cycles / Pow2(r.shift) == cycles <==> cycles == 0
  {
    hide Pow2, Scale, LeastShift, LeastFits, CyclesToNs, NsToCycles, InverseOf, Mult;
    LeastMult(hz, r.shift);
    UnitInverse(r.shift, r.multInv, r.shiftInv);
    PlainTrip(cycles, r.shift);
  }

  lemma PlainTrip(cycles: nat, shift: nat)
    requires shift > 0 && cycles < U64
    ensures NsToCycles(CyclesToNs(cycles, 1, shift), Pow2(31), 31) == cycles / Pow2(shift)
    ensures cycles / Pow2(shift) == cycles <==> cycles == 0
  {
    hide Pow2, Scale;
    Pow2Even(shift);
    var p := Pow2(shift);
    ShiftOnly(cycles, shift, p, cycles / p);
    Halved(cycles, p);
    ScaleWhole(cycles / p, 31);
  }

  lemma Pow2Even(n: nat)
    requires n > 0
    ensures Pow2(n) >= 2
  {}

  lemma ShiftOnly(x: nat, s: nat, p: nat, q: nat)
    requires x < U64 && p == Pow2(s) && q == x / p
    ensures Scale(x, 1, s) == q
  {
    hide Pow2;
    assert x * 1 == x;
    Quotient(x, p);
    Times(1, p, q);
  }

  lemma Halved(cycles: nat, p: nat)
    requires p >= 2
    ensures cycles / p <= cycles && (cycles / p == cycles <==> cycles == 0)
  {
    Quotient(cycles, p);
    Times(2, p, cycles / p);
  }

  lemma ScaleWhole(x: nat, s: nat)
    requires x < U64
    ensures Scale(x, Pow2(s), s) == x
  {
    hide Pow2, Scale;
    ScaleIs(x, Pow2(s), s, Pow2(s), x);
  }
}
