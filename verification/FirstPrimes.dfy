// The first 64 primes.
module FirstPrimes {
  const P0: seq<nat> := [2, 3, 5, 7, 11, 13, 17, 19]
  const P1: seq<nat> := [23, 29, 31, 37, 41, 43, 47, 53]
  const P2: seq<nat> := [59, 61, 67, 71, 73, 79, 83, 89]
  const P3: seq<nat> := [97, 101, 103, 107, 109, 113, 127, 131]
  const P4: seq<nat> := [137, 139, 149, 151, 157, 163, 167, 173]
  const P5: seq<nat> := [179, 181, 191, 193, 197, 199, 211, 223]
  const P6: seq<nat> := [227, 229, 233, 239, 241, 251, 257, 263]
  const P7: seq<nat> := [269, 271, 277, 281, 283, 293, 307, 311]
  const PRIMES: seq<nat> := P0 + P1 + P2 + P3 + P4 + P5 + P6 + P7

  predicate Prime(n: nat) {
    n >= 2 && forall d :: 2 <= d < n ==> n % d != 0
  }

  predicate Free(n: nat, f: nat)
    requires f > 0
  {
    n % f != 0 || n == f
  }

  // No prime up to 17 divides n, except n itself.
  predicate Sieved(n: nat) {
    Free(n, 2) && Free(n, 3) && Free(n, 5) && Free(n, 7) && Free(n, 11) && Free(n, 13) && Free(n, 17)
  }

  // Below 18^2 that makes n a prime.
  lemma SievedPrime(n: nat)
    requires 2 <= n < 324
    ensures Prime(n) <==> Sieved(n)
  {
    if Sieved(n) {
      hide Sieved;
      forall d | 2 <= d < n
        ensures n % d != 0
      {
        if n % d == 0 {
          SmallDivisor(n, d, n / d);
        }
      }
    }
  }

  lemma SmallDivisor(n: nat, d: nat, q: nat)
    requires n < 324 && 2 <= d < n && n == d * q
    ensures !Sieved(n)
  {
    hide Sieved;
    assert q >= 2;
    if d < 18 {
      Divisor(n, d, q);
    } else if q < 18 {
      Divisor(n, q, d);
    } else {
      Product(18, d, 18, q);
    }
  }

  lemma Product(a: nat, b: nat, c: nat, d: nat)
    requires a <= b && c <= d
    ensures a * c <= b * d
  {
    assert a * c <= b * c <= b * d;
  }

  // A divisor below 18 has one of the seven primes as a factor.
  lemma Divisor(n: nat, m: nat, q: nat)
    requires 2 <= m < 18 && 2 <= q && n == m * q
    ensures !Sieved(n)
  {
    hide Free;
    assert m in {2, 3, 4, 5, 6, 7, 8, 9, 10, 11, 12, 13, 14, 15, 16, 17};
    var f := if m % 2 == 0 then 2 else if m % 3 == 0 then 3 else m;
    var r := m / f;
    assert m == f * r && r >= 1;
    assert n == f * (r * q);
    Product(1, r, 2, q);
    NotFree(n, f, r * q);
  }

  lemma NotFree(n: nat, f: nat, k: nat)
    requires f > 0 && k >= 2 && n == f * k
    ensures !Free(n, f)
  {
    Multiple(f, k);
    Product(f, f, 2, k);
  }

  lemma Multiple(f: nat, k: nat)
    requires f > 0
    ensures f * k % f == 0
  {
    var d := k - f * k / f;
    assert f * d == f * k % f;
    Scaled(f, d);
  }

  lemma Scaled(f: int, d: int)
    requires f > 0
    ensures (d >= 1 ==> f * d >= f) && (d <= -1 ==> f * d <= -f)
  {}

  // b is the first prime after a.
  ghost predicate NextPrime(a: nat, b: nat) {
    a < b && Prime(b) && forall n: nat :: a < n < b ==> !Prime(n)
  }

  // b is sieved, and no odd number between a and b is.
  predicate Gap(a: nat, b: nat)
    decreases b - a
  {
    a + 2 <= b && if a + 2 == b then Sieved(b) else !Sieved(a + 2) && Gap(a + 2, b)
  }

  lemma EvenNotPrime(n: nat)
    requires n > 2 && n % 2 == 0
    ensures !Prime(n)
  {}

  lemma {:induction false} GapNext(a: nat, b: nat)
    requires 2 < a && a % 2 == 1 && b < 324 && Gap(a, b)
    ensures NextPrime(a, b)
    decreases b - a
  {
    hide Prime, Sieved;
    EvenNotPrime(a + 1);
    SievedPrime(a + 2);
    if a + 2 < b {
      GapNext(a + 2, b);
    }
  }

  ghost predicate Successive(ps: seq<nat>) {
    forall t :: 0 <= t < |ps| - 1 ==> NextPrime(ps[t], ps[t + 1])
  }

  // The list starts with 2, and each entry is the first prime after the one before.
  lemma FirstPrimes()
    ensures PRIMES[0] == 2 && Prime(2) && Successive(PRIMES)
  {
    SievedPrime(2);
    hide Successive, Sieved, Prime;
    Primes0(); Primes1(); Primes2(); Primes3();
    Primes4(); Primes5(); Primes6(); Primes7();
    Chained(P0, P1, P2[0]);
    Chained(P0 + P1, P2, P3[0]);
    Chained(P0 + P1 + P2, P3, P4[0]);
    Chained(P0 + P1 + P2 + P3, P4, P5[0]);
    Chained(P0 + P1 + P2 + P3 + P4, P5, P6[0]);
    Chained(P0 + P1 + P2 + P3 + P4 + P5, P6, P7[0]);
    Chained(P0 + P1 + P2 + P3 + P4 + P5 + P6, P7, 313);
    Unchained(PRIMES, 313);
  }

  lemma Chained(ps: seq<nat>, ps': seq<nat>, next: nat)
    requires ps' != [] && Successive(ps + [ps'[0]]) && Successive(ps' + [next])
    ensures Successive(ps + ps' + [next])
  {
    hide NextPrime;
    var whole := ps + ps' + [next];
    forall t | 0 <= t < |whole| - 1
      ensures NextPrime(whole[t], whole[t + 1])
    {
      if t < |ps| {
        assert whole[t] == (ps + [ps'[0]])[t] && whole[t + 1] == (ps + [ps'[0]])[t + 1];
      } else {
        assert whole[t] == (ps' + [next])[t - |ps|] && whole[t + 1] == (ps' + [next])[t - |ps| + 1];
      }
    }
  }

  lemma Unchained(ps: seq<nat>, next: nat)
    requires Successive(ps + [next])
    ensures Successive(ps)
  {
    hide NextPrime;
    forall t | 0 <= t < |ps| - 1
      ensures NextPrime(ps[t], ps[t + 1])
    {
      assert ps[t] == (ps + [next])[t] && ps[t + 1] == (ps + [next])[t + 1];
    }
  }

  lemma Eight(ps: seq<nat>, next: nat)
    requires |ps| == 8
    requires NextPrime(ps[0], ps[1]) && NextPrime(ps[1], ps[2]) && NextPrime(ps[2], ps[3]) && NextPrime(ps[3], ps[4])
    requires NextPrime(ps[4], ps[5]) && NextPrime(ps[5], ps[6]) && NextPrime(ps[6], ps[7]) && NextPrime(ps[7], next)
    ensures Successive(ps + [next])
  {
    hide NextPrime;
    var whole := ps + [next];
    forall t | 0 <= t < 8
      ensures NextPrime(whole[t], whole[t + 1])
    {
      assert t in {0, 1, 2, 3, 4, 5, 6, 7};
    }
  }

  lemma TwoThree()
    ensures NextPrime(2, 3)
  {}

  lemma Primes0()
    ensures Successive(P0 + [P1[0]])
  {
    hide NextPrime, Prime;
    TwoThree(); GapNext(3, 5); GapNext(5, 7); GapNext(7, 11);
    GapNext(11, 13); GapNext(13, 17); GapNext(17, 19); GapNext(19, 23);
    hide Gap;
    Eight(P0, 23);
  }

  lemma Primes1()
    ensures Successive(P1 + [P2[0]])
  {
    hide NextPrime, Prime;
    GapNext(23, 29); GapNext(29, 31); GapNext(31, 37); GapNext(37, 41);
    GapNext(41, 43); GapNext(43, 47); GapNext(47, 53); GapNext(53, 59);
    hide Gap;
    Eight(P1, 59);
  }

  lemma Primes2()
    ensures Successive(P2 + [P3[0]])
  {
    hide NextPrime, Prime;
    GapNext(59, 61); GapNext(61, 67); GapNext(67, 71); GapNext(71, 73);
    GapNext(73, 79); GapNext(79, 83); GapNext(83, 89); GapNext(89, 97);
    hide Gap;
    Eight(P2, 97);
  }

  lemma Primes3()
    ensures Successive(P3 + [P4[0]])
  {
    hide NextPrime, Prime;
    GapNext(97, 101); GapNext(101, 103); GapNext(103, 107); GapNext(107, 109);
    GapNext(109, 113); GapNext(113, 127); GapNext(127, 131); GapNext(131, 137);
    hide Gap;
    Eight(P3, 137);
  }

  lemma Primes4()
    ensures Successive(P4 + [P5[0]])
  {
    hide NextPrime, Prime;
    GapNext(137, 139); GapNext(139, 149); GapNext(149, 151); GapNext(151, 157);
    GapNext(157, 163); GapNext(163, 167); GapNext(167, 173); GapNext(173, 179);
    hide Gap;
    Eight(P4, 179);
  }

  lemma Primes5()
    ensures Successive(P5 + [P6[0]])
  {
    hide NextPrime, Prime;
    GapNext(179, 181); GapNext(181, 191); GapNext(191, 193); GapNext(193, 197);
    GapNext(197, 199); GapNext(199, 211); GapNext(211, 223); GapNext(223, 227);
    hide Gap;
    Eight(P5, 227);
  }

  lemma Primes6()
    ensures Successive(P6 + [P7[0]])
  {
    hide NextPrime, Prime;
    GapNext(227, 229); GapNext(229, 233); GapNext(233, 239); GapNext(239, 241);
    GapNext(241, 251); GapNext(251, 257); GapNext(257, 263); GapNext(263, 269);
    hide Gap;
    Eight(P6, 269);
  }

  lemma Primes7()
    ensures Successive(P7 + [313])
  {
    hide NextPrime, Prime;
    GapNext(269, 271); GapNext(271, 277); GapNext(277, 281); GapNext(281, 283);
    GapNext(283, 293); GapNext(293, 307); GapNext(307, 311); GapNext(311, 313);
    hide Gap;
    Eight(P7, 313);
  }
}
