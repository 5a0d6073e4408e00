// Orders on suffixes, periods and repetitions of a string, and the critical factorization theorem
// behind the two-way search of lib/libc/string/strstr.c.
module Factorization {
  import opened Bytes

  // The byte order used by one maximal-suffix pass; the second pass reverses it.
  predicate Below(rev: bool, a: byte, b: byte) {
    if rev then b < a else a < b
  }

  // x[s..s+m) and x[t..t+m) hold the same bytes.
  ghost predicate Agree(x: seq<byte>, s: nat, t: nat, m: nat) {
    s + m <= |x| && t + m <= |x| && x[s..s + m] == x[t..t + m]
  }

  // The suffix at s is smaller than the suffix at t, first differing at offset m.
  ghost predicate DiffersAt(rev: bool, x: seq<byte>, s: nat, t: nat, m: nat) {
    s + m < |x| && t + m < |x| && Agree(x, s, t, m) && Below(rev, x[s + m], x[t + m])
  }

  ghost predicate StrictlyBelow(rev: bool, x: seq<byte>, s: nat, t: nat) {
    exists m: nat :: DiffersAt(rev, x, s, t, m)
  }

  // Lexicographic order on suffixes: a proper prefix is smaller.
  ghost predicate SuffixBelow(rev: bool, x: seq<byte>, s: nat, t: nat) {
    StrictlyBelow(rev, x, s, t) || (t < s <= |x| && Agree(x, s, t, |x| - s))
  }

  ghost predicate MaximalSuffix(rev: bool, x: seq<byte>, c: nat) {
    && c < |x|
    && forall t: nat :: t < |x| && t != c ==> SuffixBelow(rev, x, t, c)
  }

  // Bytes r apart, both in [lo, hi), are equal.
  ghost predicate PeriodicOn(x: seq<byte>, lo: nat, hi: nat, r: nat) {
    && 0 < r && lo <= hi <= |x|
    && forall i, j :: lo <= i && j == i + r && j < hi ==> x[i] == x[j]
  }

  ghost predicate Period(x: seq<byte>, r: nat) {
    PeriodicOn(x, 0, |x|, r)
  }

  // r is a repetition around position c: bytes r apart that straddle c agree.
  ghost predicate LocalRepetition(x: seq<byte>, c: nat, r: nat) {
    && 0 < r
    && forall i, j :: 0 <= i && c - r <= i < c && j == i + r && j < |x| ==> x[i] == x[j]
  }

  lemma AgreeByte(x: seq<byte>, s: nat, t: nat, m: nat, i: nat)
    requires Agree(x, s, t, m) && i < m
    ensures x[s + i] == x[t + i]
  {
    assert x[s..s + m][i] == x[t..t + m][i];
  }

  lemma AgreePrefix(x: seq<byte>, s: nat, t: nat, m: nat, k: nat)
    requires Agree(x, s, t, m) && k <= m
    ensures Agree(x, s, t, k)
  {
    assert x[s..s + k] == x[s..s + m][..k] == x[t..t + m][..k] == x[t..t + k];
  }

  lemma AgreeSuffix(x: seq<byte>, s: nat, t: nat, m: nat, k: nat)
    requires Agree(x, s, t, m) && k <= m
    ensures Agree(x, s + k, t + k, m - k)
  {
    assert x[s + k..s + m] == x[s..s + m][k..] == x[t..t + m][k..] == x[t + k..t + m];
  }

  lemma AgreeConcat(x: seq<byte>, s: nat, t: nat, m: nat, n: nat)
    requires Agree(x, s, t, m) && Agree(x, s + m, t + m, n)
    ensures Agree(x, s, t, m + n)
  {
    assert x[s..s + (m + n)] == x[s..s + m] + x[s + m..s + m + n];
    assert x[t..t + (m + n)] == x[t..t + m] + x[t + m..t + m + n];
  }

  lemma DiffersAsymmetric(rev: bool, x: seq<byte>, s: nat, t: nat, m: nat)
    requires DiffersAt(rev, x, s, t, m)
    ensures !SuffixBelow(rev, x, t, s)
  {
    forall k: nat
      ensures !DiffersAt(rev, x, t, s, k)
    {
      if DiffersAt(rev, x, t, s, k) {
        if k < m {
          AgreeByte(x, s, t, m, k);
        } else if m < k {
          AgreeByte(x, t, s, k, m);
        }
        assert false;
      }
    }
    if s < t <= |x| && Agree(x, t, s, |x| - t) {
      AgreeByte(x, t, s, |x| - t, m);
      assert false;
    }
  }

  // A repetition around the start of a maximal suffix is longer than what precedes it.
  lemma RepetitionExceedsPrefix(rev: bool, x: seq<byte>, c: nat, r: nat)
    requires MaximalSuffix(rev, x, c)
    requires LocalRepetition(x, c, r)
    ensures c < r
  {
    if r <= c {
      var t, u := c - r, c + r;
      assert SuffixBelow(rev, x, t, c);
      var m: nat :| DiffersAt(rev, x, t, c, m);
      assert x[t + m] != x[c + m];
      if r <= m {
        AgreeSuffix(x, t, c, m, r);
        assert DiffersAt(rev, x, c, u, m - r);
        DiffersAsymmetric(rev, x, c, u, m - r);
      }
      assert false;
    }
  }

  lemma RepetitionAgrees(x: seq<byte>, c: nat, r: nat, d: nat)
    requires LocalRepetition(x, c, r)
    requires d <= c < r && c + r <= |x|
    ensures Agree(x, d, d + r, c - d)
  {
  }

  lemma RepetitionDiffers(rev: bool, x: seq<byte>, c: nat, other: nat, r: nat, m: nat)
    requires other <= c < r && LocalRepetition(x, c, r)
    requires DiffersAt(rev, x, c + r, c, m)
    ensures DiffersAt(!rev, x, other, other + r, c - other + m)
  {
    RepetitionAgrees(x, c, r, other);
    AgreeConcat(x, other, other + r, c - other, m);
  }

  // The suffix c + r continues the suffix at c: the other order rules out a mismatch.
  lemma RepetitionContinues(rev: bool, x: seq<byte>, c: nat, other: nat, r: nat)
    requires MaximalSuffix(rev, x, c)
    requires MaximalSuffix(!rev, x, other)
    requires other <= c < r && c + r < |x|
    requires LocalRepetition(x, c, r)
    ensures Agree(x, c + r, c, |x| - c - r)
  {
    assert SuffixBelow(rev, x, c + r, c);
    if StrictlyBelow(rev, x, c + r, c) {
      var m: nat :| DiffersAt(rev, x, c + r, c, m);
      RepetitionDiffers(rev, x, c, other, r, m);
      DiffersAsymmetric(!rev, x, other, other + r, c - other + m);
      assert false;
    }
  }

  // Critical factorization theorem: where the later of the two maximal suffixes starts,
  // every repetition is a period of the whole string.
  lemma RepetitionIsPeriod(rev: bool, x: seq<byte>, c: nat, other: nat, r: nat)
    requires MaximalSuffix(rev, x, c)
    requires MaximalSuffix(!rev, x, other)
    requires other <= c
    requires LocalRepetition(x, c, r)
    ensures c < r && Period(x, r)
  {
    RepetitionExceedsPrefix(rev, x, c, r);
    forall i, j | 0 <= i && j == i + r && j < |x|
      ensures x[i] == x[j]
    {
      if c <= i {
        RepetitionContinues(rev, x, c, other, r);
        AgreeByte(x, c + r, c, |x| - c - r, i - c);
      }
    }
  }

  // ---- the scan that finds the maximal suffix ----

  // State of the scan: i is the best start so far, j the start of the last copy of the
  // period x[i..i+p), and j + r the next byte to look at.
  ghost predicate Scanned(rev: bool, x: seq<byte>, i: nat, p: nat, j: nat, r: nat) {
    && i + p <= j && r < p
    && PeriodicOn(x, i, j + r, p)
    && Agree(x, i, j - p, p)
    && (forall t: nat :: t < i ==> StrictlyBelow(rev, x, t, i))
    && (forall t: nat :: i < t < i + p ==> StrictlyBelow(rev, x, t, i))
  }

  lemma BelowTransitive(rev: bool, a: byte, b: byte, c: byte)
    requires Below(rev, a, b) || a == b
    requires Below(rev, b, c) || b == c
    ensures Below(rev, a, c) || (a == b == c)
  {
  }

  lemma DiffersTransitive(rev: bool, x: seq<byte>, s: nat, t: nat, u: nat, m: nat, n: nat)
    requires DiffersAt(rev, x, s, t, m) && DiffersAt(rev, x, t, u, n)
    ensures DiffersAt(rev, x, s, u, if m < n then m else n)
  {
    var k := if m < n then m else n;
    AgreePrefix(x, s, t, m, k);
    AgreePrefix(x, t, u, n, k);
    if k < m { AgreeByte(x, s, t, m, k); }
    if k < n { AgreeByte(x, t, u, n, k); }
    BelowTransitive(rev, x[s + k], x[t + k], x[u + k]);
  }

  lemma StrictlyBelowTransitive(rev: bool, x: seq<byte>, s: nat, t: nat, u: nat)
    requires StrictlyBelow(rev, x, s, t) && StrictlyBelow(rev, x, t, u)
    ensures StrictlyBelow(rev, x, s, u)
  {
    var m: nat :| DiffersAt(rev, x, s, t, m);
    var n: nat :| DiffersAt(rev, x, t, u, n);
    DiffersTransitive(rev, x, s, t, u, m, n);
  }

  // A shift by one period inside the scanned part.
  lemma AgreePeriod(x: seq<byte>, i: nat, end: nat, p: nat, t: nat)
    requires PeriodicOn(x, i, end, p)
    requires i + p <= t <= end
    ensures Agree(x, t, t - p, end - t)
  {
  }

  // The next byte is smaller than the period predicts: all of x[i..end] becomes the period.
  lemma {:induction false} SmallerByte(rev: bool, x: seq<byte>, i: nat, p: nat, end: nat, t: nat)
    requires PeriodicOn(x, i, end, p) && i + p <= end < |x|
    requires forall u: nat :: i < u < i + p ==> StrictlyBelow(rev, x, u, i)
    requires Below(rev, x[end], x[end - p])
    requires i < t <= end
    ensures StrictlyBelow(rev, x, t, i)
    decreases t
  {
    if t >= i + p {
      AgreePeriod(x, i, end, p, t);
      if t == i + p {
        assert DiffersAt(rev, x, t, i, end - t);
      } else {
        SmallerByte(rev, x, i, p, end, t - p);
        assert DiffersAt(rev, x, t, t - p, end - t);
        StrictlyBelowTransitive(rev, x, t, t - p, i);
      }
    }
  }

  lemma DiffersShifted(rev: bool, x: seq<byte>, i: nat, p: nat, end: nat, j: nat, t: nat, k: nat)
    requires PeriodicOn(x, i, end, p)
    requires i + p <= t && t + k < end
    requires DiffersAt(rev, x, t - p, j, k)
    ensures DiffersAt(rev, x, t, j, k)
  {
    AgreePeriod(x, i, end, p, t);
    AgreePrefix(x, t, t - p, end - t, k);
    AgreeByte(x, t, t - p, end - t, k);
  }

  // The next byte is larger than the period predicts: the last copy of the period wins.
  lemma {:induction false} LargerByte(rev: bool, x: seq<byte>, i: nat, p: nat, j: nat, r: nat, t: nat)
    returns (k: nat)
    requires PeriodicOn(x, i, j + r, p) && i + p <= j && j + r < |x|
    requires forall u: nat :: i < u < i + p ==> StrictlyBelow(rev, x, u, i)
    requires Agree(x, i, j, r) && Below(rev, x[i + r], x[j + r])
    requires i <= t < j
    ensures k <= r && DiffersAt(rev, x, t, j, k)
    decreases t
  {
    if t == i {
      k := r;
    } else if t < i + p {
      assert StrictlyBelow(rev, x, t, i);
      var m: nat :| DiffersAt(rev, x, t, i, m);
      k := if m < r then m else r;
      DiffersTransitive(rev, x, t, i, j, m, r);
    } else {
      k := LargerByte(rev, x, i, p, j, r, t - p);
      DiffersShifted(rev, x, i, p, j + r, j, t, k);
    }
  }

  lemma ScanStart(rev: bool, x: seq<byte>)
    requires x != []
    ensures Scanned(rev, x, 0, 1, 1, 0)
  {
  }

  lemma ScanEqual(rev: bool, x: seq<byte>, i: nat, p: nat, j: nat, r: nat)
    requires Scanned(rev, x, i, p, j, r)
    requires j + r < |x| && x[j + r] == x[i + r]
    ensures r + 1 < p ==> Scanned(rev, x, i, p, j, r + 1)
    ensures r + 1 == p ==> Scanned(rev, x, i, p, j + p, 0)
  {
    AgreeByte(x, i, j - p, p, r);
    assert PeriodicOn(x, i, j + r + 1, p);
    if r + 1 == p {
      AgreePeriod(x, i, j + p, p, j);
    }
  }

  lemma ScanSmaller(rev: bool, x: seq<byte>, i: nat, p: nat, j: nat, r: nat)
    requires Scanned(rev, x, i, p, j, r)
    requires j + r < |x| && Below(rev, x[j + r], x[i + r])
    ensures Scanned(rev, x, i, j + r + 1 - i, j + r + 1, 0)
  {
    AgreeByte(x, i, j - p, p, r);
    forall t: nat | i < t < i + (j + r + 1 - i)
      ensures StrictlyBelow(rev, x, t, i)
    {
      SmallerByte(rev, x, i, p, j + r, t);
    }
  }

  lemma ScanLarger(rev: bool, x: seq<byte>, i: nat, p: nat, j: nat, r: nat)
    requires Scanned(rev, x, i, p, j, r)
    requires j + r < |x| && Below(rev, x[i + r], x[j + r])
    ensures Scanned(rev, x, j, 1, j + 1, 0)
  {
    AgreePeriod(x, i, j + r, p, j);
    AgreePrefix(x, i, j - p, p, r);
    assert StrictlyBelow(rev, x, i, j) by { assert DiffersAt(rev, x, i, j, r); }
    forall t: nat | t < j
      ensures StrictlyBelow(rev, x, t, j)
    {
      if t < i {
        StrictlyBelowTransitive(rev, x, t, i, j);
      } else {
        var k := LargerByte(rev, x, i, p, j, r, t);
      }
    }
  }

  lemma SuffixBelowShifted(rev: bool, x: seq<byte>, i: nat, p: nat, t: nat)
    requires PeriodicOn(x, i, |x|, p)
    requires i + p < t < |x|
    requires SuffixBelow(rev, x, t - p, i)
    ensures SuffixBelow(rev, x, t, i)
  {
    hide DiffersAt, Agree, PeriodicOn;
    var n := |x| - t;
    if Agree(x, t - p, i, n) {
      AgreePeriod(x, i, |x|, p, t);
      AgreeTransitive(x, t, t - p, i, n);
    } else if StrictlyBelow(rev, x, t - p, i) {
      var m: nat :| DiffersAt(rev, x, t - p, i, m);
      DiffersLater(rev, x, t - p, i, m, n);
      DiffersShifted(rev, x, i, p, |x|, i, t, m);
    } else {
      AgreePrefix(x, t - p, i, n + p, n);
      assert false;
    }
  }

  lemma DiffersLater(rev: bool, x: seq<byte>, s: nat, t: nat, m: nat, n: nat)
    requires DiffersAt(rev, x, s, t, m) && !Agree(x, s, t, n)
    ensures m < n
  {
    if n <= m {
      AgreePrefix(x, s, t, m, n);
      assert false;
    }
  }

  lemma AgreeTransitive(x: seq<byte>, s: nat, t: nat, u: nat, m: nat)
    requires Agree(x, s, t, m) && Agree(x, t, u, m)
    ensures Agree(x, s, u, m)
  {
  }

  lemma {:induction false} ScanTail(rev: bool, x: seq<byte>, i: nat, p: nat, t: nat)
    requires PeriodicOn(x, i, |x|, p)
    requires forall u: nat :: i < u < i + p ==> StrictlyBelow(rev, x, u, i)
    requires i < t < |x|
    ensures SuffixBelow(rev, x, t, i)
    decreases t
  {
    if t == i + p {
      AgreePeriod(x, i, |x|, p, t);
    } else if t > i + p {
      ScanTail(rev, x, i, p, t - p);
      SuffixBelowShifted(rev, x, i, p, t);
    }
  }

  // p is the least period of the suffix of x that starts at c.
  ghost predicate LeastPeriod(x: seq<byte>, c: nat, p: nat) {
    && c + p <= |x|
    && PeriodicOn(x, c, |x|, p)
    && forall r: nat :: 0 < r < p ==> !PeriodicOn(x, c, |x|, r)
  }

  // When the scan has consumed the whole string it has found the maximal suffix, and p
  // is that suffix's least period.
  lemma ScanFinished(rev: bool, x: seq<byte>, i: nat, p: nat, j: nat, r: nat)
    requires Scanned(rev, x, i, p, j, r) && j + r == |x|
    ensures MaximalSuffix(rev, x, i)
    ensures LeastPeriod(x, i, p)
  {
    forall t: nat | t < |x| && t != i
      ensures SuffixBelow(rev, x, t, i)
    {
      if t > i {
        ScanTail(rev, x, i, p, t);
      }
    }
    forall r: nat | 0 < r < p
      ensures !PeriodicOn(x, i, |x|, r)
    {
      assert StrictlyBelow(rev, x, i + r, i);
      var m: nat :| DiffersAt(rev, x, i + r, i, m);
    }
  }
}
