// What a critical factorization of the needle says about where it can occur next.
module Occurrence {
  import opened Bytes
  import opened Factorization

  ghost predicate Matches(m: seq<byte>, x: seq<byte>, q: nat) {
    q + |x| <= |m| && m[q..q + |x|] == x
  }

  // Bytes lo..hi of the needle lie under the window at h.
  ghost predicate Covers(m: seq<byte>, x: seq<byte>, h: nat, lo: nat, hi: nat) {
    && hi <= |x| && h + hi <= |m|
    && forall i :: lo <= i < hi ==> m[h + i] == x[i]
  }

  // Every repetition around c is a period of the whole needle and longer than c.
  ghost predicate Critical(x: seq<byte>, c: nat) {
    && c < |x|
    && forall r: nat :: LocalRepetition(x, c, r) ==> c < r && Period(x, r)
  }

  lemma MatchByte(m: seq<byte>, x: seq<byte>, q: nat, i: nat)
    requires Matches(m, x, q) && i < |x|
    ensures m[q + i] == x[i]
  {
    assert m[q..q + |x|][i] == x[i];
  }

  lemma CoversAll(m: seq<byte>, x: seq<byte>, q: nat)
    requires Covers(m, x, q, 0, |x|)
    ensures Matches(m, x, q)
  {
  }

  lemma MaximalSuffixesCritical(rev: bool, x: seq<byte>, c: nat, other: nat)
    requires MaximalSuffix(rev, x, c) && MaximalSuffix(!rev, x, other)
    requires other <= c
    ensures Critical(x, c)
  {
    forall r: nat | LocalRepetition(x, c, r)
      ensures c < r && Period(x, r)
    {
      RepetitionIsPeriod(rev, x, c, other, r);
    }
  }

  // An occurrence d further on, where the window matched from c up to c + d or to the end,
  // is a repetition around c.
  lemma MatchIsRepetition(m: seq<byte>, x: seq<byte>, h: nat, c: nat, k: nat, d: nat)
    requires Covers(m, x, h, c, k)
    requires 0 < d && (c + d <= k || k == |x|)
    requires Matches(m, x, h + d)
    ensures LocalRepetition(x, c, d)
  {
    forall i, j | 0 <= i && c - d <= i < c && j == i + d && j < |x|
      ensures x[i] == x[j]
    {
      MatchByte(m, x, h + d, i);
      assert m[h + j] == x[j];
    }
  }

  // If an occurrence lies at most k - c further on, the window matches at k as well.
  lemma RightAgrees(m: seq<byte>, x: seq<byte>, h: nat, c: nat, k: nat, d: nat)
    requires Critical(x, c) && c <= k < |x|
    requires Covers(m, x, h, c, k) && h + k < |m|
    requires 0 < d <= k - c && Matches(m, x, h + d)
    ensures m[h + k] == x[k]
  {
    MatchIsRepetition(m, x, h, c, k, d);
    assert x[k - d] == x[k];
    MatchByte(m, x, h + d, k - d);
  }

  // After the right half matched, the next occurrence is at a period of the needle.
  lemma LeftMismatch(m: seq<byte>, x: seq<byte>, h: nat, c: nat, d: nat)
    requires Critical(x, c)
    requires Covers(m, x, h, c, |x|)
    requires 0 < d && Matches(m, x, h + d)
    ensures c < d && Period(x, d)
  {
    MatchIsRepetition(m, x, h, c, |x|, d);
  }

  // A period of the needle no longer than its right half makes the right half's least
  // period a period of the needle.
  lemma {:induction false} PeriodDescends(x: seq<byte>, c: nat, p: nat, d: nat)
    requires Critical(x, c) && LeastPeriod(x, c, p)
    requires Period(x, d) && d <= |x| - c
    ensures Period(x, p)
    decreases d
  {
    assert PeriodicOn(x, c, |x|, d);
    if d != p {
      assert p < d;
      assert LocalRepetition(x, c, d - p) by {
        forall i, j | 0 <= i && c - (d - p) <= i < c && j == i + (d - p) && j < |x|
          ensures x[i] == x[j]
        {
          assert x[i] == x[i + d] == x[j + p] == x[j];
        }
      }
      PeriodDescends(x, c, p, d - p);
    }
  }

  // If an occurrence starts inside the remembered prefix, the last byte matches as well.
  lemma PrefixAgrees(m: seq<byte>, x: seq<byte>, h: nat, p: nat, d: nat)
    requires Period(x, p) && p < |x|
    requires h + |x| <= |m| && Covers(m, x, h, 0, |x| - p)
    requires 0 < d < |x| - p && Matches(m, x, h + d)
    ensures m[h + |x| - 1] == x[|x| - 1]
  {
    var last := |x| - 1;
    MatchByte(m, x, h + d, last - d);
    MatchByte(m, x, h + d, last - p - d);
    assert m[h + (last - p)] == x[last - p];
    assert x[last - p - d] == x[last - d];
    assert x[last - p] == x[last];
  }
}
