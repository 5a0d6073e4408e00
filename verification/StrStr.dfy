// strstr: the short paths and the two-way search, against the first occurrence of the needle.
// Memory is a sequence of bytes; h and n are the addresses of the haystack and the needle.
module StrStr {
  import opened Bytes
  import opened WordScan
  import opened Factorization
  import opened Occurrence

  // The maximal suffix of the needle starts at ip + 1 (ip wraps to -1 in the size_t arithmetic).
  method FindMaximalSuffix(n: seq<byte>, rev: bool) returns (ip: int, p: nat)
    requires n != []
    ensures -1 <= ip && MaximalSuffix(rev, n, ip + 1)
    ensures LeastPeriod(n, ip + 1, p)
  {
    hide Scanned;
    var l, jp, k := |n|, 0, 1;
    ip, p := -1, 1;
    ScanStart(rev, n);
    while jp + k < l
      invariant -1 <= ip && 0 <= ip + p <= jp && 1 <= k <= p && jp + k <= l
      invariant Scanned(rev, n, ip + 1, p, jp + 1, k - 1)
      decreases l - ip, l - jp - k
    {
      if n[ip + k] == n[jp + k] {
        ScanEqual(rev, n, ip + 1, p, jp + 1, k - 1);
        if k == p {
          jp, k := jp + p, 1;
        } else {
          k := k + 1;
        }
      } else if Below(rev, n[jp + k], n[ip + k]) {
        ScanSmaller(rev, n, ip + 1, p, jp + 1, k - 1);
        jp, k := jp + k, 1;
        p := jp - ip;
      } else {
        ScanLarger(rev, n, ip + 1, p, jp + 1, k - 1);
        ip := jp;
        jp := jp + 1;
        k, p := 1, 1;
      }
    }
    ScanFinished(rev, n, ip + 1, p, jp + 1, k - 1);
  }

  // ---- bad-byte tables ----

  function Slot(b: byte): (i: nat)
    ensures i < 4
  {
    (b >> 6) as int
  }

  function Bit(b: byte): bv64 {
    (1 as bv64) << (b & 63)
  }

  predicate Has(w: bv64, b: byte) {
    w & Bit(b) != 0
  }

  function With(w: bv64, b: byte): bv64 {
    w | Bit(b)
  }

  predicate Present(byteset: array<bv64>, b: byte)
    reads byteset
    requires byteset.Length == 4
  {
    Has(byteset[Slot(b)], b)
  }

  lemma BitSet(w: bv64, b: byte)
    ensures Has(With(w, b), b)
  {
  }

  lemma SlotInjective(b: byte, d: byte)
    requires Slot(b) == Slot(d)
    ensures b >> 6 == d >> 6
  {
  }

  lemma BitKept(w: bv64, b: byte, d: byte)
    requires Slot(b) == Slot(d) && b != d
    ensures Has(With(w, b), d) == Has(w, d)
  {
    hide Slot;
    SlotInjective(b, d);
  }

  lemma IndexInjective(b: byte, d: byte)
    ensures b as int == d as int <==> b == d
  {
  }

  // The tables describe exactly the bytes x and their last positions.
  ghost predicate Tables(byteset: array<bv64>, shift: array<nat>, x: seq<byte>)
    reads byteset, shift
  {
    && byteset.Length == 4 && shift.Length == 256
    && (forall b: byte :: Present(byteset, b) ==> LastAt(x, b, shift[b as int]))
    && (forall i :: 0 <= i < |x| ==> Present(byteset, x[i]))
  }

  // One past the last position of b in x.
  ghost predicate LastAt(x: seq<byte>, b: byte, s: nat) {
    0 < s <= |x| && x[s - 1] == b && forall i :: s <= i < |x| ==> x[i] != b
  }

  method Mark(byteset: array<bv64>, b: byte)
    requires byteset.Length == 4
    modifies byteset
    ensures forall d: byte :: Present(byteset, d) == (d == b || old(Present(byteset, d)))
  {
    hide Has, With, Slot;
    byteset[Slot(b)] := With(byteset[Slot(b)], b);
    BitSet(old(byteset[Slot(b)]), b);
    forall d: byte
      ensures Present(byteset, d) == (d == b || old(Present(byteset, d)))
    {
      if d != b && Slot(b) == Slot(d) {
        BitKept(old(byteset[Slot(b)]), b, d);
      }
    }
  }

  lemma LastExtended(x: seq<byte>, b: byte, d: byte, s: nat)
    requires d != b && LastAt(x, d, s)
    ensures LastAt(x + [b], d, s)
  {
  }

  method Record(byteset: array<bv64>, shift: array<nat>, ghost x: seq<byte>, b: byte, l: nat)
    requires Tables(byteset, shift, x) && l == |x|
    modifies byteset, shift
    ensures Tables(byteset, shift, x + [b])
  {
    hide Present;
    Mark(byteset, b);
    shift[b as int] := l + 1;
    forall d: byte | Present(byteset, d)
      ensures LastAt(x + [b], d, shift[d as int])
    {
      IndexInjective(b, d);
      if d != b {
        LastExtended(x, b, d, shift[d as int]);
      }
    }
  }

  // The needle's length, unless the haystack ends first, and the tables for that part.
  method BuildTables(m: seq<byte>, h: nat, n: nat) returns (l: nat, byteset: array<bv64>, shift: array<nat>)
    requires Terminated(m, h) && Terminated(m, n)
    ensures n + l < |m| && h + l < |m|
    ensures m[n + l] == 0 || m[h + l] == 0
    ensures forall i :: n <= i < n + l ==> m[i] != 0
    ensures forall i :: h <= i < h + l ==> m[i] != 0
    ensures fresh(byteset) && fresh(shift) && Tables(byteset, shift, m[n..n + l])
  {
    hide Tables;
    byteset := new bv64[4](i => 0);
    shift := new nat[256];
    l := 0;
    EmptyTables(byteset, shift);
    assert m[n..n] == [];
    while m[n + l] != 0 && m[h + l] != 0
      invariant n + l < |m| && h + l < |m|
      invariant forall i :: n <= i < n + l ==> m[i] != 0
      invariant forall i :: h <= i < h + l ==> m[i] != 0
      invariant fresh(byteset) && fresh(shift) && Tables(byteset, shift, m[n..n + l])
      decreases |m| - l
    {
      Record(byteset, shift, m[n..n + l], m[n + l], l);
      assert m[n..n + l] + [m[n + l]] == m[n..n + l + 1];
      l := l + 1;
    }
  }

  lemma EmptyTables(byteset: array<bv64>, shift: array<nat>)
    requires byteset.Length == 4 && shift.Length == 256
    requires forall i :: 0 <= i < 4 ==> byteset[i] == 0
    ensures Tables(byteset, shift, [])
  {
    forall b: byte
      ensures !Present(byteset, b)
    {
      assert byteset[Slot(b)] == 0;
    }
  }

  // Every period longer than c is at least p.
  ghost predicate SafeShift(x: seq<byte>, c: nat, p: nat) {
    0 < p <= |x| && forall d: nat :: c < d && Period(x, d) ==> p <= d
  }

  ghost predicate Periodic(x: seq<byte>, c: nat, p: nat) {
    c < p && Period(x, p)
  }

  // c is the later start of the two maximal suffixes.
  ghost predicate LaterStart(x: seq<byte>, c: nat) {
    exists a: nat, b: nat :: MaximalSuffix(false, x, a) && MaximalSuffix(true, x, b) && c == if a < b then b else a
  }

  // The left part repeats at the period of the right part, or it does not and p is the longer part
  // and one more.
  ghost predicate RepeatsBy(x: seq<byte>, c: nat, p: nat, mem0: nat) {
    LeastPeriod(x, c, p) && x[..c] == x[p..p + c] && mem0 == |x| - p
  }

  ghost predicate NoRepeat(x: seq<byte>, c: nat, p: nat, mem0: nat) {
    && (exists q: nat :: LeastPeriod(x, c, q) && x[..c] != x[q..q + c])
    && mem0 == 0 && p == 1 + if c - 1 > |x| - c then c - 1 else |x| - c
  }

  // Critical position ms + 1 of the needle, the shift p after a mismatch in the left half and
  // the length mem0 of the prefix that is then known to match.
  method Factorize(x: seq<byte>) returns (ms: int, p: nat, mem0: nat)
    requires x != []
    ensures -1 <= ms && Critical(x, ms + 1) && SafeShift(x, ms + 1, p)
    ensures mem0 == 0 || (mem0 == |x| - p && Periodic(x, ms + 1, p))
    ensures LaterStart(x, ms + 1) && (RepeatsBy(x, ms + 1, p, mem0) || NoRepeat(x, ms + 1, p, mem0))
  {
    hide Critical, MaximalSuffix, LeastPeriod, Period;
    var l := |x|;
    var p0: nat;
    ms, p0 := FindMaximalSuffix(x, false);
    var ip;
    ip, p := FindMaximalSuffix(x, true);
    if ip + 1 > ms + 1 {
      MaximalSuffixesCritical(true, x, ip + 1, ms + 1);
      ms := ip;
    } else {
      MaximalSuffixesCritical(false, x, ms + 1, ip + 1);
      p := p0;
    }
    LeastPeriodBounds(x, ms + 1, p);
    if x[..ms + 1] != x[p..p + ms + 1] {
      mem0 := 0;
      AperiodicShift(x, ms + 1, p);
      p := (if ms > l - ms - 1 then ms else l - ms - 1) + 1;
    } else {
      mem0 := l - p;
      PeriodicShift(x, ms + 1, p);
    }
  }

  lemma LeastPeriodBounds(x: seq<byte>, c: nat, p: nat)
    requires LeastPeriod(x, c, p)
    ensures 0 < p && c + p <= |x|
  {
  }

  lemma PeriodicShift(x: seq<byte>, c: nat, p: nat)
    requires Critical(x, c) && LeastPeriod(x, c, p)
    requires x[..c] == x[p..p + c]
    ensures SafeShift(x, c, p) && Periodic(x, c, p)
  {
    forall i, j | 0 <= i && j == i + p && j < |x|
      ensures x[i] == x[j]
    {
      if i < c {
        assert x[..c][i] == x[p..p + c][i];
      }
    }
    assert LocalRepetition(x, c, p);
    forall d: nat | c < d && Period(x, d)
      ensures p <= d
    {
      assert PeriodicOn(x, c, |x|, d);
    }
  }

  lemma AperiodicShift(x: seq<byte>, c: nat, p: nat)
    requires Critical(x, c) && LeastPeriod(x, c, p)
    requires x[..c] != x[p..p + c]
    ensures 0 < c
    ensures SafeShift(x, c, if c - 1 > |x| - c then c else |x| - c + 1)
  {
    if c == 0 {
      assert false;
    }
    forall d: nat | c < d && Period(x, d)
      ensures |x| - c < d
    {
      if d <= |x| - c {
        PeriodDescends(x, c, p, d);
        assert false;
      }
    }
  }

  // ---- the search loop ----

  ghost predicate NoneBefore(m: seq<byte>, x: seq<byte>, from: nat, to: int) {
    forall q: nat :: from <= q < to ==> !Matches(m, x, q)
  }

  // r is the first occurrence of the string at n in the string at h.
  ghost predicate FirstOccurrence(m: seq<byte>, h: nat, n: nat, r: Option<nat>)
    requires Terminated(m, h) && Terminated(m, n)
  {
    var x, end := m[n..StrEnd(m, n)], StrEnd(m, h);
    match r
    case Some(q) => h <= q && q + |x| <= end && Matches(m, x, q) && NoneBefore(m, x, h, q)
    case None => NoneBefore(m, x, h, end + 1 - |x|)
  }

  // What the search remembers: bytes 0..mem of the needle match at h.
  ghost predicate Remembers(m: seq<byte>, x: seq<byte>, c: nat, p: nat, h: nat, mem: nat) {
    mem == 0 || (mem == |x| - p && 0 < p && Periodic(x, c, p) && Covers(m, x, h, 0, mem))
  }

  // Byte b under the last position of the needle last occurs in it one before s.
  lemma BadByteShift(m: seq<byte>, x: seq<byte>, h: nat, c: nat, p: nat, mem: nat, s: nat, k: nat)
    requires x != [] && h + |x| <= |m|
    requires LastAt(x, m[h + |x| - 1], s) && s < |x|
    requires Remembers(m, x, c, p, h, mem)
    requires k == if |x| - s < mem then mem else |x| - s
    ensures NoneBefore(m, x, h, h + k)
  {
    var last := |x| - 1;
    forall q: nat | h <= q < h + k
      ensures !Matches(m, x, q)
    {
      if Matches(m, x, q) {
        MatchByte(m, x, q, last - (q - h));
        if q < h + mem && q > h {
          PrefixAgrees(m, x, h, p, q - h);
        }
        assert false;
      }
    }
  }

  lemma AbsentByteShift(m: seq<byte>, x: seq<byte>, h: nat)
    requires x != [] && h + |x| <= |m|
    requires m[h + |x| - 1] !in x
    ensures NoneBefore(m, x, h, h + |x|)
  {
    forall q: nat | h <= q < h + |x|
      ensures !Matches(m, x, q)
    {
      if Matches(m, x, q) {
        MatchByte(m, x, q, |x| - 1 - (q - h));
        assert false;
      }
    }
  }

  lemma RightShift(m: seq<byte>, x: seq<byte>, h: nat, c: nat, k: nat)
    requires Critical(x, c) && c <= k < |x|
    requires Covers(m, x, h, c, k) && h + k < |m| && m[h + k] != x[k]
    ensures NoneBefore(m, x, h, h + k - c + 1)
  {
    hide Critical;
    forall q: nat | h <= q < h + k - c + 1
      ensures !Matches(m, x, q)
    {
      if Matches(m, x, q) {
        if q == h {
          MatchByte(m, x, h, k);
        } else {
          RightAgrees(m, x, h, c, k, q - h);
        }
        assert false;
      }
    }
  }

  lemma LeftShift(m: seq<byte>, x: seq<byte>, h: nat, c: nat, p: nat)
    requires Critical(x, c) && SafeShift(x, c, p)
    requires Covers(m, x, h, c, |x|) && !Matches(m, x, h)
    ensures NoneBefore(m, x, h, h + p)
  {
    hide Critical;
    forall q: nat | h <= q < h + p
      ensures !Matches(m, x, q)
    {
      if q > h && Matches(m, x, q) {
        LeftMismatch(m, x, h, c, q - h);
        assert false;
      }
    }
  }

  lemma ShiftRemembers(m: seq<byte>, x: seq<byte>, h: nat, c: nat, p: nat)
    requires Covers(m, x, h, c, |x|) && Periodic(x, c, p) && p <= |x|
    ensures Remembers(m, x, c, p, h + p, |x| - p)
  {
    forall i | 0 <= i < |x| - p
      ensures m[h + p + i] == x[i]
    {
      assert m[h + (p + i)] == x[p + i] == x[i];
    }
  }

  method MatchRight(m: seq<byte>, h: nat, n: nat, ghost x: seq<byte>, from: nat) returns (k: nat)
    requires n + |x| < |m| && m[n..n + |x|] == x && m[n + |x|] == 0
    requires forall i :: n <= i < n + |x| ==> m[i] != 0
    requires h + |x| <= |m| && from <= |x|
    ensures from <= k <= |x| && Covers(m, x, h, from, k)
    ensures m[n + k] == 0 <==> k == |x|
    ensures k < |x| ==> m[h + k] != x[k]
  {
    k := from;
    while m[n + k] != 0 && m[n + k] == m[h + k]
      invariant from <= k <= |x| && Covers(m, x, h, from, k)
      decreases |x| - k
    {
      assert m[n + k] == x[k];
      k := k + 1;
    }
    assert k < |x| ==> m[n + k] == x[k];
  }

  method MatchLeft(m: seq<byte>, h: nat, n: nat, ghost x: seq<byte>, c: nat, mem: nat) returns (k: nat)
    requires n + |x| <= |m| && m[n..n + |x|] == x
    requires h + |x| <= |m| && c <= |x|
    ensures k <= c && Covers(m, x, h, k, c)
    ensures k > mem ==> m[h + k - 1] != x[k - 1]
  {
    k := c;
    while k > mem && m[n + k - 1] == m[h + k - 1]
      invariant k <= c && Covers(m, x, h, k, c)
    {
      assert m[n + k - 1] == x[k - 1];
      k := k - 1;
    }
    assert k > mem ==> m[n + k - 1] == x[k - 1];
  }

  // Move the incremental end-of-haystack pointer z at least l past h, or report that the
  // haystack ends before that.
  method Extend(m: seq<byte>, ghost h0: nat, h: nat, z: nat, l: nat) returns (z': nat, ended: bool)
    requires Mapped(m) && Terminated(m, h0) && h0 <= h <= z <= StrEnd(m, h0)
    requires 0 < l
    ensures ended ==> StrEnd(m, h0) < h + l
    ensures !ended ==> h + l <= z' <= StrEnd(m, h0)
  {
    ended, z' := false, z;
    if z - h < l {
      var grow := AtLeast63(l);
      ghost var end := StrEnd(m, h0);
      assert m[end] == 0;
      var z2 := MemChr(m, z, 0, grow);
      if z2.Some? {
        z' := z2.value;
        ended := z' - h < l;
      } else {
        z' := z + grow;
      }
    }
  }

  // l | 63 sets the low six bits.
  function AtLeast63(l: nat): (g: nat)
    ensures g >= l && g >= 63
  {
    l / 64 * 64 + 63
  }

  // One window of the search loop: an occurrence at h, or the shift to the next window and
  // the prefix remembered there.
  method TryWindow(m: seq<byte>, h: nat, n: nat, l: nat, byteset: array<bv64>, shift: array<nat>,
                   ms: int, p: nat, mem0: nat, mem: nat, ghost x: seq<byte>)
    returns (found: bool, step: nat, mem': nat)
    requires 0 < l == |x| && EndsAt(m, n, n + l) && x == m[n..n + l]
    requires h + l <= |m|
    requires Tables(byteset, shift, x)
    requires -1 <= ms && Critical(x, ms + 1) && SafeShift(x, ms + 1, p)
    requires mem0 == 0 || (mem0 == l - p && Periodic(x, ms + 1, p))
    requires Remembers(m, x, ms + 1, p, h, mem)
    ensures found ==> Matches(m, x, h)
    ensures !found ==> 0 < step <= l && NoneBefore(m, x, h, h + step)
    ensures !found ==> Remembers(m, x, ms + 1, p, h + step, mem')
  {
    hide Critical, SafeShift, Periodic, LastAt, Matches, NoneBefore;
    ghost var c := ms + 1;
    SearchBounds(x, c, p);
    found, step, mem' := false, l, 0;
    var last := m[h + l - 1];
    if !Present(byteset, last) {
      AbsentByteShift(m, x, h);
      return;
    }
    LastBounds(x, last, shift[last as int]);
    var k := l - shift[last as int];
    if k > 0 {
      if k < mem { k := mem; }
      BadByteShift(m, x, h, c, p, mem, shift[last as int], k);
      step := k;
      return;
    }
    k := MatchRight(m, h, n, x, if ms + 1 > mem then ms + 1 else mem);
    assert Covers(m, x, h, c, k) by {
      if c < mem { assert forall i :: c <= i < mem ==> m[h + i] == x[i]; }
    }
    if m[n + k] != 0 {
      RightShift(m, x, h, c, k);
      step := k - ms;
      return;
    }
    k := MatchLeft(m, h, n, x, ms + 1, mem);
    if k <= mem {
      CoversAll(m, x, h);
      found := true;
      return;
    }
    LeftDiffers(m, x, h, k);
    LeftShift(m, x, h, c, p);
    if mem0 != 0 {
      ShiftRemembers(m, x, h, c, p);
    }
    step, mem' := p, mem0;
  }

  lemma NoneBeforeExtended(m: seq<byte>, x: seq<byte>, from: nat, mid: nat, to: nat)
    requires NoneBefore(m, x, from, mid) && NoneBefore(m, x, mid, to)
    ensures NoneBefore(m, x, from, to)
  {
  }

  method Search(m: seq<byte>, h0: nat, n: nat, l: nat, byteset: array<bv64>, shift: array<nat>,
                ms: int, p: nat, mem0: nat) returns (r: Option<nat>)
    requires Mapped(m) && Terminated(m, h0) && Terminated(m, n)
    requires 0 < l && StrEnd(m, n) == n + l
    requires Tables(byteset, shift, m[n..n + l])
    requires -1 <= ms && Critical(m[n..n + l], ms + 1) && SafeShift(m[n..n + l], ms + 1, p)
    requires mem0 == 0 || (mem0 == l - p && Periodic(m[n..n + l], ms + 1, p))
    ensures FirstOccurrence(m, h0, n, r)
  {
    hide Critical, SafeShift, Periodic, LastAt, Tables;
    ghost var x, end := m[n..n + l], StrEnd(m, h0);
    var h, z, mem := h0, h0, 0;
    while true
      invariant h0 <= h <= z <= end
      invariant NoneBefore(m, x, h0, h)
      invariant Remembers(m, x, ms + 1, p, h, mem)
      decreases end - h
    {
      var ended;
      z, ended := Extend(m, h0, h, z, l);
      if ended {
        return None;
      }
      var found, step, mem' := TryWindow(m, h, n, l, byteset, shift, ms, p, mem0, mem, x);
      if found {
        return Some(h);
      }
      NoneBeforeExtended(m, x, h0, h, h + step);
      h, mem := h + step, mem';
    }
  }

  lemma SearchBounds(x: seq<byte>, c: nat, p: nat)
    requires Critical(x, c) && SafeShift(x, c, p)
    ensures c < |x| && 0 < p <= |x|
  {
  }

  lemma LastBounds(x: seq<byte>, b: byte, s: nat)
    requires LastAt(x, b, s)
    ensures 0 < s <= |x|
  {
  }

  lemma LeftDiffers(m: seq<byte>, x: seq<byte>, h: nat, k: nat)
    requires 0 < k <= |x| && h + |x| <= |m| && m[h + k - 1] != x[k - 1]
    ensures !Matches(m, x, h)
  {
    if Matches(m, x, h) {
      assert false;
    }
  }

  method TwoWay(m: seq<byte>, h: nat, n: nat) returns (r: Option<nat>)
    requires Mapped(m) && Terminated(m, h) && Terminated(m, n) && m[n] != 0
    ensures FirstOccurrence(m, h, n, r)
  {
    hide Tables, Critical, SafeShift, Periodic;
    var l, byteset, shift := BuildTables(m, h, n);
    if m[n + l] != 0 {
      return None;
    }
    var ms, p, mem0 := Factorize(m[n..n + l]);
    r := Search(m, h, n, l, byteset, shift, ms, p, mem0);
  }

  // ---- needles of two to four bytes ----

  function Word2(m: seq<byte>, i: nat): bv16
    requires i + 2 <= |m|
  {
    ((m[i] as bv16) << 8) | (m[i + 1] as bv16)
  }

  function Word3(m: seq<byte>, i: nat): bv32
    requires i + 3 <= |m|
  {
    ((m[i] as bv32) << 24) | ((m[i + 1] as bv32) << 16) | ((m[i + 2] as bv32) << 8)
  }

  function Word4(m: seq<byte>, i: nat): bv32
    requires i + 4 <= |m|
  {
    ((m[i] as bv32) << 24) | ((m[i + 1] as bv32) << 16) | ((m[i + 2] as bv32) << 8) | (m[i + 3] as bv32)
  }

  lemma Roll2(m: seq<byte>, i: nat)
    requires i + 3 <= |m|
    ensures (Word2(m, i) << 8) | (m[i + 2] as bv16) == Word2(m, i + 1)
  {
  }

  lemma Roll3(m: seq<byte>, i: nat)
    requires i + 4 <= |m|
    ensures (Word3(m, i) | (m[i + 3] as bv32)) << 8 == Word3(m, i + 1)
  {
  }

  lemma Roll4(m: seq<byte>, i: nat)
    requires i + 5 <= |m|
    ensures (Word4(m, i) << 8) | (m[i + 4] as bv32) == Word4(m, i + 1)
  {
  }

  lemma Match2(m: seq<byte>, n: nat, q: nat)
    requires n + 2 <= |m| && q + 2 <= |m|
    ensures Matches(m, m[n..n + 2], q) <==> Word2(m, n) == Word2(m, q)
  {
    assert m[n..n + 2] == [m[n], m[n + 1]] && m[q..q + 2] == [m[q], m[q + 1]];
  }

  lemma Match3(m: seq<byte>, n: nat, q: nat)
    requires n + 3 <= |m| && q + 3 <= |m|
    ensures Matches(m, m[n..n + 3], q) <==> Word3(m, n) == Word3(m, q)
  {
    assert m[n..n + 3] == [m[n], m[n + 1], m[n + 2]] && m[q..q + 3] == [m[q], m[q + 1], m[q + 2]];
  }

  lemma Match4(m: seq<byte>, n: nat, q: nat)
    requires n + 4 <= |m| && q + 4 <= |m|
    ensures Matches(m, m[n..n + 4], q) <==> Word4(m, n) == Word4(m, q)
  {
    assert m[n..n + 4] == [m[n], m[n + 1], m[n + 2], m[n + 3]];
    assert m[q..q + 4] == [m[q], m[q + 1], m[q + 2], m[q + 3]];
  }

  method TwoByte(m: seq<byte>, h0: nat, n: nat) returns (r: Option<nat>)
    requires Terminated(m, h0) && StrEnd(m, h0) >= h0 + 1
    requires Terminated(m, n) && StrEnd(m, n) == n + 2
    ensures FirstOccurrence(m, h0, n, r)
  {
    hide Word2, Matches;
    ghost var x, end := m[n..n + 2], StrEnd(m, h0);
    var nw, hw := Word2(m, n), Word2(m, h0);
    var h := h0 + 1;
    Match2(m, n, h0);
    while m[h] != 0 && hw != nw
      invariant h0 + 1 <= h <= end
      invariant hw == Word2(m, h - 1)
      invariant Matches(m, x, h - 1) <==> hw == nw
      invariant NoneBefore(m, x, h0, h - 1)
      decreases end - h
    {
      h := h + 1;
      Roll2(m, h - 2);
      Match2(m, n, h - 1);
      hw := (hw << 8) | (m[h] as bv16);
    }
    r := if m[h] != 0 then Some(h - 1) else None;
  }

  method ThreeByte(m: seq<byte>, h0: nat, n: nat) returns (r: Option<nat>)
    requires Terminated(m, h0) && StrEnd(m, h0) >= h0 + 2
    requires Terminated(m, n) && StrEnd(m, n) == n + 3
    ensures FirstOccurrence(m, h0, n, r)
  {
    hide Word3, Matches;
    ghost var x, end := m[n..n + 3], StrEnd(m, h0);
    var nw, hw := Word3(m, n), Word3(m, h0);
    var h := h0 + 2;
    Match3(m, n, h0);
    while m[h] != 0 && hw != nw
      invariant h0 + 2 <= h <= end
      invariant hw == Word3(m, h - 2)
      invariant Matches(m, x, h - 2) <==> hw == nw
      invariant NoneBefore(m, x, h0, h - 2)
      decreases end - h
    {
      h := h + 1;
      Roll3(m, h - 3);
      Match3(m, n, h - 2);
      hw := (hw | (m[h] as bv32)) << 8;
    }
    r := if m[h] != 0 then Some(h - 2) else None;
  }

  method FourByte(m: seq<byte>, h0: nat, n: nat) returns (r: Option<nat>)
    requires Terminated(m, h0) && StrEnd(m, h0) >= h0 + 3
    requires Terminated(m, n) && StrEnd(m, n) == n + 4
    ensures FirstOccurrence(m, h0, n, r)
  {
    hide Word4, Matches;
    ghost var x, end := m[n..n + 4], StrEnd(m, h0);
    var nw, hw := Word4(m, n), Word4(m, h0);
    var h := h0 + 3;
    Match4(m, n, h0);
    while m[h] != 0 && hw != nw
      invariant h0 + 3 <= h <= end
      invariant hw == Word4(m, h - 3)
      invariant Matches(m, x, h - 3) <==> hw == nw
      invariant NoneBefore(m, x, h0, h - 3)
      decreases end - h
    {
      h := h + 1;
      Roll4(m, h - 4);
      Match4(m, n, h - 3);
      hw := (hw << 8) | (m[h] as bv32);
    }
    r := if m[h] != 0 then Some(h - 3) else None;
  }

  lemma {:induction false} SuffixEnd(m: seq<byte>, h: nat, g: nat)
    requires Terminated(m, h) && h <= g <= |m| && forall i :: h <= i < g ==> m[i] != 0
    ensures g <= StrEnd(m, h) && Terminated(m, g) && StrEnd(m, g) == StrEnd(m, h)
  {
    assert EndsAt(m, h, StrEnd(m, h));
    assert m[StrEnd(m, h)] == 0;
  }

  // Skipping to the first byte equal to the needle's first byte skips no occurrence.
  lemma SkipToFirst(m: seq<byte>, h: nat, n: nat, g: nat, r: Option<nat>)
    requires Terminated(m, h) && Terminated(m, n) && m[n] != 0
    requires h <= g <= |m| && forall i :: h <= i < g ==> m[i] != m[n] && m[i] != 0
    requires Terminated(m, g) && FirstOccurrence(m, g, n, r)
    ensures FirstOccurrence(m, h, n, r)
  {
    var x := m[n..StrEnd(m, n)];
    SuffixEnd(m, h, g);
    forall q: nat | h <= q < g
      ensures !Matches(m, x, q)
    {
      if Matches(m, x, q) {
        MatchByte(m, x, q, 0);
        assert false;
      }
    }
  }

  // The haystack at h is shorter than the needle.
  lemma TooShort(m: seq<byte>, h: nat, n: nat)
    requires Terminated(m, h) && Terminated(m, n)
    requires StrEnd(m, h) - h < StrEnd(m, n) - n
    ensures FirstOccurrence(m, h, n, None)
  {
  }

  // The first occurrence of the string at n in the string at h, for all strings.
  method StrStr(m: seq<byte>, h: nat, n: nat) returns (r: Option<nat>)
    requires Mapped(m) && Terminated(m, h) && Terminated(m, n)
    ensures FirstOccurrence(m, h, n, r)
  {
    hide NoneBefore;
    if m[n] == 0 {
      EmptyNeedle(m, h, n);
      return Some(h);
    }
    ghost var end := StrEnd(m, n);
    var first := StrChr(m, h, m[n]);
    if first.None? {
      FirstByteAbsent(m, h, n);
      return None;
    }
    var g := first.value;
    SuffixEnd(m, h, g);
    if m[n + 1] == 0 {
      SingleByte(m, g, n);
      r := first;
    } else if m[g + 1] == 0 {
      TooShort(m, g, n);
      r := None;
    } else if m[n + 2] == 0 {
      r := TwoByte(m, g, n);
    } else if m[g + 2] == 0 {
      TooShort(m, g, n);
      r := None;
    } else if m[n + 3] == 0 {
      r := ThreeByte(m, g, n);
    } else if m[g + 3] == 0 {
      TooShort(m, g, n);
      r := None;
    } else if m[n + 4] == 0 {
      r := FourByte(m, g, n);
    } else {
      r := TwoWay(m, g, n);
    }
    SkipToFirst(m, h, n, g, r);
  }

  lemma EmptyNeedle(m: seq<byte>, h: nat, n: nat)
    requires Terminated(m, h) && Terminated(m, n) && m[n] == 0
    ensures FirstOccurrence(m, h, n, Some(h))
  {
  }

  lemma FirstByteAbsent(m: seq<byte>, h: nat, n: nat)
    requires Terminated(m, h) && Terminated(m, n) && m[n] != 0
    requires forall i :: h <= i <= StrEnd(m, h) ==> m[i] != m[n]
    ensures FirstOccurrence(m, h, n, None)
  {
    var x := m[n..StrEnd(m, n)];
    forall q: nat | h <= q < StrEnd(m, h) + 1 - |x|
      ensures !Matches(m, x, q)
    {
      if Matches(m, x, q) {
        MatchByte(m, x, q, 0);
        assert false;
      }
    }
  }

  lemma SingleByte(m: seq<byte>, g: nat, n: nat)
    requires Terminated(m, g) && Terminated(m, n) && m[n] != 0 && n + 1 < |m| && m[n + 1] == 0
    requires m[g] == m[n]
    ensures FirstOccurrence(m, g, n, Some(g))
  {
    assert StrEnd(m, n) == n + 1;
    assert m[g..g + 1] == m[n..n + 1];
  }
}
