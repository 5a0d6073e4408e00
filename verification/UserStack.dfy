/**
 * The initial stack of a user program: argc, the argv and envp tables, the auxiliary vector, the
 * platform name and the strings, as section 3.4.1 of the System V AMD64 psABI lays them out.
 * Memory is an array of bytes that starts at address low; words are stored least byte first.
 */
module UserStack {
  import opened Bytes
  import opened Powers

  const U64: int := 0x1_0000_0000_0000_0000
  const PAGE_SIZE: nat := 4096
  const ENOMEM: int := -12

  const AT_NULL: nat := 0
  const AT_PHDR: nat := 3
  const AT_PHENT: nat := 4
  const AT_PHNUM: nat := 5
  const AT_PAGESZ: nat := 6
  const AT_BASE: nat := 7
  const AT_FLAGS: nat := 8
  const AT_ENTRY: nat := 9
  const AT_NOTELF: nat := 10
  const AT_PLATFORM: nat := 15

  // "x86_64" with its NUL
  const PLATFORM: seq<byte> := [0x78, 0x38, 0x36, 0x5F, 0x36, 0x34, 0]

  // ---------------------------------------------------------------- words and strings in memory

  function Le(v: nat, k: nat): (r: seq<byte>)
    ensures |r| == k
  {
    if k == 0 then [] else [ByteOf(v % 256)] + Le(v / 256, k - 1)
  }

  function Word(v: nat): (r: seq<byte>)
    ensures |r| == 8
  {
    Le(v, 8)
  }

  function FromLe(s: seq<byte>): nat {
    if s == [] then 0 else s[0] as nat + 256 * FromLe(s[1..])
  }

  lemma {:induction false} LeRoundTrip(v: nat, k: nat)
    requires v < Pow256(k)
    ensures FromLe(Le(v, k)) == v
  {
    if k > 0 {
      LeRoundTrip(v / 256, k - 1);
      assert Le(v, k)[1..] == Le(v / 256, k - 1);
    }
  }

  // Byte i is worth 256^i.
  lemma {:induction false} LeByte(v: nat, k: nat, i: nat)
    requires i < k
    ensures Pow256(i) > 0 && Le(v, k)[i] as nat == v / Pow256(i) % 256
  {
    if i > 0 {
      LeByte(v / 256, k - 1, i - 1);
      Pow256Positive(i - 1);
      DivideTwice(v, Pow256(i - 1));
    }
  }

  lemma DivideTwice(v: nat, p: nat)
    requires p > 0
    ensures v / 256 / p == v / (256 * p)
  {
    var q := v / 256 / p;
    assert q * (256 * p) <= v < (q + 1) * (256 * p);
    QuotientIs(v, 256 * p, q);
  }

  lemma QuotientIs(v: nat, d: nat, q: nat)
    requires d > 0 && q * d <= v < (q + 1) * d
    ensures v / d == q
  {
    Ordered(v / d, q, d);
    Ordered(q, v / d, d);
  }

  // Multiples are in the order of their factors.
  lemma Ordered(a: nat, b: nat, d: nat)
    ensures a > b ==> a * d >= (b + 1) * d
  {}

  lemma WordRoundTrip(v: nat)
    requires v < U64
    ensures FromLe(Word(v)) == v
  {
    assert Pow256(8) == U64;
    LeRoundTrip(v, 8);
  }

  function Words(vs: seq<nat>): (r: seq<byte>)
    ensures |r| == 8 * |vs|
  {
    if vs == [] then [] else Words(vs[..|vs| - 1]) + Word(vs[|vs| - 1])
  }

  function Cstr(s: seq<byte>): seq<byte> {
    s + [0]
  }

  // The strings one after the other, each with its NUL.
  function Strings(ss: seq<seq<byte>>): seq<byte> {
    if ss == [] then [] else Strings(ss[..|ss| - 1]) + Cstr(ss[|ss| - 1])
  }

  // Where the i-th string starts when they are laid out from addr on.
  function StringAt(ss: seq<seq<byte>>, addr: nat, i: nat): nat
    requires i <= |ss|
  {
    addr + |Strings(ss[..i])|
  }

  function Starts(ss: seq<seq<byte>>, addr: nat, n: nat): (r: seq<nat>)
    requires n <= |ss|
    ensures |r| == n
  {
    seq(n, i requires 0 <= i < n => StringAt(ss, addr, i))
  }

  // ---------------------------------------------------------------- pieces side by side

  function Flat(ps: seq<seq<byte>>): seq<byte> {
    if ps == [] then [] else Flat(ps[..|ps| - 1]) + ps[|ps| - 1]
  }

  function Offset(ps: seq<seq<byte>>, i: nat): nat
    requires i <= |ps|
  {
    if i == 0 then 0 else Offset(ps, i - 1) + |ps[i - 1]|
  }

  lemma OffsetNext(ps: seq<seq<byte>>, i: nat)
    requires i < |ps|
    ensures Offset(ps, 0) == 0 && Offset(ps, i + 1) == Offset(ps, i) + |ps[i]|
  {}

  // Piece i is in memory m, in its place from s on.
  ghost predicate Placed(m: seq<byte>, s: nat, ps: seq<seq<byte>>, i: nat)
    requires i < |ps|
  {
    Reads(m, s + Offset(ps, i), ps[i])
  }

  lemma {:induction false} OffsetsRise(ps: seq<seq<byte>>, i: nat, j: nat)
    requires i <= j <= |ps|
    ensures Offset(ps, i) <= Offset(ps, j)
  {
    if i < j {
      OffsetsRise(ps, i, j - 1);
    }
  }

  // m and m' agree on [a, b).
  ghost predicate Same(m: seq<byte>, m': seq<byte>, a: nat, b: nat) {
    a <= b <= |m| == |m'| && m[a..b] == m'[a..b]
  }

  lemma SameWithin(m: seq<byte>, m': seq<byte>, u: nat, v: nat, a: nat, b: nat)
    requires Same(m, m', u, v) && u <= a <= b <= v
    ensures Same(m, m', a, b)
  {
    forall k | a <= k < b
      ensures m[k] == m'[k]
    {
      assert m[k] == m[u..v][k - u] && m'[k] == m'[u..v][k - u];
    }
  }

  // m and m' agree outside [p, q).
  ghost predicate Outside(m: seq<byte>, m': seq<byte>, p: nat, q: nat) {
    p <= q && Same(m, m', 0, p) && Same(m, m', q, |m|)
  }

  lemma OutsideWider(m0: seq<byte>, m: seq<byte>, m': seq<byte>, s: nat, e: nat, t: nat, q: nat)
    requires Outside(m0, m, s, e) && Same(m, m', 0, t) && Same(m, m', q, |m|) && s <= t && q <= e
    ensures Outside(m0, m', s, e)
  {
    assert |m| == |m'| == |m0| && e <= |m|;
    SameWithin(m, m', 0, t, 0, s);
    SameWithin(m, m', q, |m|, e, |m|);
  }

  lemma PlacedSame(m: seq<byte>, m': seq<byte>, s: nat, ps: seq<seq<byte>>, k: nat)
    requires k < |ps| && Placed(m, s, ps, k) && Same(m, m', s + Offset(ps, k), s + Offset(ps, k + 1))
    ensures Placed(m', s, ps, k)
  {
    hide Offset, Same, Reads;
    OffsetNext(ps, k);
    ReadsSame(m, m', s + Offset(ps, k), ps[k]);
  }

  // Writing the pieces from i up to j leaves the others in place.
  lemma KeepsPlaced(m: seq<byte>, m': seq<byte>, s: nat, ps: seq<seq<byte>>, i: nat, j: nat, k: nat)
    requires i <= j <= |ps| && k < |ps| && (k < i || j <= k) && Placed(m, s, ps, k)
    requires Outside(m, m', s + Offset(ps, i), s + Offset(ps, j))
    ensures Placed(m', s, ps, k)
  {
    hide Same, Placed, Offset;
    PlacedFits(m, s, ps, k);
    var a, b := s + Offset(ps, k), s + Offset(ps, k + 1);
    if k < i {
      OffsetsRise(ps, k + 1, i);
      SameWithin(m, m', 0, s + Offset(ps, i), a, b);
    } else {
      OffsetsRise(ps, j, k);
      SameWithin(m, m', s + Offset(ps, j), |m|, a, b);
    }
    PlacedSame(m, m', s, ps, k);
  }

  lemma PlacedFits(m: seq<byte>, s: nat, ps: seq<seq<byte>>, k: nat)
    requires k < |ps| && Placed(m, s, ps, k)
    ensures Offset(ps, k) <= Offset(ps, k + 1) && s + Offset(ps, k + 1) <= |m|
  {
    hide Offset;
    OffsetNext(ps, k);
  }

  // All pieces in place make the whole image.
  lemma {:induction false} AllPlaced(m: seq<byte>, s: nat, ps: seq<seq<byte>>, n: nat)
    requires n <= |ps| && (forall i: nat :: i < n ==> Placed(m, s, ps, i)) && s <= |m|
    ensures s + Offset(ps, n) <= |m| && m[s..s + Offset(ps, n)] == Flat(ps[..n])
  {
    if n > 0 {
      hide Offset;
      AllPlaced(m, s, ps, n - 1);
      OffsetNext(ps, n - 1);
      assert Placed(m, s, ps, n - 1);
      assert ps[..n][..n - 1] == ps[..n - 1];
      var a, b := s + Offset(ps, n - 1), s + Offset(ps, n);
      assert m[s..b] == m[s..a] + m[a..b];
    }
  }

  // memcpy to memory
  method Store(mem: array<byte>, at: nat, bytes: seq<byte>)
    requires at + |bytes| <= mem.Length
    modifies mem
    ensures Wrote(old(mem[..]), mem[..], at, bytes)
  {
    var i := 0;
    while i < |bytes|
      invariant 0 <= i <= |bytes|
      invariant mem[at..at + i] == bytes[..i] && mem[..at] == old(mem[..at])
      invariant mem[at + |bytes|..] == old(mem[at + |bytes|..])
    {
      mem[at + i] := bytes[i];
      i := i + 1;
    }
    assert mem[..][0..at] == mem[..at] && mem[..][at + |bytes|..mem.Length] == mem[at + |bytes|..];
  }

  // ---------------------------------------------------------------- the builder

  // At address a of a memory that starts at low lies s, and the first NUL ends it.
  ghost predicate PointsAt(m: seq<byte>, low: nat, a: int, s: seq<byte>) {
    low <= a && 0 !in s && Reads(m, a - low, Cstr(s))
  }

  // One address holds one string.
  lemma OneString(m: seq<byte>, low: nat, a: int, s: seq<byte>, t: seq<byte>)
    requires PointsAt(m, low, a, s) && PointsAt(m, low, a, t)
    ensures s == t
  {
    StringBytes(m, low, a, s);
    StringBytes(m, low, a, t);
  }

  lemma StringBytes(m: seq<byte>, low: nat, a: int, s: seq<byte>)
    requires PointsAt(m, low, a, s)
    ensures a - low + |s| < |m| && m[a - low + |s|] == 0
    ensures forall i :: 0 <= i < |s| ==> m[a - low + i] == s[i] && s[i] != 0
  {
    var p := a - low;
    forall i | 0 <= i <= |s|
      ensures m[p + i] == Cstr(s)[i]
    {
      assert m[p + i] == m[p..p + |s| + 1][i];
    }
  }

  // A NULL-terminated table of pointers into the caller's memory src, to the given strings.
  ghost predicate PointersTo(src: seq<byte>, base: nat, raw: seq<nat>, ss: seq<seq<byte>>) {
    && |raw| == |ss| + 1 && raw[|ss|] == 0
    && forall i :: 0 <= i < |ss| ==> raw[i] != 0 && PointsAt(src, base, raw[i], ss[i])
  }

  method CountPointers(raw: seq<nat>, ghost src: seq<byte>, ghost base: nat, ghost ss: seq<seq<byte>>) returns (n: nat)
    requires PointersTo(src, base, raw, ss)
    ensures n == |ss|
  {
    hide PointsAt;
    n := 0;
    while raw[n] != 0
      invariant n <= |ss|
      decreases |ss| - n
    {
      n := n + 1;
    }
  }

  method StrLen(src: seq<byte>, base: nat, a: nat, ghost s: seq<byte>) returns (n: nat)
    requires PointsAt(src, base, a, s)
    ensures n == |s| && base <= a && a - base + n < |src| && src[a - base..a - base + n + 1] == Cstr(s)
  {
    StringBytes(src, base, a, s);
    n := 0;
    while src[a - base + n] != 0
      invariant n <= |s|
      decreases |s| - n
    {
      n := n + 1;
    }
  }

  // The sum of strlen + 1
  method TotalLength(src: seq<byte>, base: nat, raw: seq<nat>, count: nat, ghost ss: seq<seq<byte>>) returns (total: nat)
    requires PointersTo(src, base, raw, ss) && count == |ss|
    ensures total == |Strings(ss)|
  {
    hide PointsAt;
    total := 0;
    var i := 0;
    while i < count
      invariant 0 <= i <= |ss| && total == |Strings(ss[..i])|
    {
      assert ss[..i + 1][..i] == ss[..i];
      var len := StrLen(src, base, raw[i], ss[i]);
      total := total + len + 1;
      i := i + 1;
    }
    assert ss[..i] == ss;
  }

  datatype Aux = Aux(kind: nat, value: nat)

  function AuxWords(auxv: seq<Aux>): (r: seq<byte>)
    ensures |r| == 16 * |auxv|
  {
    if auxv == [] then [] else
      AuxWords(auxv[..|auxv| - 1]) + EntryBytes(auxv[|auxv| - 1])
  }

  function EntryBytes(aux: Aux): (r: seq<byte>)
    ensures |r| == 16
  {
    Word(aux.kind) + Word(aux.value)
  }

  datatype Program = Program(entry: nat, phdr: nat, phnum: nat, phent: nat, notElf: nat, base: nat)

  // The auxiliary vector with the address of the platform name
  function AuxVector(p: Program, platform: nat): (r: seq<Aux>)
    ensures |r| == if p.phent != 0 then 10 else 9
    ensures r[|r| - 1] == Aux(AT_NULL, 0) && r[|r| - 3] == Aux(AT_PLATFORM, platform)
  {
    [Aux(AT_PHDR, p.phdr)] + (if p.phent != 0 then [Aux(AT_PHENT, p.phent)] else [])
    + [Aux(AT_PHNUM, p.phnum), Aux(AT_ENTRY, p.entry), Aux(AT_BASE, p.base), Aux(AT_PAGESZ, PAGE_SIZE), Aux(AT_FLAGS, 0),
       Aux(AT_PLATFORM, platform), Aux(AT_NOTELF, p.notElf), Aux(AT_NULL, 0)]
  }

  // The appended entries, with a placeholder for the platform name and its index
  method CollectAux(p: Program) returns (auxv: seq<Aux>, platformIndex: nat)
    ensures platformIndex < |auxv|
    ensures forall platform: nat :: auxv[platformIndex := Aux(AT_PLATFORM, platform)] == AuxVector(p, platform)
  {
    auxv := [Aux(AT_PHDR, p.phdr)];
    if p.phent != 0 {
      auxv := auxv + [Aux(AT_PHENT, p.phent)];
    }
    auxv := auxv + [Aux(AT_PHNUM, p.phnum)];
    auxv := auxv + [Aux(AT_ENTRY, p.entry)];
    auxv := auxv + [Aux(AT_BASE, p.base)];
    auxv := auxv + [Aux(AT_PAGESZ, PAGE_SIZE)];
    auxv := auxv + [Aux(AT_FLAGS, 0)];
    auxv := auxv + [Aux(AT_PLATFORM, 0)];
    platformIndex := |auxv| - 1;
    auxv := auxv + [Aux(AT_NOTELF, p.notElf)];
    auxv := auxv + [Aux(AT_NULL, 0)];
  }

  lemma StringsGrow(ss: seq<seq<byte>>, i: nat)
    requires i < |ss|
    ensures Strings(ss[..i + 1]) == Strings(ss[..i]) + Cstr(ss[i])
  {
    assert ss[..i + 1][..i] == ss[..i];
  }

  lemma {:induction false} StringsPrefix(ss: seq<seq<byte>>, i: nat, j: nat)
    requires i <= j <= |ss|
    ensures |Strings(ss[..i])| <= |Strings(ss[..j])| && Strings(ss[..i]) == Strings(ss[..j])[..|Strings(ss[..i])|]
  {
    if i < j {
      StringsPrefix(ss, i, j - 1);
      StringsGrow(ss, j - 1);
    }
  }

  lemma StartsGrow(ss: seq<seq<byte>>, addr: nat, i: nat)
    requires i < |ss|
    ensures Words(Starts(ss, addr, i + 1)) == Words(Starts(ss, addr, i)) + Word(StringAt(ss, addr, i))
  {
    hide Word;
    assert Starts(ss, addr, i + 1)[..i] == Starts(ss, addr, i);
  }

  // m' is m after writing bytes at p.
  ghost predicate Wrote(m: seq<byte>, m': seq<byte>, p: nat, bytes: seq<byte>) {
    Outside(m, m', p, p + |bytes|) && Reads(m', p, bytes)
  }

  // Outside the table of n slots at t and outside [p, q), m' is as m.
  ghost predicate ApartFrom(m: seq<byte>, m': seq<byte>, t: nat, u: nat, p: nat, q: nat) {
    t <= u <= p <= q && Same(m, m', 0, t) && Same(m, m', u, p) && Same(m, m', q, |m|)
  }

  // After i turns of a copying loop that started with memory m0.
  ghost predicate Copied(m0: seq<byte>, m: seq<byte>, low: nat, t: nat, ss: seq<seq<byte>>, p: nat, i: nat) {
    && i <= |ss| && ApartFrom(m0, m, t, t + 8 * |ss|, p, p + |Strings(ss)|)
    && Reads(m, t, Words(Starts(ss, low + p, i))) && Reads(m, p, Strings(ss[..i]))
  }

  // m holds the bytes at p.
  ghost predicate Reads(m: seq<byte>, p: nat, bytes: seq<byte>) {
    p + |bytes| <= |m| && m[p..p + |bytes|] == bytes
  }

  lemma ReadsSame(m: seq<byte>, m': seq<byte>, p: nat, bytes: seq<byte>)
    requires Reads(m, p, bytes) && Same(m, m', p, p + |bytes|)
    ensures Reads(m', p, bytes)
  {}

  lemma ReadsBoth(m: seq<byte>, p: nat, x: seq<byte>, y: seq<byte>)
    requires Reads(m, p, x) && Reads(m, p + |x|, y)
    ensures Reads(m, p, x + y)
  {
    assert m[p..p + |x| + |y|] == m[p..p + |x|] + m[p + |x|..p + |x| + |y|];
  }

  // A write inside [v, w) changes nothing outside a part that holds [v, w).
  lemma SameAround(m0: seq<byte>, m: seq<byte>, m': seq<byte>, a: nat, b: nat, v: nat, w: nat)
    requires Same(m0, m, a, b) && Outside(m, m', v, w) && (b <= v || w <= a)
    ensures Same(m0, m', a, b)
  {
    if b <= v {
      SameWithin(m, m', 0, v, a, b);
    } else {
      SameWithin(m, m', w, |m|, a, b);
    }
  }

  lemma ApartAround(m0: seq<byte>, m: seq<byte>, m': seq<byte>, t: nat, u: nat, p: nat, q: nat, v: nat, w: nat)
    requires ApartFrom(m0, m, t, u, p, q) && Outside(m, m', v, w) && (t <= v <= w <= u || p <= v <= w <= q)
    ensures ApartFrom(m0, m', t, u, p, q)
  {
    assert |m| == |m0|;
    hide Same;
    SameAround(m0, m, m', 0, t, v, w);
    SameAround(m0, m, m', u, p, v, w);
    SameAround(m0, m, m', q, |m|, v, w);
  }

  lemma ReadsAround(m: seq<byte>, m': seq<byte>, x: nat, bytes: seq<byte>, v: nat, w: nat)
    requires Reads(m, x, bytes) && Outside(m, m', v, w) && (x + |bytes| <= v || w <= x)
    ensures Reads(m', x, bytes)
  {
    SameAround(m, m, m', x, x + |bytes|, v, w);
    ReadsSame(m, m', x, bytes);
  }

  lemma CopiedSlot(m0: seq<byte>, m: seq<byte>, m1: seq<byte>, low: nat, t: nat, ss: seq<seq<byte>>, p: nat, i: nat)
    requires Copied(m0, m, low, t, ss, p, i) && i < |ss| && Wrote(m, m1, t + 8 * i, Word(StringAt(ss, low + p, i)))
    ensures Copied(m0, m1, low, t, ss, p, i)
    ensures Reads(m1, t, Words(Starts(ss, low + p, i + 1)))
  {
    hide Words, Word, Strings, Starts, Outside, ApartFrom, Reads, Same;
    StartsGrow(ss, low + p, i);
    var slot := t + 8 * i;
    ApartOrder(m0, m, t, t + 8 * |ss|, p, p + |Strings(ss)|);
    ApartAround(m0, m, m1, t, t + 8 * |ss|, p, p + |Strings(ss)|, slot, slot + 8);
    ReadsAround(m, m1, t, Words(Starts(ss, low + p, i)), slot, slot + 8);
    ReadsAround(m, m1, p, Strings(ss[..i]), slot, slot + 8);
    ReadsBoth(m1, t, Words(Starts(ss, low + p, i)), Word(StringAt(ss, low + p, i)));
  }

  lemma ApartOrder(m: seq<byte>, m': seq<byte>, t: nat, u: nat, p: nat, q: nat)
    requires ApartFrom(m, m', t, u, p, q)
    ensures t <= u <= p <= q <= |m| == |m'|
  {}

  lemma CopiedString(m0: seq<byte>, m: seq<byte>, m1: seq<byte>, low: nat, t: nat, ss: seq<seq<byte>>, p: nat, i: nat)
    requires Copied(m0, m, low, t, ss, p, i) && i < |ss| && Reads(m, t, Words(Starts(ss, low + p, i + 1)))
    requires Wrote(m, m1, p + |Strings(ss[..i])|, Cstr(ss[i]))
    ensures Copied(m0, m1, low, t, ss, p, i + 1)
  {
    hide Words, Word, Strings, Starts, Cstr, Outside, ApartFrom, Reads, Same;
    StringsGrow(ss, i);
    StringsBound(ss, i + 1);
    var end, end' := p + |Strings(ss[..i])|, p + |Strings(ss[..i + 1])|;
    var table, u, q := Words(Starts(ss, low + p, i + 1)), t + 8 * |ss|, p + |Strings(ss)|;
    ApartOrder(m0, m, t, u, p, q);
    ApartAround(m0, m, m1, t, u, p, q, end, end');
    ReadsAround(m, m1, t, table, end, end');
    ReadsAround(m, m1, p, Strings(ss[..i]), end, end');
    ReadsBoth(m1, p, Strings(ss[..i]), Cstr(ss[i]));
  }

  lemma StringsBound(ss: seq<seq<byte>>, i: nat)
    requires i <= |ss|
    ensures |Strings(ss[..i])| <= |Strings(ss)|
  {
    StringsPrefix(ss, i, |ss|);
    assert ss[..|ss|] == ss;
  }

  // One of the two copying loops: the i-th slot of the table at t gets the address of the i-th
  // string, and the strings go to memory from p on.
  method CopyStrings(mem: array<byte>, low: nat, t: nat, src: seq<byte>, base: nat, raw: seq<nat>, count: nat, p: nat,
                     ghost ss: seq<seq<byte>>) returns (end: nat)
    requires PointersTo(src, base, raw, ss) && count == |ss|
    requires t + 8 * |ss| <= p && p + |Strings(ss)| <= mem.Length
    modifies mem
    ensures end == p + |Strings(ss)| && Copied(old(mem[..]), mem[..], low, t, ss, p, |ss|)
  {
    hide Copied, Strings, Word, Words, Starts, PointersTo;
    end := p;
    var i := 0;
    CopiedStart(mem[..], low, t, ss, p);
    while i < count
      invariant 0 <= i <= |ss| && end == p + |Strings(ss[..i])|
      invariant Copied(old(mem[..]), mem[..], low, t, ss, p, i)
    {
      end := CopyOne(mem, low, t, src, base, raw, i, end, p, old(mem[..]), ss);
      i := i + 1;
    }
    assert ss[..i] == ss;
  }

  method CopyOne(mem: array<byte>, low: nat, t: nat, src: seq<byte>, base: nat, raw: seq<nat>, i: nat, at: nat,
                 ghost p: nat, ghost m0: seq<byte>, ghost ss: seq<seq<byte>>) returns (end: nat)
    requires PointersTo(src, base, raw, ss) && i < |ss| && at == p + |Strings(ss[..i])|
    requires t + 8 * |ss| <= p && p + |Strings(ss)| <= mem.Length && Copied(m0, mem[..], low, t, ss, p, i)
    modifies mem
    ensures end == p + |Strings(ss[..i + 1])| && Copied(m0, mem[..], low, t, ss, p, i + 1)
  {
    hide Copied, Strings, Word, Words, Starts, PointersTo, PointsAt, Wrote;
    StringsGrow(ss, i);
    StringsBound(ss, i + 1);
    TableEntry(src, base, raw, ss, i);
    var len := StrLen(src, base, raw[i], ss[i]);
    ghost var m := mem[..];
    Store(mem, t + 8 * i, Word(low + at));
    CopiedSlot(m0, m, mem[..], low, t, ss, p, i);
    m := mem[..];
    Store(mem, at, src[raw[i] - base..raw[i] - base + len + 1]);
    CopiedString(m0, m, mem[..], low, t, ss, p, i);
    end := at + len + 1;
  }

  lemma TableEntry(src: seq<byte>, base: nat, raw: seq<nat>, ss: seq<seq<byte>>, i: nat)
    requires PointersTo(src, base, raw, ss) && i < |ss|
    ensures |raw| == |ss| + 1 && PointsAt(src, base, raw[i], ss[i])
  {
    hide PointsAt;
  }

  lemma CopiedStart(m: seq<byte>, low: nat, t: nat, ss: seq<seq<byte>>, p: nat)
    requires t + 8 * |ss| <= p && p + |Strings(ss)| <= |m|
    ensures |Strings(ss[..0])| == 0 && Copied(m, m, low, t, ss, p, 0)
  {
    assert Strings(ss[..0]) == [];
  }

  // ---------------------------------------------------------------- the image on the stack

  // The sizes of the tables, and where the parts of the image start.
  function AuxCount(p: Program): nat {
    if p.phent != 0 then 10 else 9
  }

  function PlatformOffset(argc: nat, envc: nat, p: Program): nat {
    8 + 8 * (argc + 1) + 8 * (envc + 1) + 16 * AuxCount(p)
  }

  // What the stack pointer sp points at.
  function Layout(sp: nat, argv: seq<seq<byte>>, envp: seq<seq<byte>>, p: Program): (ps: seq<seq<byte>>)
    ensures |ps| == 9
  {
    var platform := sp + PlatformOffset(|argv|, |envp|, p);
    var args := platform + |PLATFORM|;
    var envs := args + |Strings(argv)|;
    [Word(|argv|),
     Words(Starts(argv, args, |argv|)), Word(0),
     Words(Starts(envp, envs, |envp|)), Word(0),
     AuxWords(AuxVector(p, platform)),
     PLATFORM, Strings(argv), Strings(envp)]
  }

  lemma LayoutOffsets(sp: nat, argv: seq<seq<byte>>, envp: seq<seq<byte>>, p: Program)
    ensures var ps := Layout(sp, argv, envp, p); var n := 8 + 8 * (|argv| + 1);
      && Offset(ps, 0) == 0 && Offset(ps, 1) == 8 && Offset(ps, 2) == n - 8 && Offset(ps, 3) == n
      && Offset(ps, 4) == n + 8 * |envp| && Offset(ps, 5) == n + 8 * (|envp| + 1)
      && Offset(ps, 6) == PlatformOffset(|argv|, |envp|, p) && Offset(ps, 7) == Offset(ps, 6) + |PLATFORM|
      && Offset(ps, 8) == Offset(ps, 7) + |Strings(argv)| && Offset(ps, 9) == Offset(ps, 8) + |Strings(envp)|
  {
    hide Words, Word, Strings, Starts, AuxWords, AuxVector;
    var ps := Layout(sp, argv, envp, p);
    assert Offset(ps, 2) == Offset(ps, 1) + |ps[1]|;
    assert Offset(ps, 4) == Offset(ps, 3) + |ps[3]|;
    assert Offset(ps, 6) == Offset(ps, 5) + |ps[5]|;
    assert Offset(ps, 8) == Offset(ps, 7) + |ps[7]|;
  }

  // Some pieces are in place, and nothing outside the image has changed since m0.
  ghost predicate Progress(m0: seq<byte>, m: seq<byte>, s: nat, ps: seq<seq<byte>>, done: set<nat>) {
    && Outside(m0, m, s, s + Offset(ps, |ps|))
    && forall k: nat :: k in done && k < |ps| ==> Placed(m, s, ps, k)
  }

  lemma OneMore(m0: seq<byte>, m: seq<byte>, s: nat, ps: seq<seq<byte>>, done: set<nat>, i: nat)
    requires Progress(m0, m, s, ps, done) && i < |ps| && Reads(m, s + Offset(ps, i), ps[i])
    ensures Progress(m0, m, s, ps, done + {i})
  {
    hide Outside, Offset, Reads;
  }

  // Writing the pieces from i up to j.
  lemma SpanWritten(m0: seq<byte>, m: seq<byte>, m': seq<byte>, s: nat, ps: seq<seq<byte>>, done: set<nat>, i: nat, j: nat)
    requires Progress(m0, m, s, ps, done) && i <= j <= |ps| && Outside(m, m', s + Offset(ps, i), s + Offset(ps, j))
    requires forall k: nat :: i <= k < j ==> k !in done
    ensures Progress(m0, m', s, ps, done)
  {
    hide Offset, Same, Placed;
    OffsetsRise(ps, 0, i);
    OffsetsRise(ps, j, |ps|);
    OutsideWider(m0, m, m', s, s + Offset(ps, |ps|), s + Offset(ps, i), s + Offset(ps, j));
    forall k: nat | k in done && k < |ps|
      ensures Placed(m', s, ps, k)
    {
      KeepsPlaced(m, m', s, ps, i, j, k);
    }
  }

  lemma PieceWritten(m0: seq<byte>, m: seq<byte>, m': seq<byte>, s: nat, ps: seq<seq<byte>>, done: set<nat>, i: nat)
    requires Progress(m0, m, s, ps, done) && i < |ps| && i !in done && Wrote(m, m', s + Offset(ps, i), ps[i])
    ensures Progress(m0, m', s, ps, done + {i})
  {
    hide Placed, Outside, Progress, Reads, Offset;
    OffsetNext(ps, i);
    SpanWritten(m0, m, m', s, ps, done, i, i + 1);
    OneMore(m0, m', s, ps, done, i);
  }

  // A raw pointer table brings the NULL that ends it.
  lemma TableWritten(m0: seq<byte>, m: seq<byte>, m': seq<byte>, s: nat, ps: seq<seq<byte>>, done: set<nat>, i: nat, raw: seq<nat>)
    requires Progress(m0, m, s, ps, done) && i + 1 < |ps| && i !in done && i + 1 !in done
    requires raw != [] && raw[|raw| - 1] == 0 && |ps[i]| == 8 * (|raw| - 1) && ps[i + 1] == Word(0)
    requires Wrote(m, m', s + Offset(ps, i), Words(raw))
    ensures Progress(m0, m', s, ps, done + {i + 1})
  {
    hide Placed, Outside, Progress, Offset, Reads, Word, Words;
    OffsetNext(ps, i);
    OffsetNext(ps, i + 1);
    TableEnds(m', s + Offset(ps, i), raw);
    SpanWritten(m0, m, m', s, ps, done, i, i + 2);
    OneMore(m0, m', s, ps, done, i + 1);
  }

  lemma TableEnds(m: seq<byte>, p: nat, raw: seq<nat>)
    requires raw != [] && raw[|raw| - 1] == 0 && Reads(m, p, Words(raw))
    ensures Reads(m, p + 8 * (|raw| - 1), Word(0))
  {
    hide Word;
    var n := 8 * (|raw| - 1);
    assert m[p + n..p + n + 8] == m[p..p + n + 8][n..];
  }

  lemma CopiedAll(m: seq<byte>, m': seq<byte>, low: nat, t: nat, ss: seq<seq<byte>>, p: nat)
    requires Copied(m, m', low, t, ss, p, |ss|)
    ensures ApartFrom(m, m', t, t + 8 * |ss|, p, p + |Strings(ss)|)
    ensures Reads(m', t, Words(Starts(ss, low + p, |ss|))) && Reads(m', p, Strings(ss))
  {
    hide Words, Strings, Starts, ApartFrom, Reads;
    assert ss[..|ss|] == ss;
  }

  // A copying loop fills a table and a string area.
  lemma StringsWritten(m0: seq<byte>, m: seq<byte>, m': seq<byte>, s: nat, ps: seq<seq<byte>>, done: set<nat>, i: nat, j: nat,
                       low: nat, ss: seq<seq<byte>>)
    requires Progress(m0, m, s, ps, done) && i < j < |ps| && i !in done && j !in done
    requires Copied(m, m', low, s + Offset(ps, i), ss, s + Offset(ps, j), |ss|)
    requires ps[i] == Words(Starts(ss, low + s + Offset(ps, j), |ss|)) && ps[j] == Strings(ss)
    ensures Progress(m0, m', s, ps, done + {i, j})
  {
    hide Placed, Outside, Progress, Reads, ApartFrom, Words, Strings, Starts, Offset, Copied;
    CopiedAll(m, m', low, s + Offset(ps, i), ss, s + Offset(ps, j));
    OffsetNext(ps, i);
    OffsetNext(ps, j);
    PairWritten(m0, m, m', s, ps, done, i, j);
    OneMore(m0, m', s, ps, done, i);
    OneMore(m0, m', s, ps, done + {i}, j);
    assert done + {i} + {j} == done + {i, j};
  }

  lemma PairWritten(m0: seq<byte>, m: seq<byte>, m': seq<byte>, s: nat, ps: seq<seq<byte>>, done: set<nat>, i: nat, j: nat)
    requires Progress(m0, m, s, ps, done) && i < j < |ps| && i !in done && j !in done
    requires ApartFrom(m, m', s + Offset(ps, i), s + Offset(ps, i + 1), s + Offset(ps, j), s + Offset(ps, j + 1))
    ensures Progress(m0, m', s, ps, done)
  {
    hide Offset, Same, Placed;
    OffsetNext(ps, 0);
    OffsetsRise(ps, 0, i);
    OffsetsRise(ps, j + 1, |ps|);
    OutsideWider(m0, m, m', s, s + Offset(ps, |ps|), s + Offset(ps, i), s + Offset(ps, j + 1));
    forall k: nat | k in done && k < |ps|
      ensures Placed(m', s, ps, k)
    {
      CopyKeeps(m, m', s, ps, i, j, k);
    }
  }

  lemma CopyKeeps(m: seq<byte>, m': seq<byte>, s: nat, ps: seq<seq<byte>>, i: nat, j: nat, k: nat)
    requires i < j < |ps| && k < |ps| && k != i && k != j && Placed(m, s, ps, k)
    requires ApartFrom(m, m', s + Offset(ps, i), s + Offset(ps, i + 1), s + Offset(ps, j), s + Offset(ps, j + 1))
    ensures Placed(m', s, ps, k)
  {
    hide Same, Placed, Offset;
    PlacedFits(m, s, ps, k);
    var a, b := s + Offset(ps, k), s + Offset(ps, k + 1);
    if k < i {
      OffsetsRise(ps, k + 1, i);
      SameWithin(m, m', 0, s + Offset(ps, i), a, b);
    } else if k < j {
      OffsetsRise(ps, i + 1, k);
      OffsetsRise(ps, k + 1, j);
      SameWithin(m, m', s + Offset(ps, i + 1), s + Offset(ps, j), a, b);
    } else {
      OffsetsRise(ps, j + 1, k);
      SameWithin(m, m', s + Offset(ps, j + 1), |m|, a, b);
    }
    PlacedSame(m, m', s, ps, k);
  }

  lemma Begun(m: seq<byte>, s: nat, ps: seq<seq<byte>>)
    requires s + Offset(ps, |ps|) <= |m|
    ensures Progress(m, m, s, ps, {})
  {}

  lemma OutsideFits(m: seq<byte>, m': seq<byte>, p: nat, q: nat)
    requires Outside(m, m', p, q)
    ensures p <= q <= |m| == |m'|
  {}

  lemma Finished(m0: seq<byte>, m: seq<byte>, s: nat, ps: seq<seq<byte>>, done: set<nat>)
    requires Progress(m0, m, s, ps, done) && forall k: nat :: k < |ps| ==> k in done
    ensures Reads(m, s, Flat(ps)) && Outside(m0, m, s, s + |Flat(ps)|) && |Flat(ps)| == Offset(ps, |ps|)
  {
    hide Placed, Offset, Outside;
    OutsideFits(m0, m, s, s + Offset(ps, |ps|));
    AllPlaced(m, s, ps, |ps|);
    assert ps[..|ps|] == ps;
  }

  // The bytes of the whole image
  function ImageSize(argv: seq<seq<byte>>, envp: seq<seq<byte>>, p: Program): nat {
    PlatformOffset(|argv|, |envp|, p) + |PLATFORM| + |Strings(argv)| + |Strings(envp)|
  }

  lemma ImageIs(sp: nat, argv: seq<seq<byte>>, envp: seq<seq<byte>>, p: Program)
    ensures |Flat(Layout(sp, argv, envp, p))| == ImageSize(argv, envp, p)
  {
    hide Layout, Offset, Strings;
    LayoutOffsets(sp, argv, envp, p);
    FlatLength(Layout(sp, argv, envp, p), 9);
    var ps := Layout(sp, argv, envp, p);
    assert ps[..9] == ps;
  }

  lemma {:induction false} FlatLength(ps: seq<seq<byte>>, n: nat)
    requires n <= |ps|
    ensures |Flat(ps[..n])| == Offset(ps, n)
  {
    if n > 0 {
      FlatLength(ps, n - 1);
      assert ps[..n][..n - 1] == ps[..n - 1];
    }
  }

  // Where the image goes: as high as possible on a multiple of 16.
  function StackPointer(stackTop: int, size: nat): (sp: int)
    ensures sp % 16 == 0 && sp + size <= stackTop < sp + size + 16
  {
    (stackTop - size) - (stackTop - size) % 16
  }

  // OutOfRoom: some write of the image leaves the memory; what happens then is not modelled.
  datatype Outcome = Built(sp: nat) | Failed(errno: int) | OutOfRoom

  // exec_setup_user_stack; heapOk tells whether the scratch vector can be allocated
  method Build(mem: array<byte>, low: nat, stackTop: nat, src: seq<byte>, base: nat, rawArgv: seq<nat>, rawEnvp: seq<nat>,
               p: Program, heapOk: bool, ghost argv: seq<seq<byte>>, ghost envp: seq<seq<byte>>) returns (r: Outcome)
    requires PointersTo(src, base, rawArgv, argv) && PointersTo(src, base, rawEnvp, envp) && stackTop < U64
    modifies mem
    ensures NulFree(argv) && NulFree(envp)
    ensures r.Failed? <==> !heapOk
    ensures r.Failed? ==> r.errno == ENOMEM && mem[..] == old(mem[..])
    ensures var size := ImageSize(argv, envp, p); var sp := StackPointer(stackTop, size);
      r.OutOfRoom? <==> heapOk && !(low <= sp && sp + size <= low + mem.Length)
    ensures r.Built? ==> |Flat(Layout(r.sp, argv, envp, p))| == ImageSize(argv, envp, p)
    ensures r.Built? ==> r.sp % 16 == 0 && r.sp + ImageSize(argv, envp, p) <= stackTop < r.sp + ImageSize(argv, envp, p) + 16
    ensures r.Built? ==> low <= r.sp && Reads(mem[..], r.sp - low, Flat(Layout(r.sp, argv, envp, p)))
    ensures r.Built? ==> Outside(old(mem[..]), mem[..], r.sp - low, r.sp - low + ImageSize(argv, envp, p))
  {
    hide Strings, Words, Word, Starts, AuxWords, AuxVector, Flat, Offset, Progress, Outside, Reads, Layout, PointersTo, NulFree;
    PointersNulFree(src, base, rawArgv, argv);
    PointersNulFree(src, base, rawEnvp, envp);
    var argc := CountPointers(rawArgv, src, base, argv);
    var envc := CountPointers(rawEnvp, src, base, envp);
    var args := TotalLength(src, base, rawArgv, argc, argv);
    var envs := TotalLength(src, base, rawEnvp, envc, envp);
    var strTotal := args + envs + |PLATFORM|;
    if !heapOk {
      return Failed(ENOMEM);
    }
    var auxv, platformIndex := CollectAux(p);
    assert auxv[platformIndex := Aux(AT_PLATFORM, 0)] == AuxVector(p, 0);
    var total := 16 * |auxv| + 8 * (envc + 1) + 8 * (argc + 1) + 8 + strTotal;
    var sp := StackPointer(stackTop, total);
    if sp < low || sp + total > low + mem.Length {
      return OutOfRoom;
    }
    ImageIs(sp, argv, envp, p);
    Fill(mem, low, sp, src, base, rawArgv, argc, rawEnvp, envc, p, auxv, platformIndex, argv, envp);
    return Built(sp);
  }

  // The writes, in the order of the source
  method Fill(mem: array<byte>, low: nat, sp: nat, src: seq<byte>, base: nat, rawArgv: seq<nat>, argc: nat, rawEnvp: seq<nat>,
              envc: nat, p: Program, auxv: seq<Aux>, platformIndex: nat, ghost argv: seq<seq<byte>>, ghost envp: seq<seq<byte>>)
    requires PointersTo(src, base, rawArgv, argv) && PointersTo(src, base, rawEnvp, envp) && argc == |argv| && envc == |envp|
    requires low <= sp && sp - low + ImageSize(argv, envp, p) <= mem.Length
    requires platformIndex < |auxv|
    requires forall platform: nat :: auxv[platformIndex := Aux(AT_PLATFORM, platform)] == AuxVector(p, platform)
    modifies mem
    ensures Reads(mem[..], sp - low, Flat(Layout(sp, argv, envp, p)))
    ensures Outside(old(mem[..]), mem[..], sp - low, sp - low + ImageSize(argv, envp, p))
  {
    hide Strings, Words, Word, Starts, AuxWords, AuxVector, Flat, Offset, Progress, Outside, Reads, Copied, Same, PointersTo;
    ghost var ps := Layout(sp, argv, envp, p);
    LayoutOffsets(sp, argv, envp, p);
    var s := sp - low;
    var argvAt := s + 8;
    var envpAt := argvAt + 8 * (argc + 1);
    var auxAt := envpAt + 8 * (envc + 1);
    var strAt := auxAt + 16 * |auxv|;
    ghost var m0 := mem[..];
    TableShape(src, base, rawArgv, argv);
    TableShape(src, base, rawEnvp, envp);
    FillTables(mem, low, sp, rawArgv, rawEnvp, p, auxv[platformIndex := Aux(AT_PLATFORM, low + strAt)], argv, envp);
    ghost var done: set<nat> := TablesDone();
    ghost var m := mem[..];
    var strPos := CopyStrings(mem, low, argvAt, src, base, rawArgv, argc, strAt + |PLATFORM|, argv);
    StringsWritten(m0, m, mem[..], s, ps, done, 1, 7, low, argv);
    m := mem[..];
    strPos := CopyStrings(mem, low, envpAt, src, base, rawEnvp, envc, strPos, envp);
    StringsWritten(m0, m, mem[..], s, ps, done + {1, 7}, 3, 8, low, envp);
    m := mem[..];
    Store(mem, s, Word(argc));
    PieceWritten(m0, m, mem[..], s, ps, done + {1, 7} + {3, 8}, 0);
    Finished(m0, mem[..], s, ps, done + {1, 7} + {3, 8} + {0});
  }

  ghost function TablesDone(): set<nat> {
    {} + {5} + {6} + {2} + {4}
  }

  method FillTables(mem: array<byte>, low: nat, sp: nat, rawArgv: seq<nat>, rawEnvp: seq<nat>, p: Program, auxv: seq<Aux>,
                    ghost argv: seq<seq<byte>>, ghost envp: seq<seq<byte>>)
    requires |rawArgv| == |argv| + 1 && rawArgv[|argv|] == 0 && |rawEnvp| == |envp| + 1 && rawEnvp[|envp|] == 0
    requires low <= sp && sp - low + ImageSize(argv, envp, p) <= mem.Length
    requires auxv == AuxVector(p, sp + PlatformOffset(|argv|, |envp|, p))
    modifies mem
    ensures Progress(old(mem[..]), mem[..], sp - low, Layout(sp, argv, envp, p), TablesDone())
  {
    hide Strings, Words, Word, Starts, AuxWords, AuxVector, Flat, Offset, Progress, Wrote, Copied;
    ghost var ps := Layout(sp, argv, envp, p);
    LayoutOffsets(sp, argv, envp, p);
    var s := sp - low;
    var argvAt := s + 8;
    var envpAt := argvAt + 8 * |rawArgv|;
    var auxAt := envpAt + 8 * |rawEnvp|;
    var strAt := auxAt + 16 * |auxv|;
    ghost var m0 := mem[..];
    Begun(m0, s, ps);
    Store(mem, auxAt, AuxWords(auxv));
    PieceWritten(m0, m0, mem[..], s, ps, {}, 5);
    ghost var m := mem[..];
    Store(mem, strAt, PLATFORM);
    PieceWritten(m0, m, mem[..], s, ps, {} + {5}, 6);
    m := mem[..];
    Store(mem, argvAt, Words(rawArgv));
    TableWritten(m0, m, mem[..], s, ps, {} + {5} + {6}, 1, rawArgv);
    m := mem[..];
    Store(mem, envpAt, Words(rawEnvp));
    TableWritten(m0, m, mem[..], s, ps, {} + {5} + {6} + {2}, 3, rawEnvp);
  }

  lemma TableShape(src: seq<byte>, base: nat, raw: seq<nat>, ss: seq<seq<byte>>)
    requires PointersTo(src, base, raw, ss)
    ensures |raw| == |ss| + 1 && raw[|ss|] == 0
  {}

  // ---------------------------------------------------------------- what the program finds

  lemma ReadsSplit(m: seq<byte>, p: nat, x: seq<byte>, y: seq<byte>, n: nat)
    requires Reads(m, p, x + y) && n == |x|
    ensures Reads(m, p, x) && Reads(m, p + n, y)
  {
    assert m[p..p + n] == m[p..p + n + |y|][..n];
    assert m[p + n..p + n + |y|] == m[p..p + n + |y|][n..];
  }

  lemma {:induction false} PiecePlaced(m: seq<byte>, s: nat, ps: seq<seq<byte>>, n: nat, i: nat)
    requires i < n <= |ps| && Reads(m, s, Flat(ps[..n]))
    ensures Placed(m, s, ps, i) && |Flat(ps[..n])| == Offset(ps, n)
    decreases n
  {
    hide Reads;
    var front := ps[..n - 1];
    assert ps[..n][..n - 1] == front;
    ReadsSplit(m, s, Flat(front), ps[n - 1], |Flat(front)|);
    if n == 1 {
      assert front == [];
    } else {
      PiecePlaced(m, s, ps, n - 1, if i < n - 1 then i else 0);
    }
  }

  lemma {:induction false} SlotRead(m: seq<byte>, t: nat, vs: seq<nat>, i: nat, v: nat, slot: nat)
    requires i < |vs| && Reads(m, t, Words(vs)) && v == vs[i] && slot == t + 8 * i
    ensures Reads(m, slot, Word(v))
    decreases |vs|
  {
    hide Reads, Word;
    var n := |vs| - 1;
    ReadsSplit(m, t, Words(vs[..n]), Word(vs[n]), 8 * n);
    if i < n {
      SlotRead(m, t, vs[..n], i, v, slot);
    }
  }

  lemma {:induction false} StringRead(m: seq<byte>, p: nat, ss: seq<seq<byte>>, i: nat)
    requires i < |ss| && Reads(m, p, Strings(ss))
    ensures Reads(m, p + |Strings(ss[..i])|, Cstr(ss[i]))
  {
    hide Reads, Cstr;
    var front := ss[..|ss| - 1];
    ReadsSplit(m, p, Strings(front), Cstr(ss[|ss| - 1]), |Strings(front)|);
    if i < |ss| - 1 {
      StringRead(m, p, front, i);
      assert front[..i] == ss[..i];
    }
  }

  // The word that memory m holds at p.
  function WordAt(m: seq<byte>, p: nat): int
    requires p + 8 <= |m|
  {
    FromLe(m[p..p + 8])
  }

  lemma WordRead(m: seq<byte>, p: nat, v: nat)
    requires Reads(m, p, Word(v)) && v < U64
    ensures p + 8 <= |m| && WordAt(m, p) == v
  {
    WordRoundTrip(v);
  }

  // The word at slot is the address of a copy of s.
  ghost predicate Refers(m: seq<byte>, low: nat, slot: nat, s: seq<byte>) {
    slot + 8 <= |m| && PointsAt(m, low, WordAt(m, slot), s)
  }

  ghost predicate NulFree(ss: seq<seq<byte>>) {
    forall i :: 0 <= i < |ss| ==> 0 !in ss[i]
  }

  // The strings of a pointer table end at their first NUL.
  lemma PointersNulFree(src: seq<byte>, base: nat, raw: seq<nat>, ss: seq<seq<byte>>)
    requires PointersTo(src, base, raw, ss)
    ensures NulFree(ss)
  {
    hide Reads;
    assert forall i :: 0 <= i < |ss| ==> PointsAt(src, base, raw[i], ss[i]);
  }

  // A table at t of pointers to copies of the strings, with a NULL at its end.
  ghost predicate TableOf(m: seq<byte>, low: nat, t: nat, ss: seq<seq<byte>>) {
    && (forall i :: 0 <= i < |ss| ==> Refers(m, low, t + 8 * i, ss[i]))
    && t + 8 * |ss| + 8 <= |m| && WordAt(m, t + 8 * |ss|) == 0
  }

  lemma TableRead(m: seq<byte>, low: nat, t: nat, vs: seq<nat>, ss: seq<seq<byte>>, p: nat, end: nat)
    requires vs == Starts(ss, low + p, |ss|) && Reads(m, t, Words(vs)) && Reads(m, p, Strings(ss)) && low + |m| <= U64
    requires NulFree(ss) && end == t + 8 * |ss| && Reads(m, end, Word(0))
    ensures TableOf(m, low, t, ss)
  {
    hide Words, Word, Strings, Reads, WordAt, Refers;
    WordRead(m, end, 0);
    forall i | 0 <= i < |ss|
      ensures Refers(m, low, t + 8 * i, ss[i])
    {
      EntryRead(m, low, t, vs, ss, p, i, t + 8 * i);
    }
  }

  lemma EntryRead(m: seq<byte>, low: nat, t: nat, vs: seq<nat>, ss: seq<seq<byte>>, p: nat, i: nat, slot: nat)
    requires Reads(m, t, Words(vs)) && Reads(m, p, Strings(ss)) && i < |ss| == |vs| && low + |m| <= U64
    requires 0 !in ss[i] && slot == t + 8 * i && vs[i] == StringAt(ss, low + p, i)
    ensures Refers(m, low, slot, ss[i])
  {
    hide Words, Word, Strings, Reads, WordAt, PointsAt, StringAt;
    StringAddress(m, low, p, ss, i);
    SlotRead(m, t, vs, i, vs[i], slot);
    WordRead(m, slot, vs[i]);
  }

  lemma StringAddress(m: seq<byte>, low: nat, p: nat, ss: seq<seq<byte>>, i: nat)
    requires i < |ss| && 0 !in ss[i] && Reads(m, p, Strings(ss)) && low + |m| <= U64
    ensures StringAt(ss, low + p, i) < U64 && PointsAt(m, low, StringAt(ss, low + p, i), ss[i])
  {
    hide Strings, Reads, Cstr;
    StringRead(m, p, ss, i);
    CstrLength(ss[i]);
    ReadsFits(m, p + |Strings(ss[..i])|, Cstr(ss[i]));
  }

  lemma ReadsFits(m: seq<byte>, p: nat, bytes: seq<byte>)
    requires Reads(m, p, bytes)
    ensures p + |bytes| <= |m|
  {}

  lemma CstrLength(s: seq<byte>)
    ensures |Cstr(s)| == |s| + 1
  {}

  // The whole image, as the program sees it from its stack pointer.
  lemma ProgramFinds(m: seq<byte>, low: nat, sp: nat, argv: seq<seq<byte>>, envp: seq<seq<byte>>, p: Program)
    requires NulFree(argv) && NulFree(envp)
    requires low <= sp && low + |m| <= U64 && Reads(m, sp - low, Flat(Layout(sp, argv, envp, p)))
    ensures var s := sp - low; var envs := s + 8 + 8 * (|argv| + 1); var aux := envs + 8 * (|envp| + 1);
      && s + 8 <= |m| && WordAt(m, s) == |argv|
      && TableOf(m, low, s + 8, argv) && TableOf(m, low, envs, envp)
      && Reads(m, aux, AuxWords(AuxVector(p, sp + PlatformOffset(|argv|, |envp|, p))))
      && Reads(m, s + PlatformOffset(|argv|, |envp|, p), PLATFORM)
  {
    hide Words, Word, Strings, Reads, Cstr, Starts, AuxWords, AuxVector, Flat, Offset, TableOf;
    var s, ps := sp - low, Layout(sp, argv, envp, p);
    LayoutOffsets(sp, argv, envp, p);
    assert ps[..9] == ps;
    forall i: nat | i < 9
      ensures Placed(m, s, ps, i)
    {
      PiecePlaced(m, s, ps, 9, i);
    }
    assert Placed(m, s, ps, 0) && Placed(m, s, ps, 1) && Placed(m, s, ps, 2) && Placed(m, s, ps, 3) && Placed(m, s, ps, 4);
    assert Placed(m, s, ps, 5) && Placed(m, s, ps, 6) && Placed(m, s, ps, 7) && Placed(m, s, ps, 8);
    ReadsFits(m, s + Offset(ps, 1), Words(Starts(argv, sp + Offset(ps, 7), |argv|)));
    WordRead(m, s, |argv|);
    TableRead(m, low, s + 8, Starts(argv, sp + Offset(ps, 7), |argv|), argv, s + Offset(ps, 7), s + Offset(ps, 2));
    TableRead(m, low, s + Offset(ps, 3), Starts(envp, sp + Offset(ps, 8), |envp|), envp, s + Offset(ps, 8), s + Offset(ps, 4));
  }

  // The auxiliary vector ends with AT_NULL, and its AT_PLATFORM entry is the address of the name.
  lemma {:induction false} AuxFinds(m: seq<byte>, at: nat, auxv: seq<Aux>, i: nat)
    requires i < |auxv| && Reads(m, at, AuxWords(auxv)) && auxv[i].kind < U64 && auxv[i].value < U64
    ensures at + 16 * i + 16 <= |m| && WordAt(m, at + 16 * i) == auxv[i].kind && WordAt(m, at + 16 * i + 8) == auxv[i].value
    decreases |auxv|
  {
    hide Reads, WordAt, AuxWords, EntryBytes;
    var n := |auxv| - 1;
    LastAux(m, at, auxv, n);
    if i < n {
      AuxFinds(m, at, auxv[..n], i);
    } else {
      EntryFinds(m, at + 16 * n, auxv[n]);
    }
  }

  lemma LastAux(m: seq<byte>, at: nat, auxv: seq<Aux>, n: nat)
    requires |auxv| == n + 1 && Reads(m, at, AuxWords(auxv))
    ensures Reads(m, at, AuxWords(auxv[..n])) && Reads(m, at + 16 * n, EntryBytes(auxv[n]))
  {
    hide Reads, EntryBytes;
    ReadsSplit(m, at, AuxWords(auxv[..n]), EntryBytes(auxv[n]), 16 * n);
  }

  lemma EntryFinds(m: seq<byte>, at: nat, aux: Aux)
    requires Reads(m, at, EntryBytes(aux)) && aux.kind < U64 && aux.value < U64
    ensures at + 16 <= |m| && WordAt(m, at) == aux.kind && WordAt(m, at + 8) == aux.value
  {
    hide Reads, Word, WordAt;
    ReadsSplit(m, at, Word(aux.kind), Word(aux.value), 8);
    WordRead(m, at, aux.kind);
    WordRead(m, at + 8, aux.value);
  }

  // ---------------------------------------------------------------- what a search of the vector finds

  datatype Found = Value(value: int) | NoEntry

  // The first entry of a kind in the vector at at; the entry of kind 0 ends it.
  function Search(m: seq<byte>, at: nat, kind: int): Found
    decreases |m| - at
  {
    if at + 16 > |m| then NoEntry
    else if WordAt(m, at) == kind then Value(WordAt(m, at + 8))
    else if WordAt(m, at) == 0 then NoEntry
    else Search(m, at + 16, kind)
  }

  // Entry i of the vector at at.
  ghost predicate Entry(m: seq<byte>, at: nat, i: nat, kind: int, value: int) {
    at + 16 * i + 16 <= |m| && WordAt(m, at + 16 * i) == kind && WordAt(m, at + 16 * i + 8) == value
  }

  // The vector as memory holds it.
  ghost predicate Holds(m: seq<byte>, at: nat, auxv: seq<Aux>) {
    forall i :: 0 <= i < |auxv| ==> Entry(m, at, i, auxv[i].kind, auxv[i].value)
  }

  lemma {:induction false} SearchHits(m: seq<byte>, at: nat, auxv: seq<Aux>, i: nat)
    requires Holds(m, at, auxv) && i < |auxv|
    requires forall j :: 0 <= j < i ==> auxv[j].kind != auxv[i].kind && auxv[j].kind != 0
    ensures Search(m, at, auxv[i].kind) == Value(auxv[i].value)
    decreases i
  {
    hide WordAt;
    assert Entry(m, at, 0, auxv[0].kind, auxv[0].value);
    if i > 0 {
      HoldsRest(m, at, auxv);
      SearchHits(m, at + 16, auxv[1..], i - 1);
    }
  }

  lemma {:induction false} SearchMisses(m: seq<byte>, at: nat, auxv: seq<Aux>, n: nat, kind: int)
    requires Holds(m, at, auxv) && n < |auxv| && auxv[n].kind == 0
    requires forall j :: 0 <= j <= n ==> auxv[j].kind != kind
    ensures Search(m, at, kind) == NoEntry
    decreases n
  {
    hide WordAt;
    assert Entry(m, at, 0, auxv[0].kind, auxv[0].value);
    if n > 0 && auxv[0].kind != 0 {
      HoldsRest(m, at, auxv);
      SearchMisses(m, at + 16, auxv[1..], n - 1, kind);
    }
  }

  lemma HoldsRest(m: seq<byte>, at: nat, auxv: seq<Aux>)
    requires Holds(m, at, auxv) && auxv != []
    ensures Holds(m, at + 16, auxv[1..])
  {
    hide WordAt;
    forall i | 0 <= i < |auxv| - 1
      ensures Entry(m, at + 16, i, auxv[1..][i].kind, auxv[1..][i].value)
    {
      assert Entry(m, at, i + 1, auxv[i + 1].kind, auxv[i + 1].value);
    }
  }

  // The values are 64-bit words.
  predicate WordSized(p: Program) {
    p.entry < U64 && p.phdr < U64 && p.phnum < U64 && p.phent < U64 && p.notElf < U64 && p.base < U64
  }

  lemma VectorHeld(m: seq<byte>, at: nat, p: Program, platform: nat)
    requires WordSized(p) && platform < U64 && Reads(m, at, AuxWords(AuxVector(p, platform)))
    ensures Holds(m, at, AuxVector(p, platform))
  {
    hide Reads, AuxWords, WordAt;
    var auxv := AuxVector(p, platform);
    forall i | 0 <= i < |auxv|
      ensures Entry(m, at, i, auxv[i].kind, auxv[i].value)
    {
      AuxFinds(m, at, auxv, i);
    }
  }

  // The value that the program is meant to find for each kind.
  function Meant(p: Program, platform: int, kind: int): Found {
    match kind
    case 0 => Value(0)
    case 3 => Value(p.phdr)
    case 4 => if p.phent != 0 then Value(p.phent) else NoEntry
    case 5 => Value(p.phnum)
    case 6 => Value(4096)
    case 7 => Value(p.base)
    case 8 => Value(0)
    case 9 => Value(p.entry)
    case 10 => Value(p.notElf)
    case 15 => Value(platform)
    case _ => NoEntry
  }

  lemma VectorSearch(m: seq<byte>, at: nat, p: Program, platform: nat, kind: int)
    requires Holds(m, at, AuxVector(p, platform))
    ensures Search(m, at, kind) == Meant(p, platform, kind)
  {
    hide Holds, Search;
    var auxv := AuxVector(p, platform);
    if i :| 0 <= i < |auxv| && auxv[i].kind == kind {
      SearchHits(m, at, auxv, i);
    } else {
      var d := if p.phent != 0 then 1 else 0;
      assert auxv[0].kind == 3 && auxv[d].kind == 3 + d && auxv[d + 1].kind == 5 && auxv[d + 2].kind == 9;
      assert auxv[d + 3].kind == 7 && auxv[d + 4].kind == 6 && auxv[d + 5].kind == 8 && auxv[d + 6].kind == 15;
      assert auxv[d + 7].kind == 10 && auxv[d + 8].kind == 0;
      SearchMisses(m, at, auxv, |auxv| - 1, kind);
    }
  }

  // Whatever kind the program searches the vector on its stack for, it finds what the kernel knows,
  // and the platform name under kind 15.
  lemma AuxSearch(m: seq<byte>, low: nat, sp: nat, argv: seq<seq<byte>>, envp: seq<seq<byte>>, p: Program, kind: int)
    requires low <= sp && low + |m| <= U64 && Reads(m, sp - low, Flat(Layout(sp, argv, envp, p)))
    requires NulFree(argv) && NulFree(envp) && WordSized(p)
    ensures var aux := 8 + 8 * (|argv| + 1) + 8 * (|envp| + 1);
      var platform := sp + aux + 16 * (if p.phent != 0 then 10 else 9);
      && Search(m, sp - low + aux, kind) == Meant(p, platform, kind)
      && PointsAt(m, low, platform, [0x78, 0x38, 0x36, 0x5F, 0x36, 0x34])
  {
    hide Words, Word, Strings, Reads, AuxWords, AuxVector, Flat, Layout, TableOf, NulFree, Meant;
    ProgramFinds(m, low, sp, argv, envp, p);
    var aux := 8 + 8 * (|argv| + 1) + 8 * (|envp| + 1);
    var platform := sp + PlatformOffset(|argv|, |envp|, p);
    ReadsFits(m, platform - low, PLATFORM);
    VectorHeld(m, sp - low + aux, p, platform);
    VectorSearch(m, sp - low + aux, p, platform, kind);
    assert Cstr([0x78, 0x38, 0x36, 0x5F, 0x36, 0x34]) == PLATFORM;
  }

  // No kind is entered twice, and the last entry is that of kind 0.
  lemma AuxOnce(m: seq<byte>, low: nat, sp: nat, argv: seq<seq<byte>>, envp: seq<seq<byte>>, p: Program, i: nat, j: nat)
    requires low <= sp && low + |m| <= U64 && Reads(m, sp - low, Flat(Layout(sp, argv, envp, p)))
    requires NulFree(argv) && NulFree(envp) && WordSized(p)
    requires i < j < if p.phent != 0 then 10 else 9
    ensures var at := sp - low + 8 + 8 * (|argv| + 1) + 8 * (|envp| + 1);
      && at + 16 * j + 16 <= |m| && WordAt(m, at + 16 * i) != WordAt(m, at + 16 * j)
      && (WordAt(m, at + 16 * j) == 0 <==> j == if p.phent != 0 then 9 else 8)
  {
    hide Words, Word, Strings, Reads, AuxWords, Flat, Layout, TableOf, NulFree, WordAt;
    ProgramFinds(m, low, sp, argv, envp, p);
    var at := sp - low + 8 + 8 * (|argv| + 1) + 8 * (|envp| + 1);
    var platform := sp + PlatformOffset(|argv|, |envp|, p);
    ReadsFits(m, platform - low, PLATFORM);
    VectorHeld(m, at, p, platform);
    var auxv := AuxVector(p, platform);
    assert Entry(m, at, i, auxv[i].kind, auxv[i].value) && Entry(m, at, j, auxv[j].kind, auxv[j].value);
  }
}
