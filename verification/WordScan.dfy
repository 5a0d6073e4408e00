// memchr, strlen, strchrnul and strchr: word-at-a-time loops against plain byte scans.
module WordScan {
  import opened Bytes

  const ONES: bv64 := 0x0101_0101_0101_0101
  const HIGHS: bv64 := 0x8080_8080_8080_8080

  datatype Option<+T> = None | Some(value: T)

  // The aligned machine word at address a (little endian).
  function Word(m: seq<byte>, a: nat): bv64
    requires a + 8 <= |m|
  {
    Pack(m[a], m[a + 1], m[a + 2], m[a + 3], m[a + 4], m[a + 5], m[a + 6], m[a + 7])
  }

  function Pack(b0: byte, b1: byte, b2: byte, b3: byte, b4: byte, b5: byte, b6: byte, b7: byte): bv64 {
    Join32(Join16(Join8(b0, b1), Join8(b2, b3)), Join16(Join8(b4, b5), Join8(b6, b7)))
  }

  function Join8(lo: byte, hi: byte): bv16 {
    (lo as bv16) | ((hi as bv16) << 8)
  }

  function Join16(lo: bv16, hi: bv16): bv32 {
    (lo as bv32) | ((hi as bv32) << 16)
  }

  function Join32(lo: bv32, hi: bv32): bv64 {
    (lo as bv64) | ((hi as bv64) << 32)
  }

  predicate HasZero(w: bv64) {
    (w - ONES) & !w & HIGHS != 0
  }

  lemma PackHasZero(b0: byte, b1: byte, b2: byte, b3: byte, b4: byte, b5: byte, b6: byte, b7: byte)
    ensures HasZero(Pack(b0, b1, b2, b3, b4, b5, b6, b7))
       <==> b0 == 0 || b1 == 0 || b2 == 0 || b3 == 0 || b4 == 0 || b5 == 0 || b6 == 0 || b7 == 0
  {
  }

  lemma Splat(c: byte)
    ensures ONES * (c as bv64) == Pack(c, c, c, c, c, c, c, c)
  {
  }

  function Xor8(a: byte, b: byte): byte { a ^ b }
  function Xor16(a: bv16, b: bv16): bv16 { a ^ b }
  function Xor32(a: bv32, b: bv32): bv32 { a ^ b }
  function Xor64(a: bv64, b: bv64): bv64 { a ^ b }

  lemma Join8Xor(a: byte, b: byte, c: byte, d: byte)
    ensures Xor16(Join8(a, b), Join8(c, d)) == Join8(Xor8(a, c), Xor8(b, d))
  {
  }

  lemma Join16Xor(a: bv16, b: bv16, c: bv16, d: bv16)
    ensures Xor32(Join16(a, b), Join16(c, d)) == Join16(Xor16(a, c), Xor16(b, d))
  {
  }

  lemma Join32Xor(a: bv32, b: bv32, c: bv32, d: bv32)
    ensures Xor64(Join32(a, b), Join32(c, d)) == Join32(Xor32(a, c), Xor32(b, d))
  {
  }

  lemma PackXor(b0: byte, b1: byte, b2: byte, b3: byte, b4: byte, b5: byte, b6: byte, b7: byte, c: byte)
    ensures Xor64(Pack(b0, b1, b2, b3, b4, b5, b6, b7), Pack(c, c, c, c, c, c, c, c))
         == Pack(Xor8(b0, c), Xor8(b1, c), Xor8(b2, c), Xor8(b3, c), Xor8(b4, c), Xor8(b5, c), Xor8(b6, c), Xor8(b7, c))
  {
    hide Join8, Join16, Join32, Xor8, Xor16, Xor32, Xor64;
    Join8Xor(b0, b1, c, c);
    Join8Xor(b2, b3, c, c);
    Join8Xor(b4, b5, c, c);
    Join8Xor(b6, b7, c, c);
    var c2 := Join8(c, c);
    Join16Xor(Join8(b0, b1), Join8(b2, b3), c2, c2);
    Join16Xor(Join8(b4, b5), Join8(b6, b7), c2, c2);
    var c4 := Join16(c2, c2);
    Join32Xor(Join16(Join8(b0, b1), Join8(b2, b3)), Join16(Join8(b4, b5), Join8(b6, b7)), c4, c4);
  }

  lemma XorZero(b: byte, c: byte)
    ensures Xor8(b, c) == 0 <==> b == c
  {
  }

  lemma PackHasByte(b0: byte, b1: byte, b2: byte, b3: byte, b4: byte, b5: byte, b6: byte, b7: byte, c: byte)
    ensures HasZero(Xor64(Pack(b0, b1, b2, b3, b4, b5, b6, b7), ONES * (c as bv64)))
       <==> b0 == c || b1 == c || b2 == c || b3 == c || b4 == c || b5 == c || b6 == c || b7 == c
  {
    hide HasZero, Pack, Xor8, Xor64;
    Splat(c);
    PackXor(b0, b1, b2, b3, b4, b5, b6, b7, c);
    PackHasZero(Xor8(b0, c), Xor8(b1, c), Xor8(b2, c), Xor8(b3, c), Xor8(b4, c), Xor8(b5, c), Xor8(b6, c), Xor8(b7, c));
    XorZero(b0, c);
    XorZero(b1, c);
    XorZero(b2, c);
    XorZero(b3, c);
    XorZero(b4, c);
    XorZero(b5, c);
    XorZero(b6, c);
    XorZero(b7, c);
  }

  // Some byte of the word at a equals c exactly when HasZero(word ^ ONES * c).
  lemma WordHasByte(m: seq<byte>, a: nat, c: byte)
    requires a + 8 <= |m|
    ensures HasZero(Xor64(Word(m, a), ONES * (c as bv64))) <==> exists i :: a <= i < a + 8 && m[i] == c
  {
    hide HasZero, Pack;
    PackHasByte(m[a], m[a + 1], m[a + 2], m[a + 3], m[a + 4], m[a + 5], m[a + 6], m[a + 7], c);
  }

  // Addresses are indices into memory, which is mapped in whole aligned words.
  ghost predicate Mapped(m: seq<byte>) {
    |m| % 8 == 0
  }

  ghost predicate Terminated(m: seq<byte>, s: nat) {
    exists i :: s <= i < |m| && m[i] == 0
  }

  // e is the address of the terminator of the string at s.
  ghost predicate EndsAt(m: seq<byte>, s: nat, e: nat) {
    s <= e < |m| && m[e] == 0 && forall i :: s <= i < e ==> m[i] != 0
  }

  ghost function StrEnd(m: seq<byte>, s: nat): (e: nat)
    requires Terminated(m, s)
    ensures EndsAt(m, s, e)
    decreases |m| - s
  {
    if m[s] == 0 then s else StrEnd(m, s + 1)
  }

  method MemChr(m: seq<byte>, src: nat, c: byte, count: nat) returns (r: Option<nat>)
    requires Mapped(m) && src <= |m|
    requires src + count <= |m| || exists i :: src <= i < |m| && m[i] == c
    ensures r.Some? ==> src <= r.value < src + count && r.value < |m| && m[r.value] == c
    ensures r.Some? ==> forall i :: src <= i < r.value ==> m[i] != c
    ensures r.None? ==> src + count <= |m| && forall i :: src <= i < src + count ==> m[i] != c
  {
    var s, n := src, count;
    while s % 8 != 0 && n > 0 && m[s] != c
      invariant src <= s <= |m| && s + n == src + count
      invariant forall i :: src <= i < s ==> m[i] != c
      decreases n
    {
      s, n := s + 1, n - 1;
    }
    if n > 0 && m[s] != c {
      var k := ONES * (c as bv64);
      while n >= 8 && !HasZero(Xor64(Word(m, s), k))
        invariant src <= s <= |m| && s % 8 == 0 && s + n == src + count
        invariant forall i :: src <= i < s ==> m[i] != c
        decreases n
      {
        WordHasByte(m, s, c);
        s, n := s + 8, n - 8;
      }
    }
    while n > 0 && m[s] != c
      invariant src <= s <= |m| && s + n == src + count
      invariant forall i :: src <= i < s ==> m[i] != c
      decreases n
    {
      s, n := s + 1, n - 1;
    }
    r := if n > 0 then Some(s) else None;
  }

  method StrLen(m: seq<byte>, a: nat) returns (n: nat)
    requires Mapped(m) && Terminated(m, a)
    ensures EndsAt(m, a, a + n)
  {
    var s := a;
    while s % 8 != 0
      invariant a <= s <= |m|
      invariant forall i :: a <= i < s ==> m[i] != 0
      decreases |m| - s
    {
      if m[s] == 0 {
        return s - a;
      }
      s := s + 1;
    }
    WordHasZero(m, s);
    while !HasZero(Word(m, s))
      invariant a <= s < |m| && s % 8 == 0
      invariant forall i :: a <= i < s ==> m[i] != 0
      decreases |m| - s
    {
      WordHasZero(m, s);
      s := s + 8;
    }
    while m[s] != 0
      invariant a <= s < |m|
      invariant forall i :: a <= i < s ==> m[i] != 0
      decreases |m| - s
    {
      s := s + 1;
    }
    n := s - a;
  }

  lemma WordHasZero(m: seq<byte>, a: nat)
    requires a + 8 <= |m|
    ensures HasZero(Word(m, a)) <==> exists i :: a <= i < a + 8 && m[i] == 0
  {
    hide HasZero, Pack;
    PackHasZero(m[a], m[a + 1], m[a + 2], m[a + 3], m[a + 4], m[a + 5], m[a + 6], m[a + 7]);
  }

  // The first byte at or after s that is c or the terminator.
  method StrChrNul(m: seq<byte>, a: nat, c: byte) returns (r: nat)
    requires Mapped(m) && Terminated(m, a)
    ensures a <= r < |m| && (m[r] == c || m[r] == 0)
    ensures forall i :: a <= i < r ==> m[i] != c && m[i] != 0
  {
    if c == 0 {
      var n := StrLen(m, a);
      return a + n;
    }
    var s := a;
    while s % 8 != 0
      invariant a <= s <= |m|
      invariant forall i :: a <= i < s ==> m[i] != c && m[i] != 0
      decreases |m| - s
    {
      if m[s] == 0 || m[s] == c {
        return s;
      }
      s := s + 1;
    }
    var k := ONES * (c as bv64);
    while !HasZero(Word(m, s)) && !HasZero(Xor64(Word(m, s), k))
      invariant a <= s < |m| && s % 8 == 0
      invariant forall i :: a <= i < s ==> m[i] != c && m[i] != 0
      decreases |m| - s
    {
      WordHasZero(m, s);
      WordHasByte(m, s, c);
      s := s + 8;
    }
    while m[s] != 0 && m[s] != c
      invariant a <= s < |m|
      invariant forall i :: a <= i < s ==> m[i] != c && m[i] != 0
      decreases |m| - s
    {
      s := s + 1;
    }
    r := s;
  }

  method StrChr(m: seq<byte>, a: nat, c: byte) returns (r: Option<nat>)
    requires Mapped(m) && Terminated(m, a)
    ensures r.Some? ==> a <= r.value < |m| && m[r.value] == c
    ensures r.Some? ==> forall i :: a <= i < r.value ==> m[i] != c && m[i] != 0
    ensures r.None? ==> forall i :: a <= i <= StrEnd(m, a) ==> m[i] != c
  {
    var p := StrChrNul(m, a, c);
    r := if m[p] == c then Some(p) else None;
    assert EndsAt(m, a, StrEnd(m, a));
  }
}
