/**
 * CRC-32 by table against the reflected definition with the polynomial 0xEDB88320, which takes the
 * message bit by bit, least significant bit of each byte first.
 */
module Crc32 {
  import opened Bytes

  const ALL_ONES: bv32 := 0xffffffff
  const POLYNOMIAL: bv32 := 0xedb88320

  // crc32_table, sixteen entries a row
  const TABLE: seq<seq<bv32>> := [
    [0x00000000, 0x77073096, 0xee0e612c, 0x990951ba, 0x076dc419, 0x706af48f, 0xe963a535, 0x9e6495a3,
     0x0edb8832, 0x79dcb8a4, 0xe0d5e91e, 0x97d2d988, 0x09b64c2b, 0x7eb17cbd, 0xe7b82d07, 0x90bf1d91],
    [0x1db71064, 0x6ab020f2, 0xf3b97148, 0x84be41de, 0x1adad47d, 0x6ddde4eb, 0xf4d4b551, 0x83d385c7,
     0x136c9856, 0x646ba8c0, 0xfd62f97a, 0x8a65c9ec, 0x14015c4f, 0x63066cd9, 0xfa0f3d63, 0x8d080df5],
    [0x3b6e20c8, 0x4c69105e, 0xd56041e4, 0xa2677172, 0x3c03e4d1, 0x4b04d447, 0xd20d85fd, 0xa50ab56b,
     0x35b5a8fa, 0x42b2986c, 0xdbbbc9d6, 0xacbcf940, 0x32d86ce3, 0x45df5c75, 0xdcd60dcf, 0xabd13d59],
    [0x26d930ac, 0x51de003a, 0xc8d75180, 0xbfd06116, 0x21b4f4b5, 0x56b3c423, 0xcfba9599, 0xb8bda50f,
     0x2802b89e, 0x5f058808, 0xc60cd9b2, 0xb10be924, 0x2f6f7c87, 0x58684c11, 0xc1611dab, 0xb6662d3d],
    [0x76dc4190, 0x01db7106, 0x98d220bc, 0xefd5102a, 0x71b18589, 0x06b6b51f, 0x9fbfe4a5, 0xe8b8d433,
     0x7807c9a2, 0x0f00f934, 0x9609a88e, 0xe10e9818, 0x7f6a0dbb, 0x086d3d2d, 0x91646c97, 0xe6635c01],
    [0x6b6b51f4, 0x1c6c6162, 0x856530d8, 0xf262004e, 0x6c0695ed, 0x1b01a57b, 0x8208f4c1, 0xf50fc457,
     0x65b0d9c6, 0x12b7e950, 0x8bbeb8ea, 0xfcb9887c, 0x62dd1ddf, 0x15da2d49, 0x8cd37cf3, 0xfbd44c65],
    [0x4db26158, 0x3ab551ce, 0xa3bc0074, 0xd4bb30e2, 0x4adfa541, 0x3dd895d7, 0xa4d1c46d, 0xd3d6f4fb,
     0x4369e96a, 0x346ed9fc, 0xad678846, 0xda60b8d0, 0x44042d73, 0x33031de5, 0xaa0a4c5f, 0xdd0d7cc9],
    [0x5005713c, 0x270241aa, 0xbe0b1010, 0xc90c2086, 0x5768b525, 0x206f85b3, 0xb966d409, 0xce61e49f,
     0x5edef90e, 0x29d9c998, 0xb0d09822, 0xc7d7a8b4, 0x59b33d17, 0x2eb40d81, 0xb7bd5c3b, 0xc0ba6cad],
    [0xedb88320, 0x9abfb3b6, 0x03b6e20c, 0x74b1d29a, 0xead54739, 0x9dd277af, 0x04db2615, 0x73dc1683,
     0xe3630b12, 0x94643b84, 0x0d6d6a3e, 0x7a6a5aa8, 0xe40ecf0b, 0x9309ff9d, 0x0a00ae27, 0x7d079eb1],
    [0xf00f9344, 0x8708a3d2, 0x1e01f268, 0x6906c2fe, 0xf762575d, 0x806567cb, 0x196c3671, 0x6e6b06e7,
     0xfed41b76, 0x89d32be0, 0x10da7a5a, 0x67dd4acc, 0xf9b9df6f, 0x8ebeeff9, 0x17b7be43, 0x60b08ed5],
    [0xd6d6a3e8, 0xa1d1937e, 0x38d8c2c4, 0x4fdff252, 0xd1bb67f1, 0xa6bc5767, 0x3fb506dd, 0x48b2364b,
     0xd80d2bda, 0xaf0a1b4c, 0x36034af6, 0x41047a60, 0xdf60efc3, 0xa867df55, 0x316e8eef, 0x4669be79],
    [0xcb61b38c, 0xbc66831a, 0x256fd2a0, 0x5268e236, 0xcc0c7795, 0xbb0b4703, 0x220216b9, 0x5505262f,
     0xc5ba3bbe, 0xb2bd0b28, 0x2bb45a92, 0x5cb36a04, 0xc2d7ffa7, 0xb5d0cf31, 0x2cd99e8b, 0x5bdeae1d],
    [0x9b64c2b0, 0xec63f226, 0x756aa39c, 0x026d930a, 0x9c0906a9, 0xeb0e363f, 0x72076785, 0x05005713,
     0x95bf4a82, 0xe2b87a14, 0x7bb12bae, 0x0cb61b38, 0x92d28e9b, 0xe5d5be0d, 0x7cdcefb7, 0x0bdbdf21],
    [0x86d3d2d4, 0xf1d4e242, 0x68ddb3f8, 0x1fda836e, 0x81be16cd, 0xf6b9265b, 0x6fb077e1, 0x18b74777,
     0x88085ae6, 0xff0f6a70, 0x66063bca, 0x11010b5c, 0x8f659eff, 0xf862ae69, 0x616bffd3, 0x166ccf45],
    [0xa00ae278, 0xd70dd2ee, 0x4e048354, 0x3903b3c2, 0xa7672661, 0xd06016f7, 0x4969474d, 0x3e6e77db,
     0xaed16a4a, 0xd9d65adc, 0x40df0b66, 0x37d83bf0, 0xa9bcae53, 0xdebb9ec5, 0x47b2cf7f, 0x30b5ffe9],
    [0xbdbdf21c, 0xcabac28a, 0x53b39330, 0x24b4a3a6, 0xbad03605, 0xcdd70693, 0x54de5729, 0x23d967bf,
     0xb3667a2e, 0xc4614ab8, 0x5d681b02, 0x2a6f2b94, 0xb40bbe37, 0xc30c8ea1, 0x5a05df1b, 0x2d02ef8d]]

  function Xor(x: bv32, y: bv32): bv32 {
    x ^ y
  }

  function Half(x: bv32): bv32 {
    x >> 1
  }

  predicate Odd(x: bv32) {
    x & 1 == 1
  }

  // ---------------------------------------------------------------- the definition

  // One step of the division.
  function Bit(x: bv32): bv32 {
    if Odd(x) then Xor(Half(x), POLYNOMIAL) else Half(x)
  }

  // The message bits enter one after the other.
  function Serial(crc: bv32, bits: seq<bool>): bv32
    decreases |bits|
  {
    if bits == [] then crc else Serial(Bit(Xor(crc, if bits[0] then 1 else 0)), bits[1..])
  }

  // The lowest n bits of w, least significant first.
  function LowBits(w: bv32, n: nat): (r: seq<bool>)
    ensures |r| == n
  {
    if n == 0 then [] else [Odd(w)] + LowBits(Half(w), n - 1)
  }

  function ByteBits(b: byte): (r: seq<bool>)
    ensures |r| == 8
  {
    LowBits(b as bv32, 8)
  }

  function MessageBits(data: seq<byte>): seq<bool> {
    if data == [] then [] else MessageBits(data[..|data| - 1]) + ByteBits(data[|data| - 1])
  }

  // A seed of 0 stands for all ones.
  function Start(seed: bv32): bv32 {
    if seed == 0 then ALL_ONES else seed
  }

  function Checksum(seed: bv32, data: seq<byte>): bv32 {
    Xor(Serial(Start(seed), MessageBits(data)), ALL_ONES)
  }

  // ---------------------------------------------------------------- eight steps at once

  lemma Associated(x: bv32, y: bv32, p: bv32)
    ensures x ^ (y ^ p) == (x ^ y) ^ p
  {}

  lemma XorAssociates(x: bv32, y: bv32, p: bv32)
    ensures Xor(x, Xor(y, p)) == Xor(Xor(x, y), p)
  {
    Associated(x, y, p);
  }

  lemma XorCommutes(x: bv32, y: bv32)
    ensures Xor(x, y) == Xor(y, x)
  {}

  lemma XorSwap(x: bv32, y: bv32, p: bv32)
    ensures Xor(Xor(x, p), y) == Xor(Xor(x, y), p)
  {
    hide Xor;
    XorAssociates(x, p, y);
    XorAssociates(x, y, p);
    XorCommutes(p, y);
  }

  lemma XorBoth(x: bv32, y: bv32, p: bv32)
    ensures Xor(Xor(x, p), Xor(y, p)) == Xor(x, y)
  {
    hide Xor;
    XorSwap(x, y, p);
    XorAssociates(Xor(x, p), y, p);
    XorTwice(Xor(x, y), p);
  }

  lemma XorTwice(x: bv32, p: bv32)
    ensures Xor(Xor(x, p), p) == x
  {}

  lemma HalfXor(x: bv32, y: bv32)
    ensures Half(Xor(x, y)) == Xor(Half(x), Half(y))
  {}

  lemma OddXor(x: bv32, y: bv32)
    ensures Odd(Xor(x, y)) <==> Odd(x) != Odd(y)
  {
    LowXor(x, y);
    LowBit(x);
    LowBit(y);
    hide Xor;
  }

  lemma LowXor(x: bv32, y: bv32)
    ensures Xor(x, y) & 1 == (x & 1) ^ (y & 1)
  {}

  lemma LowBit(x: bv32)
    ensures x & 1 == 0 || x & 1 == 1
  {}

  lemma BitLinear(x: bv32, y: bv32)
    ensures Bit(Xor(x, y)) == Xor(Bit(x), Bit(y))
  {
    hide Xor, Half, Odd;
    OddXor(x, y);
    HalfXor(x, y);
    XorSwap(Half(x), Half(y), POLYNOMIAL);
    XorAssociates(Half(x), Half(y), POLYNOMIAL);
    XorBoth(Half(x), Half(y), POLYNOMIAL);
  }

  function Bits8(x: bv32): bv32 {
    Bit(Bit(Bit(Bit(Bit(Bit(Bit(Bit(x))))))))
  }

  lemma Bits8Linear(x: bv32, y: bv32)
    ensures Bits8(Xor(x, y)) == Xor(Bits8(x), Bits8(y))
  {
    hide Xor, Bit;
    BitLinear(x, y);
    var x1, y1 := Bit(x), Bit(y);
    BitLinear(x1, y1);
    var x2, y2 := Bit(x1), Bit(y1);
    BitLinear(x2, y2);
    var x3, y3 := Bit(x2), Bit(y2);
    BitLinear(x3, y3);
    var x4, y4 := Bit(x3), Bit(y3);
    BitLinear(x4, y4);
    var x5, y5 := Bit(x4), Bit(y4);
    BitLinear(x5, y5);
    var x6, y6 := Bit(x5), Bit(y5);
    BitLinear(x6, y6);
    BitLinear(Bit(x6), Bit(y6));
  }

  lemma HighBits(x: bv32)
    ensures Bits8(x & 0xffffff00) == x >> 8
  {}

  lemma LowAndHigh(x: bv32)
    ensures Xor(x & 0xff, x & 0xffffff00) == x
  {}

  // The low byte decides what is added to the rest.
  lemma ByteStep(x: bv32)
    ensures Bits8(x) == Xor(Bits8(x & 0xff), x >> 8)
  {
    LowAndHigh(x);
    HighBits(x);
    Bits8Linear(x & 0xff, x & 0xffffff00);
  }

  // ---------------------------------------------------------------- the table

  function RowOf(h: bv32): (r: seq<bv32>)
    ensures |r| == 16
  {
    var b := h << 4;
    [Bits8(b), Bits8(b | 1), Bits8(b | 2), Bits8(b | 3), Bits8(b | 4), Bits8(b | 5), Bits8(b | 6), Bits8(b | 7),
     Bits8(b | 8), Bits8(b | 9), Bits8(b | 10), Bits8(b | 11), Bits8(b | 12), Bits8(b | 13), Bits8(b | 14), Bits8(b | 15)]
  }

  lemma Row0()
    ensures TABLE[0] == RowOf(0)
  {}

  lemma Row1()
    ensures TABLE[1] == RowOf(1)
  {}

  lemma Row2()
    ensures TABLE[2] == RowOf(2)
  {}

  lemma Row3()
    ensures TABLE[3] == RowOf(3)
  {}

  lemma Row4()
    ensures TABLE[4] == RowOf(4)
  {}

  lemma Row5()
    ensures TABLE[5] == RowOf(5)
  {}

  lemma Row6()
    ensures TABLE[6] == RowOf(6)
  {}

  lemma Row7()
    ensures TABLE[7] == RowOf(7)
  {}

  lemma Row8()
    ensures TABLE[8] == RowOf(8)
  {}

  lemma Row9()
    ensures TABLE[9] == RowOf(9)
  {}

  lemma RowA()
    ensures TABLE[10] == RowOf(10)
  {}

  lemma RowB()
    ensures TABLE[11] == RowOf(11)
  {}

  lemma RowC()
    ensures TABLE[12] == RowOf(12)
  {}

  lemma RowD()
    ensures TABLE[13] == RowOf(13)
  {}

  lemma RowE()
    ensures TABLE[14] == RowOf(14)
  {}

  lemma RowF()
    ensures TABLE[15] == RowOf(15)
  {}

  lemma Rows(h: bv32)
    requires h < 16
    ensures |TABLE| == 16 && TABLE[h as int] == RowOf(h)
  {
    hide RowOf;
    if h == 0 {
      Row0();
    } else if h == 1 {
      Row1();
    } else if h == 2 {
      Row2();
    } else if h == 3 {
      Row3();
    } else if h == 4 {
      Row4();
    } else if h == 5 {
      Row5();
    } else if h == 6 {
      Row6();
    } else if h == 7 {
      Row7();
    } else if h == 8 {
      Row8();
    } else if h == 9 {
      Row9();
    } else if h == 10 {
      RowA();
    } else if h == 11 {
      RowB();
    } else if h == 12 {
      RowC();
    } else if h == 13 {
      RowD();
    } else if h == 14 {
      RowE();
    } else {
      RowF();
    }
  }

  lemma RowEntry(h: bv32, l: bv32)
    requires l < 16
    ensures RowOf(h)[l as int] == Bits8((h << 4) | l)
  {
    hide Bits8;
    if l == 0 {
      assert l as int == 0;
    } else if l == 1 {
      assert l as int == 1;
    } else if l == 2 {
      assert l as int == 2;
    } else if l == 3 {
      assert l as int == 3;
    } else if l == 4 {
      assert l as int == 4;
    } else if l == 5 {
      assert l as int == 5;
    } else if l == 6 {
      assert l as int == 6;
    } else if l == 7 {
      assert l as int == 7;
    } else if l == 8 {
      assert l as int == 8;
    } else if l == 9 {
      assert l as int == 9;
    } else if l == 10 {
      assert l as int == 10;
    } else if l == 11 {
      assert l as int == 11;
    } else if l == 12 {
      assert l as int == 12;
    } else if l == 13 {
      assert l as int == 13;
    } else if l == 14 {
      assert l as int == 14;
    } else {
      assert l == 15;
      assert l as int == 15;
    }
  }

  // The low bit of w goes in, and the others wait in the word.
  lemma BitIn(c: bv32, w: bv32)
    ensures Bit(Xor(c, w)) == Xor(Bit(Xor(c, if Odd(w) then 1 else 0)), Half(w))
  {
    var bit: bv32 := if Odd(w) then 1 else 0;
    WithoutLow(c, w, bit);
    BitLinear(Xor(c, bit), w & 0xfffffffe);
  }

  lemma WithoutLow(c: bv32, w: bv32, bit: bv32)
    requires bit == if Odd(w) then 1 else 0
    ensures Xor(c, w) == Xor(Xor(c, bit), w & 0xfffffffe) && Bit(w & 0xfffffffe) == Half(w)
  {}

  function Halves(w: bv32, n: nat): bv32 {
    if n == 0 then w else Halves(Half(w), n - 1)
  }

  function Bits(x: bv32, n: nat): bv32
    decreases n
  {
    if n == 0 then x else Bits(Bit(x), n - 1)
  }

  // Taking n bits one by one is n steps of the division.
  lemma {:induction false} SerialLow(c: bv32, w: bv32, n: nat)
    ensures Xor(Serial(c, LowBits(w, n)), Halves(w, n)) == Bits(Xor(c, w), n)
    decreases n
  {
    hide Xor, Bit, Half, Odd;
    if n > 0 {
      BitIn(c, w);
      var c' := Bit(Xor(c, if Odd(w) then 1 else 0));
      SerialLow(c', Half(w), n - 1);
      assert LowBits(w, n)[1..] == LowBits(Half(w), n - 1);
    }
  }

  lemma SerialByte(c: bv32, b: byte)
    ensures Serial(c, ByteBits(b)) == Bits8(Xor(c, b as bv32))
  {
    var w := b as bv32;
    SerialLow(c, w, 8);
    AllShifted(b);
    XorZero(Serial(c, LowBits(w, 8)));
    hide Xor, Bit, Half, Odd, Serial, LowBits;
    BitsEight(Xor(c, w));
  }

  lemma BitsEight(x: bv32)
    ensures Bits(x, 8) == Bits8(x)
  {
    hide Bit;
    var y := Bit(Bit(Bit(Bit(x))));
    assert Bits(x, 8) == Bits(Bit(x), 7) == Bits(Bit(Bit(x)), 6) == Bits(y, 4);
  }

  lemma AllShifted(b: byte)
    ensures Halves(b as bv32, 8) == 0
  {
    var w := b as bv32;
    var w4 := Half(Half(Half(Half(w))));
    assert Halves(w, 8) == Halves(Half(w), 7) == Halves(Half(Half(w)), 6) == Halves(w4, 4);
    assert Halves(w4, 4) == Halves(Half(w4), 3) == Halves(Half(Half(w4)), 2) == Halves(Half(Half(Half(Half(w4)))), 0);
  }

  lemma XorZero(x: bv32)
    ensures Xor(x, 0) == x
  {}

  // ---------------------------------------------------------------- the code

  // crc32_table[i]
  function Lookup(i: byte): bv32 {
    TABLE[(i >> 4) as int][(i & 15) as int]
  }

  // The table holds eight steps of the division of every byte.
  lemma TableRight(i: byte)
    ensures Lookup(i) == Bits8(i as bv32)
  {
    var h, l := (i as bv32) >> 4, (i as bv32) & 15;
    Rows(h);
    RowEntry(h, l);
    Nibbles(i);
  }

  lemma Nibbles(i: byte)
    ensures var w := i as bv32; ((w >> 4) << 4) | (w & 15) == w && w >> 4 < 16 && w & 15 < 16
    ensures (i >> 4) as bv32 == (i as bv32) >> 4 && (i & 15) as bv32 == (i as bv32) & 15
  {}

  // One turn of the loop
  function Turn(crc: bv32, b: byte): bv32 {
    var index := ((crc ^ (b as bv32)) & 0xff) as bv8;
    Xor(Lookup(index), crc >> 8)
  }

  lemma TurnRight(crc: bv32, b: byte)
    ensures Turn(crc, b) == Serial(crc, ByteBits(b))
  {
    var x := Xor(crc, b as bv32);
    var index := (x & 0xff) as bv8;
    hide Lookup, Serial, ByteBits, Bits8;
    TableRight(index);
    ByteStep(x);
    SerialByte(crc, b);
    AboveByte(crc, b);
  }

  lemma AboveByte(crc: bv32, b: byte)
    ensures (crc ^ (b as bv32)) >> 8 == crc >> 8
  {}

  lemma {:induction false} SerialAppend(c: bv32, a: seq<bool>, b: seq<bool>)
    ensures Serial(c, a + b) == Serial(Serial(c, a), b)
    decreases |a|
  {
    hide Bit, Xor;
    if a == [] {
      assert a + b == b;
    } else {
      SerialAppend(Bit(Xor(c, if a[0] then 1 else 0)), a[1..], b);
      assert (a + b)[1..] == a[1..] + b;
    }
  }

  // crc32
  method Compute(seed: bv32, data: seq<byte>) returns (r: bv32)
    ensures r == Checksum(seed, data)
  {
    hide Serial, Turn, ByteBits, Xor;
    var crc := seed;
    if crc == 0 {
      crc := ALL_ONES;
    }
    ghost var start := crc;
    var i := 0;
    assert crc == Serial(start, []) by {
      EmptySerial(start);
    }
    while i < |data|
      invariant 0 <= i <= |data| && crc == Serial(start, MessageBits(data[..i]))
    {
      TurnRight(crc, data[i]);
      SerialAppend(start, MessageBits(data[..i]), ByteBits(data[i]));
      assert data[..i + 1][..i] == data[..i];
      crc := Turn(crc, data[i]);
      i := i + 1;
    }
    assert data[..i] == data;
    return Xor(crc, ALL_ONES);
  }

  lemma EmptySerial(c: bv32)
    ensures Serial(c, []) == c
  {}

  // ---------------------------------------------------------------- continuing a checksum

  // The step can be undone: the top bit of its result tells which branch it took.
  lemma BitInjective(x: bv32, y: bv32)
    requires Bit(x) == Bit(y)
    ensures x == y
  {
    TopBit(x);
    TopBit(y);
    if Odd(x) {
      XorTwice(Half(x), POLYNOMIAL);
      XorTwice(Half(y), POLYNOMIAL);
    }
    FromHalves(x, y);
  }

  lemma TopBit(x: bv32)
    ensures Bit(x) & 0x80000000 == 0 <==> !Odd(x)
  {}

  lemma FromHalves(x: bv32, y: bv32)
    ensures Half(x) == Half(y) && Odd(x) == Odd(y) ==> x == y
  {}

  lemma {:induction false} SerialInjective(c: bv32, d: bv32, bits: seq<bool>)
    requires Serial(c, bits) == Serial(d, bits)
    ensures c == d
    decreases |bits|
  {
    hide Bit, Xor;
    if bits != [] {
      var b: bv32 := if bits[0] then 1 else 0;
      SerialInjective(Bit(Xor(c, b)), Bit(Xor(d, b)), bits[1..]);
      BitInjective(Xor(c, b), Xor(d, b));
      XorTwice(c, b);
      XorTwice(d, b);
    }
  }

  lemma {:induction false} MessageAppend(p: seq<byte>, s: seq<byte>)
    ensures MessageBits(p + s) == MessageBits(p) + MessageBits(s)
    decreases |s|
  {
    hide ByteBits;
    if s == [] {
      assert p + s == p;
    } else {
      var n := |s| - 1;
      MessageAppend(p, s[..n]);
      assert (p + s)[..|p| + n] == p + s[..n];
      assert MessageBits(p) + (MessageBits(s[..n]) + ByteBits(s[n])) == MessageBits(p) + MessageBits(s[..n]) + ByteBits(s[n]);
    }
  }

  // The complement of a checksum as the seed continues it, except when that complement is 0.
  lemma ContinuesIff(p: seq<byte>, s: seq<byte>)
    ensures var seed := Xor(Checksum(0, p), ALL_ONES);
      Checksum(seed, s) == Checksum(0, p + s) <==> seed != 0
  {
    hide Serial, MessageBits, Xor;
    var raw := Serial(ALL_ONES, MessageBits(p));
    XorTwice(raw, ALL_ONES);
    MessageAppend(p, s);
    SerialAppend(ALL_ONES, MessageBits(p), MessageBits(s));
    if raw == 0 && Checksum(0, s) == Checksum(0, p + s) {
      XorTwice(Serial(ALL_ONES, MessageBits(s)), ALL_ONES);
      XorTwice(Serial(0, MessageBits(s)), ALL_ONES);
      SerialInjective(ALL_ONES, 0, MessageBits(s));
      assert false;
    }
  }

  // Such a message: four bytes of ones.
  lemma VanishingMessage()
    ensures Xor(Checksum(0, [0xff, 0xff, 0xff, 0xff]), ALL_ONES) == 0
  {
    var b: byte := 0xff;
    OnesTurn();
    hide Turn, Serial, ByteBits;
    EmptySerial(ALL_ONES);
    assert [] + [b] == [b] && [b] + [b] == [b, b] && [b, b] + [b] == [b, b, b];
    OneByte([], b, ALL_ONES, 0xffffff);
    OneByte([b], b, 0xffffff, 0xffff);
    OneByte([b, b], b, 0xffff, 0xff);
    OneByte([b, b, b], b, 0xff, 0);
    assert [b, b, b] + [b] == [b, b, b, b];
  }

  lemma OnesTurn()
    ensures Turn(0xffffffff, 0xff) == 0xffffff && Turn(0xffffff, 0xff) == 0xffff
    ensures Turn(0xffff, 0xff) == 0xff && Turn(0xff, 0xff) == 0
  {}

  lemma OneByte(p: seq<byte>, b: byte, c: bv32, c': bv32)
    requires Serial(ALL_ONES, MessageBits(p)) == c && Turn(c, b) == c'
    ensures Serial(ALL_ONES, MessageBits(p + [b])) == c'
  {
    hide Turn, Serial, ByteBits;
    TurnRight(c, b);
    SerialAppend(ALL_ONES, MessageBits(p), ByteBits(b));
    assert (p + [b])[..|p|] == p;
  }

  // The check value of the CRC-32 of IEEE 802.3: the nine digits "123456789".
  lemma CheckValue()
    ensures Checksum(0, [0x31, 0x32, 0x33, 0x34, 0x35, 0x36, 0x37, 0x38, 0x39]) == 0xCBF43926
  {
    DigitTurns();
    hide Turn, Serial, ByteBits, MessageBits;
    EmptySerial(ALL_ONES);
    EmptyMessage();
    var m: seq<byte> := [];
    m := NextByte(m, 0x31, 0xFFFFFFFF, 0x7C231048);
    m := NextByte(m, 0x32, 0x7C231048, 0xB0ACBB32);
    m := NextByte(m, 0x33, 0xB0ACBB32, 0x77B79C2D);
    m := NextByte(m, 0x34, 0x77B79C2D, 0x641C1F5C);
    m := NextByte(m, 0x35, 0x641C1F5C, 0x340AC5E3);
    m := NextByte(m, 0x36, 0x340AC5E3, 0xF68D2C9E);
    m := NextByte(m, 0x37, 0xF68D2C9E, 0xAFFC9660);
    m := NextByte(m, 0x38, 0xAFFC9660, 0x651F2550);
    m := NextByte(m, 0x39, 0x651F2550, 0x340BC6D9);
    assert m == [0x31, 0x32, 0x33, 0x34, 0x35, 0x36, 0x37, 0x38, 0x39];
  }

  lemma EmptyMessage()
    ensures MessageBits([]) == []
  {}

  lemma NextByte(m: seq<byte>, b: byte, before: bv32, after: bv32) returns (m': seq<byte>)
    requires Serial(ALL_ONES, MessageBits(m)) == before && Turn(before, b) == after
    ensures m' == m + [b] && Serial(ALL_ONES, MessageBits(m')) == after
  {
    hide Turn, Serial, ByteBits;
    OneByte(m, b, before, after);
    m' := m + [b];
  }

  lemma DigitTurns()
    ensures Turn(0xFFFFFFFF, 0x31) == 0x7C231048
    ensures Turn(0x7C231048, 0x32) == 0xB0ACBB32
    ensures Turn(0xB0ACBB32, 0x33) == 0x77B79C2D
    ensures Turn(0x77B79C2D, 0x34) == 0x641C1F5C
    ensures Turn(0x641C1F5C, 0x35) == 0x340AC5E3
    ensures Turn(0x340AC5E3, 0x36) == 0xF68D2C9E
    ensures Turn(0xF68D2C9E, 0x37) == 0xAFFC9660
    ensures Turn(0xAFFC9660, 0x38) == 0x651F2550
    ensures Turn(0x651F2550, 0x39) == 0x340BC6D9
  {}
}
