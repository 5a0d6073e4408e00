/**
 * SHA-256 over a context that takes a message in pieces, against section 6.2 of FIPS 180-4:
 * whatever the pieces, the digest is that of the padded whole message.
 */
module Sha256 {
  import opened Bytes
  import opened Powers
  import opened Sha256Constants

  const U64: int := 0x1_0000_0000_0000_0000

  function Ch(x: bv32, y: bv32, z: bv32): bv32 {
    (x & y) ^ (!x & z)
  }

  function Maj(x: bv32, y: bv32, z: bv32): bv32 {
    (x & y) ^ (x & z) ^ (y & z)
  }

  // Where x has a one Ch takes the bit of y, elsewhere that of z.
  lemma ChChooses(x: bv32, y: bv32, z: bv32)
    ensures Ch(x, y, z) & x == y & x && Ch(x, y, z) & !x == z & !x
  {}

  // Where two arguments agree Maj takes their bit; at every bit two of the three agree.
  lemma MajVotes(x: bv32, y: bv32, z: bv32)
    ensures Maj(x, y, z) & !(x ^ y) == x & !(x ^ y)
    ensures Maj(x, y, z) & !(x ^ z) == x & !(x ^ z)
    ensures Maj(x, y, z) & !(y ^ z) == y & !(y ^ z)
    ensures !(x ^ y) | !(x ^ z) | !(y ^ z) == 0xFFFF_FFFF
  {
    hide Maj;
    FirstTwoAgree(x, y, z);
    OuterTwoAgree(x, y, z);
    LastTwoAgree(x, y, z);
    SomeTwoAgree(x, y, z);
  }

  lemma FirstTwoAgree(x: bv32, y: bv32, z: bv32)
    ensures Maj(x, y, z) & !(x ^ y) == x & !(x ^ y)
  {}

  lemma OuterTwoAgree(x: bv32, y: bv32, z: bv32)
    ensures Maj(x, y, z) & !(x ^ z) == x & !(x ^ z)
  {}

  lemma LastTwoAgree(x: bv32, y: bv32, z: bv32)
    ensures Maj(x, y, z) & !(y ^ z) == y & !(y ^ z)
  {}

  lemma SomeTwoAgree(x: bv32, y: bv32, z: bv32)
    ensures !(x ^ y) | !(x ^ z) | !(y ^ z) == 0xFFFF_FFFF
  {}

  // 32-bit addition
  function Add(x: bv32, y: bv32): bv32 {
    x + y
  }

  function Add5(v: bv32, w: bv32, x: bv32, y: bv32, z: bv32): bv32 {
    Add(Add(Add(Add(v, w), x), y), z)
  }

  function Xor3(x: bv32, y: bv32, z: bv32): bv32 {
    x ^ y ^ z
  }

  // ---------------------------------------------------------------- the standard

  // ROTR of section 3.2, by shifts
  function Rotr(x: bv32, n: nat): bv32
    requires 0 < n < 32
  {
    (x >> n) | (x << (32 - n))
  }

  // The functions of section 4.1.2
  function BigSigma0(x: bv32): bv32 {
    Xor3(Rotr(x, 2), Rotr(x, 13), Rotr(x, 22))
  }

  function BigSigma1(x: bv32): bv32 {
    Xor3(Rotr(x, 6), Rotr(x, 11), Rotr(x, 25))
  }

  function SmallSigma0(x: bv32): bv32 {
    Xor3(Rotr(x, 7), Rotr(x, 18), x >> 3)
  }

  function SmallSigma1(x: bv32): bv32 {
    Xor3(Rotr(x, 17), Rotr(x, 19), x >> 10)
  }

  function BigEndian(a: byte, b: byte, c: byte, d: byte): bv32 {
    ((a as bv32) << 24) | ((b as bv32) << 16) | ((c as bv32) << 8) | (d as bv32)
  }

  // Section 6.2.2, step 1: the message schedule of one block
  function Schedule(block: seq<byte>, t: nat): bv32
    requires |block| == 64 && t < 64
  {
    if t < 16 then BigEndian(block[4 * t], block[4 * t + 1], block[4 * t + 2], block[4 * t + 3])
    else
      Add(Add(Add(SmallSigma1(Schedule(block, t - 2)), Schedule(block, t - 7)), SmallSigma0(Schedule(block, t - 15))),
          Schedule(block, t - 16))
  }

  datatype Vars = Vars(a: bv32, b: bv32, c: bv32, d: bv32, e: bv32, f: bv32, g: bv32, h: bv32)

  // Section 6.2.2, step 3: one round
  function Round(v: Vars, k: bv32, w: bv32): Vars {
    var t1 := Add5(v.h, BigSigma1(v.e), Ch(v.e, v.f, v.g), k, w);
    var t2 := Add(BigSigma0(v.a), Maj(v.a, v.b, v.c));
    Vars(Add(t1, t2), v.a, v.b, v.c, Add(v.d, t1), v.e, v.f, v.g)
  }

  function Rounds(v: Vars, block: seq<byte>, t: nat): Vars
    requires |block| == 64 && t <= 64
  {
    if t == 0 then v else Round(Rounds(v, block, t - 1), K[t - 1], Schedule(block, t - 1))
  }

  function Load(h: seq<bv32>): Vars
    requires |h| == 8
  {
    Vars(h[0], h[1], h[2], h[3], h[4], h[5], h[6], h[7])
  }

  // Section 6.2.2, step 4: the intermediate hash value
  function Added(h: seq<bv32>, v: Vars): (r: seq<bv32>)
    requires |h| == 8
    ensures |r| == 8
  {
    [Add(h[0], v.a), Add(h[1], v.b), Add(h[2], v.c), Add(h[3], v.d),
     Add(h[4], v.e), Add(h[5], v.f), Add(h[6], v.g), Add(h[7], v.h)]
  }

  function Compress(h: seq<bv32>, block: seq<byte>): (r: seq<bv32>)
    requires |h| == 8 && |block| == 64
    ensures |r| == 8
  {
    Added(h, Rounds(Load(h), block, 64))
  }

  // All whole blocks of s, in order.
  function Fold(h: seq<bv32>, s: seq<byte>): (r: seq<bv32>)
    requires |h| == 8
    ensures |r| == 8
    decreases |s|
  {
    if |s| < 64 then h else Fold(Compress(h, s[..64]), s[64..])
  }

  function Zeros(n: nat): (r: seq<byte>)
    ensures |r| == n
  {
    seq(n, _ => 0)
  }

  // n in k bytes, most significant first.
  function NumberBytes(n: nat, k: nat): (r: seq<byte>)
    ensures |r| == k
  {
    if k == 0 then [] else NumberBytes(n / 256, k - 1) + [(n % 256) as bv8]
  }

  // The number that bytes denote, most significant first.
  function NumberOf(s: seq<byte>): nat {
    if s == [] then 0 else 256 * NumberOf(s[..|s| - 1]) + s[|s| - 1] as nat
  }

  lemma {:induction false} NumberBack(n: nat, k: nat)
    ensures Pow256(k) > 0 && NumberOf(NumberBytes(n, k)) == n % Pow256(k)
  {
    Pow256Positive(k);
    if k > 0 {
      var front, last := NumberBytes(n / 256, k - 1), (n % 256) as bv8;
      NumberBack(n / 256, k - 1);
      NumberSnoc(front, last);
      ByteValue(n % 256);
      Pow256Positive(k - 1);
      ModSplit(n, Pow256(k - 1));
    }
  }

  lemma NumberSnoc(front: seq<byte>, last: byte)
    ensures NumberOf(front + [last]) == 256 * NumberOf(front) + last as nat
  {
    assert (front + [last])[..|front|] == front;
  }

  lemma ByteValue(n: nat)
    requires n < 256
    ensures (n as bv8) as nat == n
  {
    var b := ByteOf(n);
    hide ByteOf;
    assert n as bv8 == b;
  }

  lemma ModSplit(n: nat, p: nat)
    requires p > 0
    ensures n % (256 * p) == 256 * (n / 256 % p) + n % 256
  {
    var q, r := n / 256 / p, n / 256 % p;
    assert n == q * (256 * p) + (256 * r + n % 256);
    var d := n / (256 * p) - q;
    OneMultiple(d, 256 * p, 256 * r + n % 256 - n % (256 * p));
  }

  lemma OneMultiple(d: int, m: nat, x: int)
    requires -(m as int) < x < m && x == d * m
    ensures x == 0
  {
    if d >= 1 {
      AtLeast(d, m);
    } else if d <= -1 {
      AtLeast(-d, m);
    }
  }

  lemma AtLeast(d: int, m: nat)
    requires d >= 1
    ensures d * m >= m
  {}

  // How many zeros section 5.1.1 asks for, in bytes: the least that makes whole blocks.
  function ZeroCount(n: nat): (k: nat)
    ensures (n + 1 + k + 8) % 64 == 0 && k < 64
  {
    (119 - n % 64) % 64
  }

  // Section 5.1.1; the length field holds the message length in bits.
  function Padded(m: seq<byte>): (r: seq<byte>)
    ensures |r| % 64 == 0
  {
    m + [0x80] + Zeros(ZeroCount(|m|)) + NumberBytes(8 * |m|, 8)
  }

  function WordBytes(w: bv32): (r: seq<byte>)
    ensures |r| == 4
  {
    [((w >> 24) & 0xFF) as bv8, ((w >> 16) & 0xFF) as bv8, ((w >> 8) & 0xFF) as bv8, (w & 0xFF) as bv8]
  }

  // Writing a word and reading it undo each other.
  lemma BytesBack(a: byte, b: byte, c: byte, d: byte)
    ensures WordBytes(BigEndian(a, b, c, d)) == [a, b, c, d]
  {}

  lemma WordBack(w: bv32)
    ensures var s := WordBytes(w); BigEndian(s[0], s[1], s[2], s[3]) == w
  {}

  function Output(h: seq<bv32>): (r: seq<byte>)
    ensures |r| == 4 * |h|
  {
    if h == [] then [] else WordBytes(h[0]) + Output(h[1..])
  }

  function Digest(m: seq<byte>): (r: seq<byte>)
    ensures |r| == 32
  {
    Output(Fold(H0, Padded(m)))
  }

  // ---------------------------------------------------------------- the code

  // sha256_sigma0, sha256_sigma1, sha256_gamma0 and sha256_gamma1, by the rotate instruction
  function Sigma0(x: bv32): bv32 {
    Xor3(x.RotateRight(2), x.RotateRight(13), x.RotateRight(22))
  }

  function Sigma1(x: bv32): bv32 {
    Xor3(x.RotateRight(6), x.RotateRight(11), x.RotateRight(25))
  }

  function Gamma0(x: bv32): bv32 {
    Xor3(x.RotateRight(7), x.RotateRight(18), x >> 3)
  }

  function Gamma1(x: bv32): bv32 {
    Xor3(x.RotateRight(17), x.RotateRight(19), x >> 10)
  }

  lemma Rotates(x: bv32)
    ensures x.RotateRight(2) == Rotr(x, 2) && x.RotateRight(13) == Rotr(x, 13) && x.RotateRight(22) == Rotr(x, 22)
    ensures x.RotateRight(6) == Rotr(x, 6) && x.RotateRight(11) == Rotr(x, 11) && x.RotateRight(25) == Rotr(x, 25)
    ensures x.RotateRight(7) == Rotr(x, 7) && x.RotateRight(18) == Rotr(x, 18)
    ensures x.RotateRight(17) == Rotr(x, 17) && x.RotateRight(19) == Rotr(x, 19)
  {}

  lemma SameFunctions(x: bv32)
    ensures Sigma0(x) == BigSigma0(x) && Sigma1(x) == BigSigma1(x)
    ensures Gamma0(x) == SmallSigma0(x) && Gamma1(x) == SmallSigma1(x)
  {
    hide Rotr, Xor3;
    Rotates(x);
  }

  // sha256_transform, the expansion of a block into 64 words
  method Expand(block: seq<byte>) returns (w: array<bv32>)
    requires |block| == 64
    ensures fresh(w) && w.Length == 64 && forall i :: 0 <= i < 64 ==> w[i] == Schedule(block, i)
  {
    hide Gamma0, Gamma1, SmallSigma0, SmallSigma1, Add, BigEndian;
    w := new bv32[64];
    var i := 0;
    while i < 16
      invariant 0 <= i <= 16 && forall j :: 0 <= j < i ==> w[j] == Schedule(block, j)
    {
      w[i] := BigEndian(block[4 * i], block[4 * i + 1], block[4 * i + 2], block[4 * i + 3]);
      i := i + 1;
    }
    while i < 64
      invariant 16 <= i <= 64 && forall j :: 0 <= j < i ==> w[j] == Schedule(block, j)
    {
      SameFunctions(w[i - 2]);
      SameFunctions(w[i - 15]);
      w[i] := Add(Add(Add(Gamma1(w[i - 2]), w[i - 7]), Gamma0(w[i - 15])), w[i - 16]);
      i := i + 1;
    }
  }

  lemma RoundsNext(start: Vars, block: seq<byte>, t: nat, v: Vars, w: bv32)
    requires |block| == 64 && t < 64 && v == Rounds(start, block, t) && w == Schedule(block, t)
    ensures Rounds(start, block, t + 1) == Round(v, K[t], w)
  {
    hide Round, Schedule;
  }

  // sha256_transform
  method Transform(state: array<bv32>, block: seq<byte>)
    requires state.Length == 8 && |block| == 64
    modifies state
    ensures state[..] == Compress(old(state[..]), block)
  {
    hide Sigma0, Sigma1, BigSigma0, BigSigma1, SmallSigma0, SmallSigma1, BigEndian, Ch, Maj, Add, Add5;
    var w := Expand(block);
    var a, b, c, d, e, f, g, h := state[0], state[1], state[2], state[3], state[4], state[5], state[6], state[7];
    ghost var start := Load(state[..]);
    var i := 0;
    while i < 64
      invariant 0 <= i <= 64 && Vars(a, b, c, d, e, f, g, h) == Rounds(start, block, i)
      invariant state[..] == old(state[..]) && forall j :: 0 <= j < 64 ==> w[j] == Schedule(block, j)
    {
      SameFunctions(e);
      SameFunctions(a);
      ghost var v := Vars(a, b, c, d, e, f, g, h);
      var t1 := Add5(h, Sigma1(e), Ch(e, f, g), K[i], w[i]);
      var t2 := Add(Sigma0(a), Maj(a, b, c));
      h := g;
      g := f;
      f := e;
      e := Add(d, t1);
      d := c;
      c := b;
      b := a;
      a := Add(t1, t2);
      RoundsNext(start, block, i, v, w[i]);
      i := i + 1;
    }
    Accumulate(state, a, b, c, d, e, f, g, h);
  }

  method Accumulate(state: array<bv32>, a: bv32, b: bv32, c: bv32, d: bv32, e: bv32, f: bv32, g: bv32, h: bv32)
    requires state.Length == 8
    modifies state
    ensures state[..] == Added(old(state[..]), Vars(a, b, c, d, e, f, g, h))
  {
    hide Add;
    state[0] := Add(state[0], a);
    state[1] := Add(state[1], b);
    state[2] := Add(state[2], c);
    state[3] := Add(state[3], d);
    state[4] := Add(state[4], e);
    state[5] := Add(state[5], f);
    state[6] := Add(state[6], g);
    state[7] := Add(state[7], h);
    assert state[..] == [state[0], state[1], state[2], state[3], state[4], state[5], state[6], state[7]];
  }

  // ---------------------------------------------------------------- folding pieces

  lemma {:induction false} FoldAppend(h: seq<bv32>, a: seq<byte>, b: seq<byte>)
    requires |h| == 8 && |a| % 64 == 0
    ensures Fold(h, a + b) == Fold(Fold(h, a), b)
    decreases |a|
  {
    hide Compress;
    if a == [] {
      assert a + b == b;
    } else {
      assert (a + b)[..64] == a[..64] && (a + b)[64..] == a[64..] + b;
      FoldAppend(Compress(h, a[..64]), a[64..], b);
    }
  }

  lemma FoldBlock(h: seq<bv32>, block: seq<byte>)
    requires |h| == 8 && |block| == 64
    ensures Fold(h, block) == Compress(h, block)
  {
    hide Compress;
    assert block[..64] == block && block[64..] == [];
  }

  // The whole blocks of m and the bytes after them.
  function Whole(m: seq<byte>): (r: seq<byte>)
    ensures |r| % 64 == 0 && r <= m
  {
    m[..|m| - |m| % 64]
  }

  function Rest(m: seq<byte>): (r: seq<byte>)
    ensures |r| == |m| % 64
    ensures Whole(m) + r == m
  {
    m[|m| - |m| % 64..]
  }

  lemma FoldWhole(h: seq<bv32>, m: seq<byte>)
    requires |h| == 8
    ensures Fold(h, m) == Fold(h, Whole(m))
  {
    FoldAppend(h, Whole(m), Rest(m));
  }

  // Bytes that do not fill the block stay in the buffer.
  lemma RestGrows(m: seq<byte>, x: seq<byte>)
    requires |m| % 64 + |x| < 64
    ensures Whole(m + x) == Whole(m) && Rest(m + x) == Rest(m) + x
  {
    assert |m + x| % 64 == |m| % 64 + |x|;
  }

  // Bytes that fill it are folded in, and the buffer is empty.
  lemma RestFills(m: seq<byte>, x: seq<byte>, block: seq<byte>)
    requires |m| % 64 + |x| == 64 && block == Rest(m) + x
    ensures |m + x| % 64 == 0 && Fold(H0, m + x) == Compress(Fold(H0, m), block)
  {
    hide Compress, Fold, Rest, Whole;
    assert Whole(m) + Rest(m) == m;
    Associate(Whole(m), Rest(m), x);
    FoldAppend(H0, Whole(m), block);
    FoldBlock(Fold(H0, Whole(m)), block);
    FoldWhole(H0, m);
    FilledLength(|m|, |x|);
  }

  lemma FilledLength(n: nat, k: nat)
    requires n % 64 + k == 64
    ensures (n + k) % 64 == 0
  {}

  lemma Associate(a: seq<byte>, b: seq<byte>, c: seq<byte>)
    ensures a + b + c == a + (b + c)
  {}

  // The context after any sequence of updates that adds up to m.
  class Context {
    const state: array<bv32>
    const buf: array<byte>
    var count: int

    ghost predicate Represents(m: seq<byte>)
      reads this, state, buf
    {
      Holding(m) && count == |m| % U64
    }

    ghost predicate Holding(m: seq<byte>)
      reads state, buf
    {
      state.Length == 8 && buf.Length == 64 && state[..] == Fold(H0, m) && buf[..|m| % 64] == Rest(m)
    }

    // sha256_init
    constructor ()
      ensures Represents([]) && fresh(state) && fresh(buf)
    {
      state := new bv32[8](i requires 0 <= i < 8 => H0[i]);
      buf := new byte[64];
      count := 0;
      new;
      assert state[..] == H0;
    }

    // One turn of the loop of sha256_update: n bytes of data go to the buffer, and a full buffer
    // is folded in.
    method Absorb(pos: int, data: seq<byte>, start: int, n: int, ghost m: seq<byte>) returns (pos': int)
      requires Holding(m) && pos == |m| % 64 && 0 <= start <= start + n <= |data| && n <= 64 - pos
      modifies state, buf
      ensures Holding(m + data[start..start + n]) && pos' == |m + data[start..start + n]| % 64
    {
      hide Fold, Compress, Rest, Whole;
      Copy(buf, pos, data, start, n);
      ghost var piece := data[start..start + n];
      pos' := pos + n;
      if pos' == 64 {
        assert buf[..pos'] == buf[..];
        RestFills(m, piece, buf[..]);
        Transform(state, buf[..]);
        pos' := 0;
      } else {
        RestGrows(m, piece);
        KeptFold(m, piece);
      }
    }

    // sha256_update
    method Update(data: seq<byte>, ghost m: seq<byte>)
      requires Represents(m) && |data| < U64
      modifies this, state, buf
      ensures Represents(m + data)
    {
      hide Holding;
      var pos := count % 64;
      count := (count + |data|) % U64;
      var done := 0;
      assert m + data[..done] == m;
      while done < |data|
        invariant 0 <= done <= |data|
        invariant Holding(m + data[..done]) && pos == |m + data[..done]| % 64
        invariant count == (|m| + |data|) % U64
      {
        var chunk := 64 - pos;
        if |data| - done < chunk {
          chunk := |data| - done;
        }
        assert m + data[..done + chunk] == m + data[..done] + data[done..done + chunk];
        pos := Absorb(pos, data, done, chunk, m + data[..done]);
        done := done + chunk;
      }
      assert m + data[..done] == m + data;
    }

    // sha256_final
    method Final(digest: array<byte>, ghost m: seq<byte>)
      requires Represents(m) && digest.Length == 32 && digest != buf
      modifies state, buf, digest
      ensures digest[..] == Digest(m)
    {
      hide Holding, NumberBytes, Digest;
      var totalBits := count * 8 % U64;
      LengthField(m);
      CountLow(|m|);
      Pad(count % 64, totalBits, digest, m);
    }

    // The marker, and a block of its own when the length does not fit beside it
    method Pad(start: int, bits: nat, digest: array<byte>, ghost m: seq<byte>)
      requires Holding(m) && start == |m| % 64 && NumberBytes(bits, 8) == NumberBytes(8 * |m|, 8)
      requires digest.Length == 32 && digest != buf
      modifies state, buf, digest
      ensures digest[..] == Digest(m)
    {
      hide Fold, Compress, Rest, Whole, NumberBytes, Output, Zeros, Padded;
      Mark(buf, start);
      var pos := start + 1;
      if pos > 56 {
        TwoTailBlocks(m);
        Clear(buf, pos, 64);
        assert buf[..64] == buf[..];
        Transform(state, buf[..]);
        pos := 0;
        assert buf[..pos] + Zeros(56) == Zeros(56);
      } else {
        OneTailBlock(m);
      }
      Finish(pos, bits, digest, Fold(H0, Padded(m)));
    }

    // The last block and the output
    method Finish(pos: int, bits: nat, digest: array<byte>, ghost h: seq<bv32>)
      requires state.Length == 8 && buf.Length == 64 && digest.Length == 32 && digest != buf && 0 <= pos <= 56
      requires Compress(state[..], buf[..pos] + Zeros(56 - pos) + NumberBytes(bits, 8)) == h
      modifies state, buf, digest
      ensures digest[..] == Output(h)
    {
      hide Compress, NumberBytes, Output, Zeros;
      Clear(buf, pos, 56);
      PutLength(buf, bits);
      Transform(state, buf[..]);
      PutDigest(state, digest);
    }
  }

  lemma CountLow(n: nat)
    ensures n % U64 % 64 == n % 64
  {}

  // The marker bit after the message
  method Mark(buf: array<byte>, pos: int)
    requires 0 <= pos < buf.Length
    modifies buf
    ensures buf[..pos + 1] == old(buf[..pos]) + [0x80]
  {
    buf[pos] := 0x80;
  }

  lemma KeptFold(m: seq<byte>, x: seq<byte>)
    requires |m| % 64 + |x| < 64
    ensures Fold(H0, m + x) == Fold(H0, m)
  {
    RestGrows(m, x);
    FoldWhole(H0, m);
    FoldWhole(H0, m + x);
  }

  // memcpy of n bytes of data to the buffer
  method Copy(buf: array<byte>, pos: int, data: seq<byte>, start: int, n: int)
    requires 0 <= pos && 0 <= n && pos + n <= buf.Length && 0 <= start <= start + n <= |data|
    modifies buf
    ensures buf[..pos + n] == old(buf[..pos]) + data[start..start + n] && buf[pos + n..] == old(buf[pos + n..])
  {
    var i := 0;
    while i < n
      invariant 0 <= i <= n
      invariant buf[..pos + i] == old(buf[..pos]) + data[start..start + i] && buf[pos + n..] == old(buf[pos + n..])
    {
      buf[pos + i] := data[start + i];
      i := i + 1;
    }
  }

  // memset of a part of the buffer to zero
  method Clear(buf: array<byte>, start: int, end: int)
    requires 0 <= start <= end <= buf.Length
    modifies buf
    ensures buf[..end] == old(buf[..start]) + Zeros(end - start) && buf[end..] == old(buf[end..])
  {
    var i := start;
    while i < end
      invariant start <= i <= end
      invariant buf[..i] == old(buf[..start]) + Zeros(i - start) && buf[end..] == old(buf[end..])
    {
      buf[i] := 0;
      i := i + 1;
    }
  }

  // n >> 8 * k
  function Shift8(n: nat, k: nat): nat {
    if k == 0 then n else Shift8(n / 256, k - 1)
  }

  lemma {:induction false} NumberByteAt(n: nat, k: nat, i: nat)
    requires i < k
    ensures NumberBytes(n, k)[i] == (Shift8(n, k - 1 - i) % 256) as bv8
  {
    if i < k - 1 {
      NumberByteAt(n / 256, k - 1, i);
    }
  }

  // The length field of the last block
  method PutLength(buf: array<byte>, bits: nat)
    requires buf.Length == 64
    modifies buf
    ensures buf[..] == old(buf[..56]) + NumberBytes(bits, 8)
  {
    hide NumberBytes, Shift8;
    var i := 0;
    while i < 8
      invariant 0 <= i <= 8
      invariant buf[..56] == old(buf[..56]) && buf[56..56 + i] == NumberBytes(bits, 8)[..i]
    {
      NumberByteAt(bits, 8, i);
      buf[56 + i] := (Shift8(bits, 7 - i) % 256) as bv8;
      i := i + 1;
    }
  }

  // Only the lowest bytes of a number matter.
  lemma {:induction false} NumberLow(n: nat, q: nat, k: nat)
    ensures NumberBytes(n + q * Pow256(k), k) == NumberBytes(n, k)
  {
    if k > 0 {
      var p := q * Pow256(k - 1);
      assert q * Pow256(k) == 256 * p;
      NumberLow(n / 256, q, k - 1);
    }
  }

  lemma LengthField(m: seq<byte>)
    ensures NumberBytes(|m| % U64 * 8 % U64, 8) == NumberBytes(8 * |m|, 8)
  {
    hide NumberBytes;
    assert Pow256(8) == U64;
    var q := BitCount(|m|);
    NumberLow(|m| % U64 * 8 % U64, q, 8);
  }

  // The 64-bit bit count falls short of the true one by a multiple of 2^64.
  lemma BitCount(n: nat) returns (q: nat)
    ensures 8 * n == n % U64 * 8 % U64 + q * U64
  {
    q := 8 * (n / U64) + n % U64 * 8 / U64;
  }

  lemma Regroup(w: seq<byte>, r: seq<byte>, a: seq<byte>, z: seq<byte>, l: seq<byte>)
    ensures w + r + a + z + l == w + (r + a + z + l)
  {}

  lemma Regroup2(r: seq<byte>, a: seq<byte>, z: seq<byte>, y: seq<byte>, l: seq<byte>)
    ensures r + a + (z + y) + l == (r + a + z) + (y + l)
  {}

  lemma ZeroCounts(n: nat)
    ensures n % 64 < 56 ==> ZeroCount(n) == 55 - n % 64
    ensures n % 64 >= 56 ==> ZeroCount(n) == 63 - n % 64 + 56
  {}

  // What follows the whole blocks of m.
  function Tail(m: seq<byte>): (r: seq<byte>) {
    Rest(m) + [0x80] + Zeros(ZeroCount(|m|)) + NumberBytes(8 * |m|, 8)
  }

  lemma FoldPadded(m: seq<byte>)
    ensures Fold(H0, Padded(m)) == Fold(Fold(H0, m), Tail(m))
  {
    hide Fold, Compress, NumberBytes, Rest, Whole, Zeros;
    Regroup(Whole(m), Rest(m), [0x80], Zeros(ZeroCount(|m|)), NumberBytes(8 * |m|, 8));
    assert Whole(m) + Rest(m) == m;
    FoldAppend(H0, Whole(m), Tail(m));
    FoldWhole(H0, m);
  }

  lemma OneTailBlock(m: seq<byte>)
    requires |m| % 64 < 56
    ensures Fold(H0, Padded(m))
         == Compress(Fold(H0, m), Rest(m) + [0x80] + Zeros(55 - |m| % 64) + NumberBytes(8 * |m|, 8))
  {
    hide Fold, Compress, NumberBytes, Rest, Zeros, Padded;
    ZeroCounts(|m|);
    FoldPadded(m);
    FoldBlock(Fold(H0, m), Tail(m));
  }

  lemma TwoTailBlocks(m: seq<byte>)
    requires |m| % 64 >= 56
    ensures Fold(H0, Padded(m))
         == Compress(Compress(Fold(H0, m), Rest(m) + [0x80] + Zeros(63 - |m| % 64)), Zeros(56) + NumberBytes(8 * |m|, 8))
  {
    hide Fold, Compress, NumberBytes, Rest, Padded, Tail, Zeros;
    var first := Rest(m) + [0x80] + Zeros(63 - |m| % 64);
    var second := Zeros(56) + NumberBytes(8 * |m|, 8);
    TailSplit(m);
    FoldPadded(m);
    FoldAppend(Fold(H0, m), first, second);
    FoldBlock(Fold(H0, m), first);
    FoldBlock(Compress(Fold(H0, m), first), second);
  }

  lemma TailSplit(m: seq<byte>)
    requires |m| % 64 >= 56
    ensures Tail(m) == (Rest(m) + [0x80] + Zeros(63 - |m| % 64)) + (Zeros(56) + NumberBytes(8 * |m|, 8))
  {
    hide NumberBytes, Rest, Zeros;
    var z := 63 - |m| % 64;
    ZeroCounts(|m|);
    ZerosJoin(z, 56);
    Regroup2(Rest(m), [0x80], Zeros(z), Zeros(56), NumberBytes(8 * |m|, 8));
  }

  lemma ZerosJoin(a: nat, b: nat)
    ensures Zeros(a + b) == Zeros(a) + Zeros(b)
  {}

  lemma {:induction false} OutputSnoc(h: seq<bv32>, w: bv32)
    ensures Output(h + [w]) == Output(h) + WordBytes(w)
  {
    hide WordBytes;
    if h == [] {
      assert h + [w] == [w];
      assert Output([w][1..]) == [];
    } else {
      OutputSnoc(h[1..], w);
      assert (h + [w])[1..] == h[1..] + [w];
    }
  }

  method PutDigest(state: array<bv32>, digest: array<byte>)
    requires state.Length == 8 && digest.Length == 32
    modifies digest
    ensures digest[..] == Output(state[..])
  {
    hide Output, WordBytes;
    var i := 0;
    assert Output(state[..0]) == digest[..0];
    while i < 8
      invariant 0 <= i <= 8 && digest[..4 * i] == Output(state[..i])
    {
      var bytes := WordBytes(state[i]);
      digest[4 * i] := bytes[0];
      digest[4 * i + 1] := bytes[1];
      digest[4 * i + 2] := bytes[2];
      digest[4 * i + 3] := bytes[3];
      OutputSnoc(state[..i], state[i]);
      assert state[..i + 1] == state[..i] + [state[i]];
      i := i + 1;
    }
    assert state[..8] == state[..];
  }

  // sha256_iter_next; heapOk tells whether a first context can be allocated
  method IterNext(ctx: Context?, data: seq<byte>, heapOk: bool, ghost m: seq<byte>) returns (c: Context?)
    requires ctx != null ==> ctx.Represents(m)
    requires ctx == null ==> m == []
    requires |data| < U64
    modifies if ctx != null then {ctx, ctx.state, ctx.buf} else {}
    ensures c == null <==> ctx == null && !heapOk
    ensures c != null ==> c.Represents(m + data)
    ensures ctx != null ==> c == ctx
    ensures ctx == null && c != null ==> fresh(c) && fresh(c.state) && fresh(c.buf)
  {
    c := ctx;
    if c == null {
      if !heapOk {
        return null;
      }
      c := new Context();
    }
    c.Update(data, m);
  }

  // sha256_iter_fin; without a context the output is left alone
  method IterFin(ctx: Context?, digest: array<byte>, ghost m: seq<byte>)
    requires ctx != null ==> ctx.Represents(m) && ctx.buf != digest
    requires digest.Length == 32
    modifies digest, if ctx != null then {ctx, ctx.state, ctx.buf} else {}
    ensures digest[..] == if ctx != null then Digest(m) else old(digest[..])
  {
    if ctx != null {
      ctx.Final(digest, m);
    }
  }

  // sha256
  method OneShot(data: seq<byte>, digest: array<byte>)
    requires |data| < U64 && digest.Length == 32
    modifies digest
    ensures digest[..] == Digest(data)
  {
    var ctx := new Context();
    ctx.Update(data, []);
    assert [] + data == data;
    ctx.Final(digest, data);
  }

  function Concat(chunks: seq<seq<byte>>): seq<byte> {
    if chunks == [] then [] else Concat(chunks[..|chunks| - 1]) + chunks[|chunks| - 1]
  }

  // Any message in any pieces: one call of the iterator for each piece, and a last one.
  method Hash(chunks: seq<seq<byte>>, heapOk: bool, digest: array<byte>) returns (ok: bool)
    requires digest.Length == 32 && chunks != []
    requires forall i :: 0 <= i < |chunks| ==> |chunks[i]| < U64
    modifies digest
    ensures ok == heapOk
    ensures ok ==> digest[..] == Digest(Concat(chunks))
    ensures !ok ==> digest[..] == old(digest[..])
  {
    hide Digest, Fold, Rest;
    var ctx: Context? := null;
    var i := 0;
    while i < |chunks|
      invariant 0 <= i <= |chunks| && digest[..] == old(digest[..])
      invariant if ctx == null then i == 0 else heapOk
      invariant ctx != null ==> fresh(ctx) && fresh(ctx.state) && fresh(ctx.buf) && ctx.Represents(Concat(chunks[..i]))
    {
      ghost var m := Concat(chunks[..i]);
      ctx := IterNext(ctx, chunks[i], heapOk, m);
      if ctx == null {
        return false;
      }
      assert chunks[..i + 1][..i] == chunks[..i];
      i := i + 1;
    }
    assert chunks[..i] == chunks;
    IterFin(ctx, digest, Concat(chunks));
    return true;
  }
}
