// Bytes as 8-bit vectors, shared by the string, hash, checksum and stack models.
module Bytes {
  type byte = bv8

  // The byte of value x, bit by bit.
  function ByteOf(x: nat): (b: byte)
    requires x < 256
    ensures b as nat == x
  {
    if x == 0 then 0
    else
      var half := ByteOf(x / 2);
      Doubled(half);
      if x % 2 == 0 then 2 * half else 2 * half + 1
  }

  lemma Doubled(b: byte)
    requires (b as nat) < 128
    ensures (2 * b) as nat == 2 * (b as nat) && (2 * b + 1) as nat == 2 * (b as nat) + 1
  {
    assert b < 128;
  }
}
