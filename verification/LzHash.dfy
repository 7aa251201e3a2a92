/** The hash of the next four bytes (`HASH4_CALC` in LzHash.h), on numbers: the
  * exclusive or is computed bit by bit, masks are remainders. */
module LzHash {
  import opened Arith
  import opened Bits
  import opened Words

  const HASH2_SIZE := 0x400
  const HASH3_SIZE := 0x1_0000
  const FIX4_HASH_SIZE := 0x1_0400  // kHash2Size + kHash3Size

  type CrcTable = t: seq<nat> | |t| == 256 witness seq(256, _ => 0)

  function Temp2(crc: CrcTable, c0: Byte, c1: Byte): nat { Xor(crc[c0], c1) }

  function Temp3(crc: CrcTable, c0: Byte, c1: Byte, c2: Byte): nat { Xor(Temp2(crc, c0, c1), c2 * 256 as nat) }

  function Hash2(crc: CrcTable, c0: Byte, c1: Byte): (h: nat)
    ensures h < HASH2_SIZE
  {
    Temp2(crc, c0, c1) % HASH2_SIZE
  }

  function Hash3(crc: CrcTable, c0: Byte, c1: Byte, c2: Byte): (h: nat)
    ensures h < HASH3_SIZE
  {
    Temp3(crc, c0, c1, c2) % HASH3_SIZE
  }

  /** The mask of the main table is one less than a power of two, its size. */
  function Hash4(crc: CrcTable, size: nat, c0: Byte, c1: Byte, c2: Byte, c3: Byte): (h: nat)
    requires size > 0
    ensures h < size
  {
    Xor(Temp3(crc, c0, c1, c2), (crc[c3] * 32) % WORD) % size
  }

  /** Equal first bytes and equal two-byte hashes force equal second bytes. */
  lemma Hash2Forces(crc: CrcTable, c0: Byte, c1: Byte, e1: Byte)
    requires Hash2(crc, c0, c1) == Hash2(crc, c0, e1)
    ensures c1 == e1
  {
    hide Xor, Pow2;
    PowerSizes();
    XorCancels(crc[c0], c1, e1, 10);
    BelowModulus(c1, Pow2(10));
    BelowModulus(e1, Pow2(10));
  }

  /** Equal first bytes and equal three-byte hashes force equal three bytes. */
  lemma Hash3Forces(crc: CrcTable, c0: Byte, c1: Byte, c2: Byte, e1: Byte, e2: Byte)
    requires Hash3(crc, c0, c1, c2) == Hash3(crc, c0, e1, e2)
    ensures c1 == e1 && c2 == e2
  {
    hide Xor, Pow2;
    PowerSizes();
    var x, y := Temp2(crc, c0, c1), Temp2(crc, c0, e1);
    LowOf16(Temp3(crc, c0, c1, c2));
    LowOf16(Temp3(crc, c0, e1, e2));
    ByteHigh(c2);
    ByteHigh(e2);
    XorHighOnly(x, c2 * 256 as nat, 8);
    XorHighOnly(y, e2 * 256 as nat, 8);
    XorCancels(crc[c0], c1, e1, 8);
    BelowModulus(c1, Pow2(8));
    BelowModulus(e1, Pow2(8));
    XorCancels(x, c2 * 256 as nat, e2 * 256 as nat, 16);
  }

  lemma PowerSizes()
    ensures Pow2(0) == 1 && Pow2(8) == 256 && Pow2(10) == HASH2_SIZE && Pow2(16) == HASH3_SIZE
  {
    assert Pow2(4) == 16;
    Pow2Split(4, 4);
    Pow2Split(8, 8);
    Pow2Split(8, 2);
    assert Pow2(2) == 4;
  }

  lemma BelowModulus(x: nat, m: nat)
    requires x < m
    ensures x % m == x
  {
  }

  lemma LowOf16(x: nat)
    ensures (x % HASH3_SIZE) % 256 == x % 256
  {
  }

  lemma ByteHigh(c: Byte)
    ensures (c as int * 256) % 256 == 0 && (c as int * 256) % HASH3_SIZE == c as int * 256
  {
  }
}
