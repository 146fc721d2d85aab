/**
 The block function of SHA-1. The specification is section 6.1.2 of FIPS 180-4: a schedule of 80 words and 80 rounds
 that shift five working variables. The program keeps 16 words of the schedule in place and, instead of shifting,
 lets the variables take turns.
 */
module Sha1Rounds {

  import opened HashBlocks

  type Word = bv32

  datatype Vars = Vars(a: Word, b: Word, c: Word, d: Word, e: Word)

  // ----- section 6.1.2 of FIPS 180-4 -----

  function Rol(x: Word, n: nat): Word
    requires 0 < n < 32
  {
    (x << n) | (x >> (32 - n))
  }

  /** The word with these bytes, the most significant first. */
  function BigEndian(b0: Byte, b1: Byte, b2: Byte, b3: Byte): Word {
    (b0 as Word << 24) | (b1 as Word << 16) | (b2 as Word << 8) | b3 as Word
  }

  /** The sum of a round, modulo 2^32. */
  function Total(r: Word, f: Word, e: Word, k: Word, w: Word): Word {
    r + f + e + k + w
  }

  function Plus(x: Word, y: Word): Word {
    x + y
  }

  /** The exclusive or of four words of the schedule, rotated by one. */
  function Mixed(w: Word, x: Word, y: Word, z: Word): Word {
    Rol(w ^ x ^ y ^ z, 1)
  }

  function WordAt(block: seq<Byte>, t: nat): Word
    requires |block| == BLOCK && t < 16
  {
    BigEndian(block[4 * t], block[4 * t + 1], block[4 * t + 2], block[4 * t + 3])
  }

  /** Word t of the message schedule. */
  function Schedule(block: seq<Byte>, t: nat): Word
    requires |block| == BLOCK
  {
    if t < 16 then WordAt(block, t)
    else Mixed(Schedule(block, t - 3), Schedule(block, t - 8), Schedule(block, t - 14), Schedule(block, t - 16))
  }

  function Ch(x: Word, y: Word, z: Word): Word {
    (x & y) ^ (!x & z)
  }

  function Parity(x: Word, y: Word, z: Word): Word {
    x ^ y ^ z
  }

  function Maj(x: Word, y: Word, z: Word): Word {
    (x & y) ^ (x & z) ^ (y & z)
  }

  function Logical(t: nat, x: Word, y: Word, z: Word): Word {
    if t < 20 then Ch(x, y, z) else if t < 40 then Parity(x, y, z) else if t < 60 then Maj(x, y, z) else Parity(x, y, z)
  }

  function K(t: nat): Word {
    if t < 20 then 0x5A827999 else if t < 40 then 0x6ED9EBA1 else if t < 60 then 0x8F1BBCDC else 0xCA62C1D6
  }

  /** One round: all five variables shift. */
  function Shifted(v: Vars, t: nat, w: Word): Vars {
    Vars(Total(Rol(v.a, 5), Logical(t, v.b, v.c, v.d), v.e, K(t), w), v.a, Rol(v.b, 30), v.c, v.d)
  }

  function Rounds(v: Vars, block: seq<Byte>, t: nat): Vars
    requires |block| == BLOCK
  {
    if t == 0 then v else Shifted(Rounds(v, block, t - 1), t - 1, Schedule(block, t - 1))
  }

  function Sum(v: Vars, w: Vars): Vars {
    Vars(Plus(v.a, w.a), Plus(v.b, w.b), Plus(v.c, w.c), Plus(v.d, w.d), Plus(v.e, w.e))
  }

  /** The block function. */
  function Compress(v: Vars, block: seq<Byte>): Vars {
    if |block| == BLOCK then Sum(v, Rounds(v, block, 80)) else v
  }

  // ----- the macros -----

  /** What a macro adds to its last variable: the same five terms as a round, in another order. */
  function Accumulated(z: Word, f: Word, w: Word, k: Word, r: Word): (s: Word)
    ensures s == Total(r, f, z, k, w)
  {
    z + (f + w + k + r)
  }

  function FastCh(x: Word, y: Word, z: Word): Word {
    (x & (y ^ z)) ^ z
  }

  function FastMaj(x: Word, y: Word, z: Word): Word {
    ((x | y) & z) | (x & y)
  }

  lemma FastLogical(x: Word, y: Word, z: Word)
    ensures FastCh(x, y, z) == Ch(x, y, z) && FastMaj(x, y, z) == Maj(x, y, z)
  {
    hide *;
    FastBodies(x, y, z);
    ChBits(x, y, z);
    MajBits(x, y, z);
  }

  lemma FastBodies(x: Word, y: Word, z: Word)
    ensures FastCh(x, y, z) == (x & (y ^ z)) ^ z && FastMaj(x, y, z) == ((x | y) & z) | (x & y)
  {
  }

  lemma ChBits(x: Word, y: Word, z: Word)
    ensures (x & (y ^ z)) ^ z == Ch(x, y, z)
  {
  }

  lemma MajBits(x: Word, y: Word, z: Word)
    ensures ((x | y) & z) | (x & y) == Maj(x, y, z)
  {
  }

  /** The word that a little-endian machine reads from four bytes. */
  function LittleEndian(b0: Byte, b1: Byte, b2: Byte, b3: Byte): Word {
    b0 as Word | (b1 as Word << 8) | (b2 as Word << 16) | (b3 as Word << 24)
  }

  /** Two rotations and two masks. */
  function Swapped(x: Word): Word {
    (Rol(x, 24) & 0xFF00FF00) | (Rol(x, 8) & 0x00FF00FF)
  }

  /** They reverse the bytes of a word. */
  lemma SwapReverses(b0: Byte, b1: Byte, b2: Byte, b3: Byte)
    ensures Swapped(LittleEndian(b0, b1, b2, b3)) == BigEndian(b0, b1, b2, b3)
  {
    hide *;
    Unswapped(LittleEndian(b0, b1, b2, b3));
    Reverses(b0, b1, b2, b3);
  }

  lemma Unswapped(x: Word)
    ensures Swapped(x) == (Rol(x, 24) & 0xFF00FF00) | (Rol(x, 8) & 0x00FF00FF)
  {
    hide Rol;
  }

  lemma Reverses(b0: Byte, b1: Byte, b2: Byte, b3: Byte)
    ensures (Rol(LittleEndian(b0, b1, b2, b3), 24) & 0xFF00FF00) | (Rol(LittleEndian(b0, b1, b2, b3), 8) & 0x00FF00FF)
         == BigEndian(b0, b1, b2, b3)
  {
  }
}
