/**
 What SHA-1 and MD5 have in common: a block function folded over a padded message (sections 3.1 and 3.2 of
 RFC 1321, section 5.1.1 of FIPS 180-4), and a buffer that collects input until there is a block.
 */
module HashBlocks {

  import opened Machine

  type Byte = bv8

  const BLOCK: nat := 64
  const WORD2: nat := 0x1_0000_0000_0000_0000

  /** The block function folded over the whole blocks of a message. */
  ghost function Fold<S>(f: (S, seq<Byte>) -> S, s: S, m: seq<Byte>): S {
    if |m| < BLOCK then s else Fold(f, f(s, m[..BLOCK]), m[BLOCK..])
  }

  lemma {:induction false} FoldConcat<S>(f: (S, seq<Byte>) -> S, s: S, a: seq<Byte>, b: seq<Byte>)
    requires |a| % BLOCK == 0
    ensures Fold(f, s, a + b) == Fold(f, Fold(f, s, a), b)
    decreases |a|
  {
    if |a| < BLOCK {
      assert a == [] && a + b == b;
    } else {
      FoldConcat(f, f(s, a[..BLOCK]), a[BLOCK..], b);
      assert (a + b)[..BLOCK] == a[..BLOCK] && (a + b)[BLOCK..] == a[BLOCK..] + b;
    }
  }

  lemma FoldOne<S>(f: (S, seq<Byte>) -> S, s: S, a: seq<Byte>, b: seq<Byte>)
    requires |a| % BLOCK == 0 && |b| == BLOCK
    ensures Fold(f, s, a + b) == f(Fold(f, s, a), b)
  {
    FoldConcat(f, s, a, b);
    assert b[..BLOCK] == b && b[BLOCK..] == [];
  }

  lemma OneBlock<S>(f: (S, seq<Byte>) -> S, s: S, m: seq<Byte>)
    requires |m| >= BLOCK
    ensures Fold(f, s, m) == Fold(f, f(s, m[..BLOCK]), m[BLOCK..])
  {
  }

  lemma FoldNothing<S>(f: (S, seq<Byte>) -> S, s: S)
    ensures Fold(f, s, []) == s
  {
  }

  /** A message cut after its whole blocks. */
  function Whole(n: nat): (w: nat)
    ensures w <= n < w + BLOCK && w % BLOCK == 0 && n - w == n % BLOCK
  {
    n - n % BLOCK
  }

  /** Zeros to fill up a message and the byte 128 to 8 bytes less than a block. */
  function Zeros(n: nat): (z: nat)
    ensures z < BLOCK && (n + 1 + z) % BLOCK == 56
  {
    (119 - n % BLOCK) % BLOCK
  }

  function Repeat(b: Byte, n: nat): (s: seq<Byte>)
    ensures |s| == n && forall i :: 0 <= i < n ==> s[i] == b
  {
    seq(n, _ => b)
  }

  /** "abc", of which the digests are known. */
  function Abc(): seq<Byte> {
    [97, 98, 99]
  }

  /** A padded message; length gives the eight bytes that tell its length in bits. */
  ghost function Padded(m: seq<Byte>, length: seq<Byte>): seq<Byte> {
    m + [128] + Repeat(0, Zeros(|m|)) + length
  }

  /** Digit i of a number to base 256, the least significant being number 0. */
  function Digit(n: nat, i: nat): (d: nat)
    ensures d < 256
  {
    if i == 0 then n % 256 else Digit(n / 256, i - 1)
  }

  function ByteOf(n: nat, i: nat): Byte {
    Digit(n, i) as Byte
  }

  lemma ByteIs(n: nat, i: nat)
    ensures ByteOf(n, i) == Digit(n, i) as Byte
  {
  }

  lemma {:induction false} DigitOfByte(n: nat, i: nat)
    requires n < 256
    ensures Digit(n, i) == if i == 0 then n else 0
  {
    if i > 0 {
      DigitOfByte(0, i - 1);
    }
  }

  function Bytes(k: nat): (p: nat)
    ensures p > 0
  {
    if k == 0 then 1 else 256 * Bytes(k - 1)
  }

  /** The digits of lo and hi put together are those of lo and then those of hi. */
  lemma {:induction false} DigitSplit(lo: nat, hi: nat, k: nat, i: nat)
    requires lo < Bytes(k)
    ensures hi * Bytes(k) >= 0
    ensures Digit(hi * Bytes(k) + lo, i) == if i < k then Digit(lo, i) else Digit(hi, i - k)
    decreases k
  {
    if k > 0 {
      Halve(lo, hi, Bytes(k - 1));
      if i > 0 {
        DigitSplit(lo / 256, hi, k - 1, i - 1);
      }
    }
  }

  lemma Halve(lo: nat, hi: nat, p: nat)
    requires lo < 256 * p
    ensures lo / 256 < p && hi * p >= 0 && hi * (256 * p) >= 0
    ensures (hi * (256 * p) + lo) / 256 == hi * p + lo / 256 && (hi * (256 * p) + lo) % 256 == lo % 256
  {
    assert hi * (256 * p) == 256 * (hi * p);
  }

  /** The length of a message in bits, as the 64-bit number that is appended to it. */
  function Bits(n: nat): nat {
    8 * n % WORD2
  }

  /** The number with these digits, the least significant first. */
  function Value(s: seq<nat>): nat {
    if s == [] then 0 else s[0] + 256 * Value(s[1..])
  }

  function Digits(n: nat, k: nat): (s: seq<nat>)
    ensures |s| == k && forall i: nat :: i < k ==> s[i] == Digit(n, i)
  {
    seq(k, i requires 0 <= i < k => Digit(n, i))
  }

  lemma {:induction false} ValueOfDigits(n: nat, k: nat)
    requires n < Bytes(k)
    ensures Value(Digits(n, k)) == n
    decreases k
  {
    if k > 0 {
      assert Digits(n, k)[1..] == Digits(n / 256, k - 1);
      Halve(n, 0, Bytes(k - 1));
      ValueOfDigits(n / 256, k - 1);
    }
  }

  /** Eight bytes hold a length. */
  lemma LengthValue(n: nat)
    ensures Value(Digits(Bits(n), 8)) == Bits(n)
  {
    assert Bytes(8) == WORD2 by {
      assert Bytes(2) == 0x1_0000 && Bytes(4) == WORD && Bytes(6) == 0x1_0000_0000_0000;
    }
    ValueOfDigits(Bits(n), 8);
  }

  /** Counting bytes in two words, 29 bits of the count in the lower and 32 in the upper, is exact for 64 bits. */
  lemma TwoWords(n: nat)
    ensures Bits(n) == n / 0x2000_0000 % WORD * WORD + 8 * (n % 0x2000_0000)
  {
  }

  /** A byte of the length is a byte of one of the two words. */
  lemma LengthByte(n: nat, i: nat)
    requires i < 8
    ensures ByteOf(Bits(n), i) == if i < 4 then ByteOf(8 * (n % 0x2000_0000), i)
        else ByteOf(n / 0x2000_0000 % WORD, i - 4)
  {
    TwoWords(n);
    assert Bytes(4) == WORD by {
      assert Bytes(1) == 256 && Bytes(2) == 0x1_0000 && Bytes(3) == 0x100_0000;
    }
    DigitSplit(8 * (n % 0x2000_0000), n / 0x2000_0000 % WORD, 4, i);
  }

  /** Adding to the two words: the lower wraps round exactly when it becomes smaller, and then carries. */
  lemma Carry(n: nat, len: nat, lo: nat, k: nat)
    requires lo == n % 0x2000_0000 && k == (lo + len) % 0x2000_0000
    ensures k == (n + len) % 0x2000_0000
    ensures (n + len) / 0x2000_0000 == n / 0x2000_0000 + len / 0x2000_0000 + if k < lo then 1 else 0
  {
  }

  // ----- the buffer -----

  /** A partial block at the end of a message does not count yet. */
  lemma FoldTail<S>(f: (S, seq<Byte>) -> S, s: S, a: seq<Byte>, b: seq<Byte>)
    requires |a| % BLOCK == 0 && |b| < BLOCK
    ensures Fold(f, s, a + b) == Fold(f, s, a)
  {
    FoldConcat(f, s, a, b);
  }

  /** What a message has beyond its whole blocks. */
  function Rest(m: seq<Byte>): (r: seq<Byte>)
    ensures |r| == |m| % BLOCK
  {
    m[Whole(|m|)..]
  }

  lemma Cut(m: seq<Byte>) returns (w: seq<Byte>)
    ensures m == w + Rest(m) && |w| % BLOCK == 0 && |Rest(m)| < BLOCK
  {
    w := m[..Whole(|m|)];
  }

  lemma RestOf(w: seq<Byte>, r: seq<Byte>)
    requires |w| % BLOCK == 0 && |r| < BLOCK
    ensures Rest(w + r) == r
  {
    assert Whole(|w + r|) == |w|;
  }

  /** Data that does not fill the block only lengthens the rest. */
  lemma Short<S>(f: (S, seq<Byte>) -> S, s: S, m: seq<Byte>, d: seq<Byte>)
    requires |Rest(m)| + |d| < BLOCK
    ensures Fold(f, s, m + d) == Fold(f, s, m) && Rest(m + d) == Rest(m) + d
  {
    hide *;
    var w := Cut(m);
    assert m + d == w + (Rest(m) + d);
    FoldTail(f, s, w, Rest(m));
    FoldTail(f, s, w, Rest(m) + d);
    RestOf(w, Rest(m) + d);
  }

  /** Data that fills the block exactly. */
  lemma Fills<S>(f: (S, seq<Byte>) -> S, s: S, m: seq<Byte>, d: seq<Byte>)
    requires |Rest(m)| + |d| == BLOCK
    ensures Fold(f, s, m + d) == f(Fold(f, s, m), Rest(m) + d)
    ensures |m + d| % BLOCK == 0 && Rest(m + d) == []
  {
    hide *;
    var w := Cut(m);
    var b := Rest(m) + d;
    assert m + d == w + b;
    FoldTail(f, s, w, Rest(m));
    FoldOne(f, s, w, b);
    Multiple(|w|);
    RestOf(w + b, []);
    assert w + b + [] == w + b;
  }

  lemma Multiple(n: nat)
    requires n % BLOCK == 0
    ensures (n + BLOCK) % BLOCK == 0
  {
  }

  lemma UpperWraps(hi: nat, k: nat)
    ensures ((hi % WORD + 1) % WORD + k) % WORD == (hi + 1 + k) % WORD
    ensures (hi % WORD + k) % WORD == (hi + k) % WORD
  {
    AddMod(hi, 1);
    AddMod(hi + 1, k);
    AddMod(hi, k);
  }

  lemma AddMod(a: nat, b: nat)
    ensures (a % WORD + b) % WORD == (a + b) % WORD
  {
  }

  /** The low bits of a count tell how full the buffer is. */
  lemma CountTells(n: nat)
    ensures n % 0x2000_0000 % 64 == n % BLOCK
  {
    var q, r := n / 0x2000_0000, n % 0x2000_0000;
    AddMultiple(0x80_0000 * q, r);
    assert n == 64 * (0x80_0000 * q) + r;
  }

  lemma AddMultiple(q: nat, r: nat)
    ensures (64 * q + r) % 64 == r % 64
  {
  }
}
