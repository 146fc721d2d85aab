/**
 The incremental interface of SHA-1: a context that takes a message in pieces of any lengths, with a count in two
 words and a buffer for the block that is not yet full.
 */
module Sha1 {

  import opened HashBlocks
  import opened Machine
  import opened Sha1Rounds

  // ----- the schedule in sixteen words -----

  /** The last word of the schedule before word i that is kept in cell s. */
  function LastBefore(i: nat, s: nat): (t: nat)
    requires s < 16 && s < i
    ensures t < i <= t + 16 && t % 16 == s
  {
    s + 16 * ((i - 1 - s) / 16)
  }

  function Loaded(block: seq<Byte>, s: nat): Word
    requires |block| == BLOCK && s < 16
  {
    LittleEndian(block[4 * s], block[4 * s + 1], block[4 * s + 2], block[4 * s + 3])
  }

  /** What the sixteen cells hold before round i: a cell not yet used holds the bytes as they were loaded. */
  ghost predicate Cells(c: seq<Word>, block: seq<Byte>, i: nat)
    requires |block| == BLOCK
  {
    |c| == 16 && forall s: nat :: s < 16 ==> c[s] == Cell(block, i, s)
  }

  ghost function Cell(block: seq<Byte>, i: nat, s: nat): Word
    requires |block| == BLOCK && s < 16
  {
    if s < i then Schedule(block, LastBefore(i, s)) else Loaded(block, s)
  }

  /** The cell that the circular schedule reads for the word k places back. */
  lemma Behind(i: nat, k: nat)
    requires i >= 16 && 1 <= k <= 16
    ensures (i + 16 - k) % 16 < i && LastBefore(i, (i + 16 - k) % 16) == i - k
  {
    assert (i + 16 - k) % 16 == (i - k) % 16;
  }

  /** After round i only the cell of word i has changed. */
  lemma NextCells(c: seq<Word>, block: seq<Byte>, i: nat)
    requires |block| == BLOCK && Cells(c, block, i)
    ensures Cells(c[i % 16 := Schedule(block, i)], block, i + 1)
  {
    hide Schedule, Loaded;
    var n := c[i % 16 := Schedule(block, i)];
    forall s: nat | s < 16 ensures n[s] == Cell(block, i + 1, s) {
      assert c[s] == Cell(block, i, s);
      SameLast(i, s);
    }
  }

  lemma SameLast(i: nat, s: nat)
    requires s < 16
    ensures s == i % 16 ==> s < i + 1 && LastBefore(i + 1, s) == i
    ensures s != i % 16 ==> (s < i <==> s < i + 1) && (s < i ==> LastBefore(i + 1, s) == LastBefore(i, s))
  {
  }

  lemma CellBehind(c: seq<Word>, block: seq<Byte>, i: nat, k: nat)
    requires |block| == BLOCK && Cells(c, block, i) && i >= 16 && 1 <= k <= 16
    ensures c[(i + 16 - k) % 16] == Schedule(block, i - k)
  {
    hide Loaded, LastBefore, Schedule;
    Behind(i, k);
    assert c[(i + 16 - k) % 16] == Cell(block, i, (i + 16 - k) % 16);
  }

  lemma NextWord(block: seq<Byte>, t: nat)
    requires |block| == BLOCK && t >= 16
    ensures Schedule(block, t)
         == Mixed(Schedule(block, t - 3), Schedule(block, t - 8), Schedule(block, t - 14), Schedule(block, t - 16))
  {
    hide Mixed;
  }

  /** The circular schedule computes word i of the schedule of 80 words (section 6.1.3 of FIPS 180-4). */
  lemma Circular(c: seq<Word>, block: seq<Byte>, i: nat)
    requires |block| == BLOCK && Cells(c, block, i) && i >= 16
    ensures Mixed(c[(i + 13) % 16], c[(i + 8) % 16], c[(i + 2) % 16], c[i % 16]) == Schedule(block, i)
  {
    hide Schedule, Mixed, Cell;
    CellBehind(c, block, i, 3);
    CellBehind(c, block, i, 8);
    CellBehind(c, block, i, 14);
    CellBehind(c, block, i, 16);
    NextWord(block, i);
  }

  /** The first sixteen words come out of the loaded bytes. */
  lemma Reversed(c: seq<Word>, block: seq<Byte>, i: nat)
    requires |block| == BLOCK && Cells(c, block, i) && i < 16
    ensures Swapped(c[i]) == Schedule(block, i)
  {
    hide LittleEndian, BigEndian, Swapped;
    assert c[i] == Cell(block, i, i);
    SwapReverses(block[4 * i], block[4 * i + 1], block[4 * i + 2], block[4 * i + 3]);
  }

  /** The schedule word that a macro takes, written to its cell. */
  method Blk(l: array<Word>, i: nat, ghost block: seq<Byte>) returns (w: Word)
    requires l.Length == 16 && |block| == BLOCK && Cells(l[..], block, i)
    modifies l
    ensures w == Schedule(block, i) && Cells(l[..], block, i + 1)
  {
    hide *;
    if i < 16 {
      Reversed(l[..], block, i);
      w := Swapped(l[i]);
    } else {
      Circular(l[..], block, i);
      w := Mixed(l[(i + 13) % 16], l[(i + 8) % 16], l[(i + 2) % 16], l[i % 16]);
    }
    NextCells(l[..], block, i);
    l[i % 16] := w;
    assert l[..] == old(l[..])[i % 16 := w];
  }

  lemma RoundCh(v: Word, w: Word, x: Word, y: Word, z: Word, i: nat, b: Word)
    requires i < 20
    ensures Accumulated(z, FastCh(w, x, y), b, 0x5A827999, Rol(v, 5)) == Shifted(Vars(v, w, x, y, z), i, b).a
  {
    hide Rol, Ch, FastCh, Maj, FastMaj, Accumulated, Total;
    FastLogical(w, x, y);
  }

  lemma RoundParity(v: Word, w: Word, x: Word, y: Word, z: Word, i: nat, b: Word, k: Word)
    requires (20 <= i < 40 && k == 0x6ED9EBA1) || (60 <= i < 80 && k == 0xCA62C1D6)
    ensures Accumulated(z, Parity(w, x, y), b, k, Rol(v, 5)) == Shifted(Vars(v, w, x, y, z), i, b).a
  {
    hide Rol, Parity, Accumulated, Total;
  }

  lemma RoundMaj(v: Word, w: Word, x: Word, y: Word, z: Word, i: nat, b: Word)
    requires 40 <= i < 60
    ensures Accumulated(z, FastMaj(w, x, y), b, 0x8F1BBCDC, Rol(v, 5)) == Shifted(Vars(v, w, x, y, z), i, b).a
  {
    hide Rol, Ch, FastCh, Maj, FastMaj, Accumulated, Total;
    FastLogical(w, x, y);
  }

  lemma ShiftedRest(v: Word, w: Word, x: Word, y: Word, z: Word, i: nat, b: Word, last: Word)
    requires last == Shifted(Vars(v, w, x, y, z), i, b).a
    ensures Vars(last, v, Rol(w, 30), x, y) == Shifted(Vars(v, w, x, y, z), i, b)
  {
    hide Rol, Logical, K, Total;
  }

  /** The macros R0 to R4: the round changes only the second and the last of the variables it is given. */
  method R(l: array<Word>, v: Word, w: Word, x: Word, y: Word, z: Word, i: nat, ghost block: seq<Byte>)
    returns (second: Word, last: Word)
    requires l.Length == 16 && |block| == BLOCK && i < 80 && Cells(l[..], block, i)
    modifies l
    ensures Cells(l[..], block, i + 1)
    ensures Vars(last, v, second, x, y) == Shifted(Vars(v, w, x, y, z), i, Schedule(block, i))
  {
    hide *;
    var b := Blk(l, i, block);
    if i < 20 {
      last := Accumulated(z, FastCh(w, x, y), b, 0x5A827999, Rol(v, 5));
      RoundCh(v, w, x, y, z, i, b);
    } else if i < 40 {
      last := Accumulated(z, Parity(w, x, y), b, 0x6ED9EBA1, Rol(v, 5));
      RoundParity(v, w, x, y, z, i, b, 0x6ED9EBA1);
    } else if i < 60 {
      last := Accumulated(z, FastMaj(w, x, y), b, 0x8F1BBCDC, Rol(v, 5));
      RoundMaj(v, w, x, y, z, i, b);
    } else {
      last := Accumulated(z, Parity(w, x, y), b, 0xCA62C1D6, Rol(v, 5));
      RoundParity(v, w, x, y, z, i, b, 0xCA62C1D6);
    }
    second := Rol(w, 30);
    ShiftedRest(v, w, x, y, z, i, b, last);
  }

  lemma NextRound(v: Vars, block: seq<Byte>, t: nat)
    requires |block| == BLOCK
    ensures Rounds(v, block, t + 1) == Shifted(Rounds(v, block, t), t, Schedule(block, t))
  {
  }

  /** The block function; five rounds take the variables through all their turns. */
  method Transform(state: Vars, block: seq<Byte>) returns (r: Vars)
    requires |block| == BLOCK
    ensures r == Compress(state, block)
  {
    hide *;
    var l := new Word[16](s requires 0 <= s < 16 => Loaded(block, s));
    FirstCells(l[..], block);
    var a, b, c, d, e := state.a, state.b, state.c, state.d, state.e;
    FirstRound(state, block);
    for n := 0 to 16
      invariant Cells(l[..], block, 5 * n)
      invariant Vars(a, b, c, d, e) == Rounds(state, block, 5 * n)
    {
      NextRound(state, block, 5 * n);
      b, e := R(l, a, b, c, d, e, 5 * n, block);
      NextRound(state, block, 5 * n + 1);
      a, d := R(l, e, a, b, c, d, 5 * n + 1, block);
      NextRound(state, block, 5 * n + 2);
      e, c := R(l, d, e, a, b, c, 5 * n + 2, block);
      NextRound(state, block, 5 * n + 3);
      d, b := R(l, c, d, e, a, b, 5 * n + 3, block);
      NextRound(state, block, 5 * n + 4);
      c, a := R(l, b, c, d, e, a, 5 * n + 4, block);
    }
    r := Sum(state, Vars(a, b, c, d, e));
    assert r == Compress(state, block) by {
      Summed(state, block);
    }
  }

  lemma Summed(state: Vars, block: seq<Byte>)
    requires |block| == BLOCK
    ensures Sum(state, Rounds(state, block, 80)) == Compress(state, block)
  {
    hide Rounds, Sum;
  }

  lemma FirstRound(v: Vars, block: seq<Byte>)
    requires |block| == BLOCK
    ensures Rounds(v, block, 0) == v
  {
  }

  lemma FirstCells(c: seq<Word>, block: seq<Byte>)
    requires |block| == BLOCK && |c| == 16
    requires forall s: nat :: s < 16 ==> c[s] == Loaded(block, s)
    ensures Cells(c, block, 0)
  {
  }

  // ----- the context -----

  /** The initial hash value (section 5.3.1 of FIPS 180-4). */
  function Initial(): Vars {
    Vars(0x67452301, 0xEFCDAB89, 0x98BADCFE, 0x10325476, 0xC3D2E1F0)
  }

  /** The working variables after all whole blocks of a message. */
  ghost function After(m: seq<Byte>): Vars {
    Fold(Compress, Initial(), m)
  }

  lemma AfterNothing()
    ensures After([]) == Initial()
  {
    hide Compress, Initial;
  }

  /** Byte k of a word, the most significant being number 0. */
  function ByteAt(w: Word, k: nat): Byte
    requires k < 4
  {
    match k
    case 0 => ((w >> 24) & 255) as Byte
    case 1 => ((w >> 16) & 255) as Byte
    case 2 => ((w >> 8) & 255) as Byte
    case _ => (w & 255) as Byte
  }

  function VarAt(v: Vars, i: nat): Word
    requires i < 5
  {
    match i case 0 => v.a case 1 => v.b case 2 => v.c case 3 => v.d case _ => v.e
  }

  function DigestOf(v: Vars): (d: seq<Byte>)
    ensures |d| == 20
  {
    seq(20, i requires 0 <= i < 20 => ByteAt(VarAt(v, i / 4), i % 4))
  }

  /** The four bytes of a word give back the word, so a digest tells the five variables. */
  lemma BytesOfWord(w: Word)
    ensures BigEndian(ByteAt(w, 0), ByteAt(w, 1), ByteAt(w, 2), ByteAt(w, 3)) == w
  {
    hide *;
    ByteShifts(w);
    JoinBytes(w);
  }

  lemma ByteShifts(w: Word)
    ensures ByteAt(w, 0) == ((w >> 24) & 255) as Byte && ByteAt(w, 1) == ((w >> 16) & 255) as Byte
    ensures ByteAt(w, 2) == ((w >> 8) & 255) as Byte && ByteAt(w, 3) == (w & 255) as Byte
  {
  }

  lemma JoinBytes(w: Word)
    ensures BigEndian(((w >> 24) & 255) as Byte, ((w >> 16) & 255) as Byte, ((w >> 8) & 255) as Byte,
        (w & 255) as Byte) == w
  {
  }

  /** The digest is the five variables in order, each with its most significant byte first. */
  lemma DigestWords(v: Vars, i: nat)
    requires i < 5
    ensures var d := DigestOf(v); BigEndian(d[4 * i], d[4 * i + 1], d[4 * i + 2], d[4 * i + 3]) == VarAt(v, i)
  {
    hide BigEndian, ByteAt, VarAt;
    BytesOfWord(VarAt(v, i));
  }

  lemma DigestInjective(v: Vars, u: Vars)
    requires DigestOf(v) == DigestOf(u)
    ensures v == u
  {
    hide BigEndian, VarAt, DigestOf;
    forall k: nat | k < 5 ensures VarAt(v, k) == VarAt(u, k) {
      DigestWords(v, k);
      DigestWords(u, k);
    }
    AllVars(v, u);
  }

  lemma AllVars(v: Vars, u: Vars)
    requires forall k: nat :: k < 5 ==> VarAt(v, k) == VarAt(u, k)
    ensures v == u
  {
    assert VarAt(v, 0) == VarAt(u, 0) && VarAt(v, 1) == VarAt(u, 1) && VarAt(v, 2) == VarAt(u, 2);
    assert VarAt(v, 3) == VarAt(u, 3) && VarAt(v, 4) == VarAt(u, 4);
  }

  /** The length in bits, most significant byte first (section 5.1.1 of FIPS 180-4). */
  function LengthBytes(n: nat): (s: seq<Byte>)
    ensures |s| == 8
  {
    seq(8, i requires 0 <= i < 8 => ByteOf(Bits(n), 7 - i))
  }

  /** The digest of a message: the block function folded over the padded message. */
  ghost function Hash(m: seq<Byte>): seq<Byte> {
    DigestOf(After(Padded(m, LengthBytes(|m|))))
  }

  /** The two words of the count of bits for a message of n bytes. */
  function Lower(n: nat): (w: nat)
    ensures w < WORD
  {
    8 * (n % 0x2000_0000)
  }

  function Upper(n: nat): (w: nat)
    ensures w < WORD
  {
    n / 0x2000_0000 % WORD
  }

  /** Byte i of the final count as the program picks it out of the two words of the count. */
  function FinalCount(lower: nat, upper: nat, i: nat): Byte
    requires i < 8
  {
    var w := if i >= 4 then lower else upper;
    var k := 3 - i % 4;
    ByteOf(w, k)
  }

  lemma FinalCountIsLength(n: nat, i: nat)
    requires i < 8
    ensures FinalCount(Lower(n), Upper(n), i) == LengthBytes(n)[i]
  {
    hide Digit;
    LengthByte(n, 7 - i);
  }

  /** The test for a full block is made in 32 bits: it goes wrong exactly when the sum wraps round to a small one. */
  lemma FullTest(j: nat, len: nat)
    requires j < BLOCK && len < WORD
    ensures ((j + len) % WORD > 63 <==> j + len > 63) <==> j + len < WORD
  {
  }

  /** Data of 2^32 - 1 bytes with one byte in the buffer: the program takes the branch for data that fits the block. */
  lemma FullTestWraps()
    ensures (1 + (WORD - 1)) % WORD <= 63
  {
  }

  lemma Keeps(m: seq<Byte>, d: seq<Byte>)
    requires |Rest(m)| + |d| < BLOCK
    ensures After(m + d) == After(m) && Rest(m + d) == Rest(m) + d && |m + d| % BLOCK == |Rest(m)| + |d|
  {
    hide Fold, Rest, Compress;
    Short(Compress, Initial(), m, d);
    RestLength(m + d);
  }

  /** Adds a number of bytes to the two words of the count. */
  method AddCount(count0: nat, count1: nat, len: nat, ghost n: nat) returns (lower: nat, upper: nat)
    requires len < WORD && count0 == Lower(n) && count1 == Upper(n)
    ensures lower == Lower(n + len) && upper == Upper(n + len)
  {
    hide *;
    CountsUp(n, len);
    lower := (count0 + len * 8 % WORD) % WORD;
    upper := count1;
    if lower < count0 {
      upper := (upper + 1) % WORD;
    }
    upper := (upper + len / 0x2000_0000) % WORD;
  }

  class Context {
    var state: Vars
    var count0: nat
    var count1: nat
    var buffer: array<Byte>
    ghost var message: seq<Byte>

    /** The state covers the whole blocks of the message, the buffer begins with the rest, and the count is exact. */
    ghost predicate Valid()
      reads this, buffer
    {
      && buffer.Length == BLOCK
      && state == After(message)
      && buffer[..|message| % BLOCK] == Rest(message)
      && Counted()
    }

    ghost predicate Counted()
      reads `count0, `count1, `message
    {
      count0 == Lower(|message|) && count1 == Upper(|message|)
    }

    lemma NewValid()
      requires buffer.Length == BLOCK && message == [] && state == Initial() && count0 == count1 == 0
      ensures Valid()
    {
      hide Initial, Fold, Compress, Lower, Upper, Rest;
      AfterNothing();
      RestLength(message);
      NoCount();
    }

    /** SHA1Init */
    constructor ()
      ensures Valid() && fresh(buffer) && message == []
    {
      hide *;
      state := Initial();
      count0, count1 := 0, 0;
      buffer := new Byte[BLOCK];
      message := [];
      new;
      NewValid();
    }

    /**
     SHA1Update.  If what is in the buffer and the data are 2^32 bytes or more, the test for a full block goes wrong,
     and all of the data would be copied to where less than a block is free: an overrun.
     */
    method Update(data: seq<Byte>) returns (overrun: bool)
      requires Valid() && |data| < WORD
      modifies this, buffer
      ensures overrun <==> |old(message)| % BLOCK + |data| >= WORD
      ensures buffer == old(buffer) && (!overrun ==> Valid() && message == old(message) + data)
    {
      hide Fold, Rest, Compress, Lower, Upper, After;
      var len := |data|;
      ghost var m := message + data;
      var j := count0;
      count0, count1 := AddCount(count0, count1, len, |message|);
      j := j / 8 % 64;
      LowBits(|message|);
      RestLength(message);
      FullTest(j, len);
      var i := 0;
      assert message + data[..0] == message;
      if (j + len) % WORD > 63 {
        i := Fill(j, data);
        j := 0;
      }
      if j + (len - i) > buffer.Length {
        return true;
      }
      overrun := false;
      Copy(buffer, j, data[i..]);
      Keeps(message + data[..i], data[i..]);
      assert message + data[..i] + data[i..] == m;
      message := m;
    }

    /** The data completes the block in the buffer, and may fill more. */
    method Fill(j: nat, data: seq<Byte>) returns (i: nat)
      requires buffer.Length == BLOCK && state == After(message)
      requires j == |message| % BLOCK && buffer[..j] == Rest(message) && BLOCK <= j + |data| < WORD
      modifies `state, buffer
      ensures i <= |data| < i + BLOCK
      ensures state == After(message + data[..i]) && Rest(message + data[..i]) == []
    {
      hide Fold, Rest, Compress;
      i := 64 - j;
      Copy(buffer, j, data[..i]);
      Fills(Compress, Initial(), message, data[..i]);
      assert buffer[..] == buffer[..j + i];
      state := Transform(state, buffer[..]);
      i := Blocks(data, i);
      RestLength(message + data[..i]);
    }

    /** The whole blocks of the data after the first i bytes. */
    method Blocks(data: seq<Byte>, first: nat) returns (i: nat)
      requires |data| < WORD && first <= |data|
      requires |message + data[..first]| % BLOCK == 0 && |message| % BLOCK + |data| < WORD
      requires state == After(message + data[..first])
      modifies `state
      ensures first <= i <= |data| < i + BLOCK
      ensures |message + data[..i]| % BLOCK == 0 && state == After(message + data[..i])
    {
      hide Fold, Rest, Compress;
      i := first;
      NoWrap(|message|, i, |data|);
      while (i + 63) % WORD < |data|
        invariant first <= i <= |data|
        invariant |message + data[..i]| % BLOCK == 0
        invariant state == After(message + data[..i])
        invariant i + 63 < WORD
      {
        var block := data[i..i + 64];
        assert message + data[..i + 64] == message + data[..i] + block;
        FoldOne(Compress, Initial(), message + data[..i], block);
        state := Transform(state, block);
        i := i + 64;
        NoWrap(|message|, i, |data|);
      }
    }

    /** SHA1Final, up to the wiping of the context. */
    method Final() returns (digest: seq<Byte>)
      requires Valid()
      modifies this, buffer
      ensures digest == Hash(old(message))
    {
      hide Fold, Rest, Compress, DigestOf;
      ghost var m := message;
      ghost var n := |m|;
      var lower, upper := count0, count1;
      var finalcount: seq<Byte> := seq(8, i requires 0 <= i < 8 => FinalCount(lower, upper, i));
      assert finalcount == LengthBytes(n) by {
        forall i: nat | i < 8 ensures finalcount[i] == LengthBytes(n)[i] { FinalCountIsLength(n, i); }
      }
      var overrun := Update([128]);
      ghost var z := 0;
      while count0 / 8 % 64 * 8 != 448
        invariant Valid() && buffer == old(buffer)
        invariant z <= Zeros(n) && message == m + [128] + Repeat(0, z)
        decreases Zeros(n) - z
      {
        LowBits(|message|);
        NotYet(n, z);
        overrun := Update([0]);
        assert Repeat(0, z) + [0] == Repeat(0, z + 1);
        z := z + 1;
      }
      LowBits(|message|);
      ZerosReached(n, z);
      overrun := Update(finalcount);
      assert message == Padded(m, LengthBytes(n));
      digest := DigestOf(state);
    }
  }

  lemma CountsUp(n: nat, len: nat)
    requires len < WORD
    ensures (Lower(n) + len * 8 % WORD) % WORD == Lower(n + len)
    ensures Lower(n + len) < Lower(n) ==> ((Upper(n) + 1) % WORD + len / 0x2000_0000) % WORD == Upper(n + len)
    ensures Lower(n + len) >= Lower(n) ==> (Upper(n) + len / 0x2000_0000) % WORD == Upper(n + len)
  {
    Carry(n, len, n % 0x2000_0000, (n + len) % 0x2000_0000);
    LowerWraps(n % 0x2000_0000, len);
    UpperWraps(n / 0x2000_0000, len / 0x2000_0000);
  }

  lemma LowerWraps(lo: nat, len: nat)
    requires len < WORD
    ensures (8 * lo + len * 8 % WORD) % WORD == 8 * ((lo + len) % 0x2000_0000)
  {
  }

  lemma NoCount()
    ensures Lower(0) == 0 && Upper(0) == 0
  {
  }

  lemma LowBits(n: nat)
    ensures Lower(n) / 8 % 64 == n % BLOCK
  {
    CountTells(n);
  }

  lemma RestLength(m: seq<Byte>)
    ensures |Rest(m)| == |m| % BLOCK
  {
  }

  /** The index stays so far below 2^32 that the loop's test does not wrap round. */
  lemma NoWrap(n: nat, i: nat, len: nat)
    requires (n + i) % BLOCK == 0 && i <= len && n % BLOCK + len < WORD
    ensures i + 63 < WORD
  {
  }

  lemma NotYet(n: nat, z: nat)
    requires z <= Zeros(n) && (n + 1 + z) % BLOCK != 56
    ensures z < Zeros(n)
  {
  }

  lemma ZerosReached(n: nat, z: nat)
    requires z <= Zeros(n) && (n + 1 + z) % BLOCK == 56
    ensures z == Zeros(n)
  {
  }

  /** After the pieces before number k, this one is too much for a call. */
  ghost predicate TooMuch(pieces: seq<seq<Byte>>, k: nat)
    requires k < |pieces|
  {
    |Concat(pieces[..k])| % BLOCK + |pieces[k]| >= WORD
  }

  /** However a message is cut into pieces, the digest is the same, as long as no piece is too much. */
  method HashPieces(pieces: seq<seq<Byte>>) returns (overrun: bool, digest: seq<Byte>)
    requires forall k :: 0 <= k < |pieces| ==> |pieces[k]| < WORD
    ensures overrun <==> exists k: nat :: k < |pieces| && TooMuch(pieces, k)
    ensures !overrun ==> digest == Hash(Concat(pieces))
  {
    hide Fold, Rest, Compress, Hash;
    var c := new Context();
    for k := 0 to |pieces|
      invariant c.Valid() && fresh(c) && fresh(c.buffer) && c.message == Concat(pieces[..k])
      invariant forall i: nat :: i < k ==> !TooMuch(pieces, i)
    {
      overrun := c.Update(pieces[k]);
      if overrun {
        assert TooMuch(pieces, k);
        return true, [];
      }
      assert pieces[..k + 1] == pieces[..k] + [pieces[k]];
      ConcatAppend(pieces[..k], pieces[k]);
    }
    assert pieces[..|pieces|] == pieces;
    overrun := false;
    digest := c.Final();
  }

  /** sha1 in hash.h: the length is passed on in 32 bits, so of longer data only so many bytes are hashed. */
  method Digest(data: seq<Byte>) returns (digest: seq<Byte>)
    ensures digest == Hash(data[..|data| % WORD])
    ensures |data| < WORD ==> digest == Hash(data)
  {
    hide Fold, Rest, Compress, Hash;
    var c := new Context();
    assert [] + data[..|data| % WORD] == data[..|data| % WORD];
    var overrun := c.Update(data[..|data| % WORD]);
    digest := c.Final();
    assert |data| < WORD ==> data[..|data| % WORD] == data;
  }
}
