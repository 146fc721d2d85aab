/**
 The incremental interface of MD5: the count of bytes in 29 bits and an upper word, the buffer, the blocks taken
 straight from the data, the padding written in place.
 */
module Md5 {

  import opened HashBlocks
  import opened Machine
  import opened Md5Rounds

  /** The initial values (section 3.3 of RFC 1321). */
  function Initial(): Vars {
    Vars(0x67452301, 0xefcdab89, 0x98badcfe, 0x10325476)
  }

  /** Byte k of a word, the least significant being number 0. */
  function ByteAt(w: Word, k: nat): Byte
    requires k < 4
  {
    match k
    case 0 => (w & 255) as Byte
    case 1 => ((w >> 8) & 255) as Byte
    case 2 => ((w >> 16) & 255) as Byte
    case _ => ((w >> 24) & 255) as Byte
  }

  function VarAt(v: Vars, i: nat): Word
    requires i < 4
  {
    match i case 0 => v.a case 1 => v.b case 2 => v.c case _ => v.d
  }

  function DigestOf(v: Vars): (d: seq<Byte>)
    ensures |d| == 16
  {
    seq(16, i requires 0 <= i < 16 => ByteAt(VarAt(v, i / 4), i % 4))
  }

  lemma BytesOfWord(w: Word)
    ensures LittleEndian(ByteAt(w, 0), ByteAt(w, 1), ByteAt(w, 2), ByteAt(w, 3)) == w
  {
    hide *;
    ByteShifts(w);
    JoinBytes(w);
  }

  lemma ByteShifts(w: Word)
    ensures ByteAt(w, 0) == (w & 255) as Byte && ByteAt(w, 1) == ((w >> 8) & 255) as Byte
    ensures ByteAt(w, 2) == ((w >> 16) & 255) as Byte && ByteAt(w, 3) == ((w >> 24) & 255) as Byte
  {
  }

  lemma JoinBytes(w: Word)
    ensures LittleEndian((w & 255) as Byte, ((w >> 8) & 255) as Byte, ((w >> 16) & 255) as Byte,
        ((w >> 24) & 255) as Byte)
         == w
  {
  }

  /** The digest is the four variables in order, each with its least significant byte first. */
  lemma DigestWords(v: Vars, i: nat)
    requires i < 4
    ensures var d := DigestOf(v); LittleEndian(d[4 * i], d[4 * i + 1], d[4 * i + 2], d[4 * i + 3]) == VarAt(v, i)
  {
    hide LittleEndian, ByteAt, VarAt;
    BytesOfWord(VarAt(v, i));
  }

  /** The length in bits, least significant byte first (section 3.2 of RFC 1321). */
  function LengthBytes(n: nat): (s: seq<Byte>)
    ensures |s| == 8
  {
    seq(8, i requires 0 <= i < 8 => ByteOf(Bits(n), i))
  }

  ghost function After(m: seq<Byte>): Vars {
    Fold(Compress, Initial(), m)
  }

  /** The digest of a message: the block function folded over the padded message. */
  ghost function Hash(m: seq<Byte>): seq<Byte> {
    DigestOf(After(Padded(m, LengthBytes(|m|))))
  }

  const LOW: nat := 0x2000_0000

  /** The two words of the count of bytes for a message of n bytes. */
  function Lower(n: nat): (w: nat)
    ensures w < LOW
  {
    n % LOW
  }

  function Upper(n: nat): (w: nat)
    ensures w < WORD
  {
    n / LOW % WORD
  }

  /** The last eight bytes as the program writes them: the lower word shifted by three, then the upper. */
  function FinalCount(lower: nat, upper: nat, i: nat): Byte {
    if i < 4 then ByteOf(lower * 8 % WORD, i) else ByteOf(upper, i - 4)
  }

  lemma FinalCountIsLength(n: nat, i: nat)
    requires i < 8
    ensures FinalCount(Lower(n), Upper(n), i) == LengthBytes(n)[i]
  {
    hide Digit;
    LengthByte(n, i);
  }

  lemma CountsUp(n: nat, size: nat)
    requires size < WORD2
    ensures (Lower(n) + size) % WORD2 % LOW == Lower(n + size)
    ensures Lower(n + size) < Lower(n) ==> ((Upper(n) + 1) % WORD + size / LOW) % WORD == Upper(n + size)
    ensures Lower(n + size) >= Lower(n) ==> (Upper(n) + size / LOW) % WORD == Upper(n + size)
  {
    LowerWraps(n, size);
    Carry(n, size, n % LOW, (n % LOW + size) % LOW);
    UpperWraps(n / LOW, size / LOW);
  }

  lemma LowerWraps(n: nat, size: nat)
    ensures (n % LOW + size) % WORD2 % LOW == (n % LOW + size) % LOW
  {
    var a := n % LOW + size;
    var q, r := a / WORD2, a % WORD2;
    assert a == LOW * (0x8_0000_0000 * q) + r;
    LowMultiple(0x8_0000_0000 * q, r);
  }

  lemma LowMultiple(q: nat, r: nat)
    ensures (LOW * q + r) % LOW == r % LOW
  {
  }

  lemma LowBits(n: nat)
    ensures Lower(n) % 64 == n % BLOCK
  {
    CountTells(n);
  }

  lemma NoCount()
    ensures Lower(0) == 0 && Upper(0) == 0
  {
  }

  lemma AfterNothing()
    ensures After([]) == Initial()
  {
    hide Initial, Compress;
  }

  /** Adds a number of bytes to the two words of the count. */
  method AddCount(lo: nat, hi: nat, size: nat, ghost n: nat) returns (lower: nat, upper: nat)
    requires size < WORD2 && lo == Lower(n) && hi == Upper(n)
    ensures lower == Lower(n + size) && upper == Upper(n + size)
  {
    hide *;
    CountsUp(n, size);
    lower := (lo + size) % WORD2 % LOW;
    upper := hi;
    if lower < lo {
      upper := (upper + 1) % WORD;
    }
    upper := (upper + size / LOW) % WORD;
  }

  lemma Keeps(m: seq<Byte>, d: seq<Byte>)
    requires |Rest(m)| + |d| < BLOCK
    ensures After(m + d) == After(m) && Rest(m + d) == Rest(m) + d
  {
    hide Fold, Rest, Compress;
    Short(Compress, Initial(), m, d);
  }

  lemma Completes(m: seq<Byte>, d: seq<Byte>)
    requires |Rest(m)| + |d| == BLOCK
    ensures After(m + d) == Compress(After(m), Rest(m) + d) && Rest(m + d) == []
  {
    hide Fold, Rest, Compress;
    Fills(Compress, Initial(), m, d);
  }

  lemma Continues(m: seq<Byte>, d: seq<Byte>)
    requires Rest(m) == []
    ensures After(m + d) == Fold(Compress, After(m), d) && |Rest(m + d)| == |d| % BLOCK
  {
    hide Fold, Rest, Initial, Compress;
    RestLength(m);
    RestLength(m + d);
    AddWhole(|m|, |d|);
    FoldConcat(Compress, Initial(), m, d);
  }

  lemma AddWhole(a: nat, b: nat)
    requires a % BLOCK == 0
    ensures (a + b) % BLOCK == b % BLOCK
  {
  }

  lemma RestLength(m: seq<Byte>)
    ensures |Rest(m)| == |m| % BLOCK
  {
  }

  /** The padding fills the block if eight bytes are left for the length, and another block if not. */
  lemma ZerosFit(n: nat)
    ensures n % BLOCK + 1 <= 56 ==> Zeros(n) == 56 - (n % BLOCK + 1)
    ensures n % BLOCK + 1 > 56 ==> Zeros(n) == 64 - (n % BLOCK + 1) + 56
  {
  }

  lemma RepeatSplit(b: Byte, k: nat, l: nat)
    ensures Repeat(b, k + l) == Repeat(b, k) + Repeat(b, l)
  {
  }

  class Context {
    var state: Vars
    var lo: nat
    var hi: nat
    var buffer: array<Byte>
    ghost var message: seq<Byte>

    /** The state covers the whole blocks of the message, the buffer begins with the rest, and the count is exact. */
    ghost predicate Valid()
      reads this, buffer
    {
      && buffer.Length == BLOCK
      && state == After(message)
      && buffer[..|message| % BLOCK] == Rest(message)
      && lo == Lower(|message|) && hi == Upper(|message|)
    }

    /** MD5_Init */
    constructor ()
      ensures Valid() && fresh(buffer) && message == []
    {
      hide Initial, Fold, Compress, Lower, Upper, Rest, After;
      state := Initial();
      lo, hi := 0, 0;
      buffer := new Byte[BLOCK];
      message := [];
      AfterNothing();
      RestLength([]);
      NoCount();
    }

    /** body: one or more whole blocks. */
    method Body(data: seq<Byte>)
      requires |data| > 0 && |data| % BLOCK == 0
      modifies `state
      ensures state == Fold(Compress, old(state), data)
    {
      hide Fold, Compress;
      var s := state;
      var i := 0;
      FoldConcat(Compress, old(state), [], data);
      while true
        invariant 0 <= i < |data| && i % BLOCK == 0
        invariant Fold(Compress, old(state), data) == Fold(Compress, s, data[i..])
        decreases |data| - i
      {
        OneBlock(Compress, s, data[i..]);
        s := Transform(s, data[i..i + 64]);
        assert data[i..][..BLOCK] == data[i..i + 64] && data[i..][BLOCK..] == data[i + 64..];
        i := i + 64;
        if i == |data| {
          break;
        }
      }
      FoldNothing(Compress, s);
      assert data[i..] == [];
      state := s;
    }

    /** MD5_Update */
    method Update(data: seq<Byte>)
      requires Valid() && |data| < WORD2
      modifies this, buffer
      ensures Valid() && buffer == old(buffer) && message == old(message) + data
    {
      hide Fold, Rest, Compress, After, Lower, Upper;
      ghost var m := message + data;
      var savedLo := lo;
      lo, hi := AddCount(lo, hi, |data|, |message|);
      var used := savedLo % 64;
      LowBits(|message|);
      RestLength(message);
      var rest := data;
      ghost var head := message;
      if used != 0 {
        var available := 64 - used;
        if |data| < available {
          Copy(buffer, used, data);
          Keeps(message, data);
          RestLength(m);
          message := m;
          return;
        }
        rest := data[available..];
        head := message + data[..available];
        assert head + rest == m;
        Copy(buffer, used, data[..available]);
        assert buffer[..] == buffer[..used + available];
        Flush(message, data[..available]);
      }
      Straight(head, rest);
      message := m;
    }

    /** The full buffer goes through the block function. */
    method Flush(ghost m: seq<Byte>, ghost d: seq<Byte>)
      requires buffer.Length == BLOCK && state == After(m) && buffer[..] == Rest(m) + d
      modifies `state
      ensures state == After(m + d) && Rest(m + d) == []
    {
      hide Fold, Rest, Compress, After;
      Completes(m, d);
      Body(buffer[..]);
      OneBlock(Compress, After(m), Rest(m) + d);
      assert (Rest(m) + d)[BLOCK..] == [] && (Rest(m) + d)[..BLOCK] == Rest(m) + d;
      FoldNothing(Compress, Compress(After(m), Rest(m) + d));
    }

    /** The whole blocks of the data go straight through the block function; what is left goes to the buffer. */
    method Straight(ghost head: seq<Byte>, data: seq<Byte>)
      requires buffer.Length == BLOCK && state == After(head) && Rest(head) == []
      modifies `state, buffer
      ensures state == After(head + data)
      ensures buffer[..|head + data| % BLOCK] == Rest(head + data)
    {
      hide Fold, Rest, Compress, After;
      var size := |data|;
      var whole := 0;
      if size >= 64 {
        whole := size - size % 64;
        Body(data[..whole]);
        Continues(head, data[..whole]);
        size := size % 64;
      }
      assert head + [] == head;
      Copy(buffer, 0, data[whole..]);
      Keeps(head + data[..whole], data[whole..]);
      assert head + data[..whole] + data[whole..] == head + data;
      RestLength(head + data);
    }

    /** The byte 128, and zeros to the end of the block if there is no room for the length. */
    method Mark() returns (used: nat, ghost m: seq<Byte>, ghost t: seq<Byte>)
      requires Valid()
      modifies `state, buffer
      ensures state == After(m) && used == |Rest(m)| + |t| <= 56 && buffer[..used] == Rest(m) + t
      ensures |message| % BLOCK + 1 <= 56 ==> m == message && t == [128]
      ensures |message| % BLOCK + 1 > 56
          ==> m == message + ([128] + Repeat(0, 63 - |message| % BLOCK)) && t == [] && Rest(m) == []
    {
      hide Fold, Rest, Compress, After, Lower, Upper, Repeat;
      m, t := message, [128];
      used := lo % 64;
      LowBits(|message|);
      RestLength(message);
      Copy(buffer, used, [128]);
      used := used + 1;
      var available := 64 - used;
      if available < 8 {
        ghost var d := [128] + Repeat(0, available);
        Copy(buffer, used, Repeat(0, available));
        assert buffer[..] == buffer[..used + available] == Rest(m) + d;
        Flush(m, d);
        m, t := m + d, [];
        used := 0;
      }
    }

    /** Zeros and the length, which end the block. */
    method Close(used: nat, length: seq<Byte>, ghost m: seq<Byte>, ghost t: seq<Byte>)
      requires buffer.Length == BLOCK && state == After(m) && |length| == 8
      requires used == |Rest(m)| + |t| <= 56 && buffer[..used] == Rest(m) + t
      modifies `state, buffer
      ensures state == After(m + (t + Repeat(0, 56 - used) + length))
    {
      hide Fold, Rest, Compress, After, Repeat;
      Copy(buffer, used, Repeat(0, 56 - used));
      ghost var zeros := t + Repeat(0, 56 - used);
      assert buffer[..56] == Rest(m) + zeros;
      Copy(buffer, 56, length);
      assert buffer[..] == buffer[..56 + 8] == Rest(m) + (zeros + length);
      Flush(m, zeros + length);
    }

    /** MD5_Final, up to the wiping of the context. */
    method Final() returns (result: seq<Byte>)
      requires Valid()
      modifies this, buffer
      ensures result == Hash(old(message))
    {
      hide Fold, Rest, Compress, After, DigestOf, Repeat, Padded, LengthBytes, Lower, Upper;
      var finalcount := Counts(lo, hi, |message|);
      var used;
      ghost var m, t;
      used, m, t := Mark();
      Close(used, finalcount, m, t);
      RestLength(message);
      if |message| % BLOCK + 1 > 56 {
        PaddedTwice(message, finalcount);
        assert t + Repeat(0, 56) == Repeat(0, 56);
      } else {
        PaddedOnce(message, finalcount);
      }
      result := DigestOf(state);
    }
  }

  method Counts(lower: nat, upper: nat, ghost n: nat) returns (s: seq<Byte>)
    requires lower == Lower(n) && upper == Upper(n)
    ensures s == LengthBytes(n)
  {
    hide Lower, Upper, FinalCount;
    s := seq(8, i requires 0 <= i < 8 => FinalCount(lower, upper, i));
    forall i: nat | i < 8 ensures s[i] == LengthBytes(n)[i] { FinalCountIsLength(n, i); }
  }

  /** The padding, written into one block or into two. */
  lemma PaddedOnce(m: seq<Byte>, length: seq<Byte>)
    requires |m| % BLOCK + 1 <= 56
    ensures m + ([128] + Repeat(0, 56 - (|m| % BLOCK + 1)) + length) == Padded(m, length)
  {
    hide Repeat;
    ZerosFit(|m|);
  }

  lemma PaddedTwice(m: seq<Byte>, length: seq<Byte>)
    requires |m| % BLOCK + 1 > 56
    ensures m + ([128] + Repeat(0, 63 - |m| % BLOCK)) + (Repeat(0, 56) + length) == Padded(m, length)
  {
    hide Repeat;
    ZerosFit(|m|);
    RepeatSplit(0, 63 - |m| % BLOCK, 56);
  }

  /** However a message is cut into pieces, the digest is the same. */
  method HashPieces(pieces: seq<seq<Byte>>) returns (digest: seq<Byte>)
    requires forall k :: 0 <= k < |pieces| ==> |pieces[k]| < WORD2
    ensures digest == Hash(Concat(pieces))
  {
    hide Fold, Rest, Compress, Hash, After, Lower, Upper;
    var c := new Context();
    for k := 0 to |pieces|
      invariant c.Valid() && fresh(c) && fresh(c.buffer) && c.message == Concat(pieces[..k])
    {
      c.Update(pieces[k]);
      assert pieces[..k + 1] == pieces[..k] + [pieces[k]];
      ConcatAppend(pieces[..k], pieces[k]);
    }
    assert pieces[..|pieces|] == pieces;
    digest := c.Final();
  }
}
