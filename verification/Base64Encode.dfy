/**
 Base64 (section 4 of RFC 4648): the encoder of base64.c, which moves bits through an accumulator, against the
 definition by groups of three bytes and four characters.
 */
module Base64Encoding {

  import opened Machine

  type Byte = x: int | 0 <= x < 256

  const PAD: char := '='

  // ----- the alphabet -----

  function Enc(v: nat): (c: char)
    requires v < 64
    ensures c != PAD && Dec(c) == v
  {
    if v < 26 then 'A' + v as char
    else if v < 52 then 'a' + (v - 26) as char
    else if v < 62 then '0' + (v - 52) as char
    else if v == 62 then '+' else '/'
  }

  /** The decoding table, in which the padding stands for 0 and -1 for what is not valid. */
  function Dec(c: char): (v: int)
    ensures -1 <= v < 64
  {
    if 'A' <= c <= 'Z' then c as int - 'A' as int
    else if 'a' <= c <= 'z' then c as int - 'a' as int + 26
    else if '0' <= c <= '9' then c as int - '0' as int + 52
    else if c == '+' then 62 else if c == '/' then 63 else if c == PAD then 0 else -1
  }

  predicate Valid(c: char) {
    Dec(c) != -1
  }

  /** Table 1 of RFC 4648: the upper-case letters, the lower-case letters, the digits, '+' and '/'. */
  lemma Alphabet(v: nat)
    requires v < 64
    ensures Enc(0) == 'A' && Enc(25) == 'Z' && Enc(26) == 'a' && Enc(51) == 'z' && Enc(52) == '0' && Enc(61) == '9'
    ensures Enc(62) == '+' && Enc(63) == '/'
    ensures v < 61 && v != 25 && v != 51 ==> Enc(v + 1) as int == Enc(v) as int + 1
  {
    assert v < 26 ==> Enc(v) as int == 65 + v;
    assert 26 <= v < 52 ==> Enc(v) as int == 97 + (v - 26);
    assert 52 <= v < 62 ==> Enc(v) as int == 48 + (v - 52);
  }

  // ----- encoding -----

  /** The four characters of a group: six bits each of three bytes. */
  function First(a: Byte): char {
    Enc(a / 4)
  }

  function Second(a: Byte, b: Byte): char {
    Enc(a % 4 * 16 + b / 16)
  }

  function Third(b: Byte, c: Byte): char {
    Enc(b % 16 * 4 + c / 64)
  }

  function Fourth(c: Byte): char {
    Enc(c % 64)
  }

  /** The encoding as RFC 4648 defines it. */
  function Encoded(s: seq<Byte>): string {
    if |s| == 0 then ""
    else if |s| == 1 then [First(s[0]), Second(s[0], 0), PAD, PAD]
    else if |s| == 2 then [First(s[0]), Second(s[0], s[1]), Third(s[1], 0), PAD]
    else [First(s[0]), Second(s[0], s[1]), Third(s[1], s[2]), Fourth(s[2])] + Encoded(s[3..])
  }

  lemma EncodedMore(s: seq<Byte>)
    requires |s| >= 3
    ensures Encoded(s) == [First(s[0]), Second(s[0], s[1]), Third(s[1], s[2]), Fourth(s[2])] + Encoded(s[3..])
  {
    hide First, Second, Third, Fourth;
  }

  lemma EncodedShort(a: Byte, b: Byte)
    ensures Encoded([]) == ""
    ensures Encoded([a]) == [First(a), Second(a, 0), PAD, PAD]
    ensures Encoded([a, b]) == [First(a), Second(a, b), Third(b, 0), PAD]
  {
    hide First, Second, Third, Fourth;
  }

  lemma {:induction false} EncodedSplit(s: seq<Byte>, t: seq<Byte>)
    requires |s| % 3 == 0
    ensures Encoded(s + t) == Encoded(s) + Encoded(t)
    decreases |s|
  {
    hide *;
    EncodedShort(0, 0);
    if s == [] {
      assert s + t == t;
    } else {
      EncodedSplit(s[3..], t);
      assert (s + t)[3..] == s[3..] + t;
      EncodedMore(s);
      EncodedMore(s + t);
    }
  }

  /** A group is the number that its three bytes make, to base 64. */
  lemma GroupIs(a: Byte, b: Byte, c: Byte)
    ensures 262144 * Dec(First(a)) + 4096 * Dec(Second(a, b)) + 64 * Dec(Third(b, c)) + Dec(Fourth(c))
         == 65536 * a + 256 * b + c
  {
    hide Enc, Dec;
  }

  lemma KnownChars()
    ensures Enc(3) == 'D' && Enc(9) == 'J' && Enc(12) == 'M' && Enc(13) == 'N' && Enc(14) == 'O' && Enc(16) == 'Q'
    ensures Enc(17) == 'R' && Enc(19) == 'T' && Enc(20) == 'U' && Enc(22) == 'W' && Enc(24) == 'Y' && Enc(35) == 'j'
    ensures Enc(37) == 'l' && Enc(38) == 'm' && Enc(51) == 'z' && Enc(52) == '0' && Enc(53) == '1' && Enc(54) == '2'
  {
  }

  lemma KnownGroups()
    ensures [First(51), Second(51, 51), Third(51, 51), Fourth(51)] == "MzMz"
    ensures [First(52), Second(52, 52), Third(52, 52), Fourth(52)] == "NDQ0"
    ensures [First(53), Second(53, 53), Third(53, 53), Fourth(53)] == "NTU1"
    ensures [First(54), Second(54, 54), Third(54, 54), Fourth(54)] == "NjY2"
    ensures [First(97), Second(97, 98), Third(98, 99), Fourth(99)] == "YWJj"
    ensures [First(58), Second(58, 100), Third(100, 101), Fourth(101)] == "OmRl"
  {
    hide Enc, Dec;
    KnownChars();
  }

  lemma KnownEnds()
    ensures [First(49), Second(49, 0), PAD, PAD] == "MQ==" && [First(50), Second(50, 50), Third(50, 0), PAD] == "MjI="
    ensures [First(52), Second(52, 0), PAD, PAD] == "NA==" && [First(53), Second(53, 53), Third(53, 0), PAD] == "NTU="
    ensures [First(102), Second(102, 0), PAD, PAD] == "Zg=="
  {
  }

  /** The answers that base64_test.cc lists. */
  lemma KnownAnswers()
    ensures Encoded([]) == "" && Encoded([49]) == "MQ==" && Encoded([50, 50]) == "MjI="
    ensures Encoded([51, 51, 51]) == "MzMz" && Encoded([52, 52, 52, 52]) == "NDQ0NA=="
    ensures Encoded([53, 53, 53, 53, 53]) == "NTU1NTU=" && Encoded([54, 54, 54, 54, 54, 54]) == "NjY2NjY2"
    ensures Encoded([97, 98, 99, 58, 100, 101, 102]) == "YWJjOmRlZg=="
  {
    hide *;
    KnownGroups();
    KnownEnds();
    EncodedShort(49, 0);
    EncodedShort(50, 50);
    EncodedSplit([51, 51, 51], []);
    EncodedMore([51, 51, 51]);
    EncodedShort(52, 0);
    EncodedMore([52, 52, 52, 52]);
    assert [52, 52, 52, 52][3..] == [52];
    EncodedShort(53, 53);
    EncodedMore([53, 53, 53, 53, 53]);
    assert [53, 53, 53, 53, 53][3..] == [53, 53];
    EncodedMore([54, 54, 54, 54, 54, 54]);
    EncodedMore([54, 54, 54]);
    assert [51, 51, 51][3..] == [54, 54, 54][3..] == [] && [54, 54, 54, 54, 54, 54][3..] == [54, 54, 54];
    EncodedMore([97, 98, 99, 58, 100, 101, 102]);
    EncodedMore([58, 100, 101, 102]);
    EncodedShort(102, 0);
    assert [97, 98, 99, 58, 100, 101, 102][3..] == [58, 100, 101, 102] && [58, 100, 101, 102][3..] == [102];
  }

  function EncodeLen(n: nat): nat {
    if n > 0 then (n + 2) / 3 * 4 else 0
  }

  lemma {:induction false} EncodeLenExact(s: seq<Byte>)
    ensures |Encoded(s)| == EncodeLen(|s|)
  {
    hide First, Second, Third, Fourth;
    if |s| > 2 {
      EncodeLenExact(s[3..]);
    }
  }

  /** What the encoder has written after some of the bytes: the characters that are complete. */
  function Complete(s: seq<Byte>): string {
    var n := |s|;
    if n % 3 == 0 then Encoded(s)
    else if n % 3 == 1 then Encoded(s[..n - 1]) + [First(s[n - 1])]
    else Encoded(s[..n - 2]) + [First(s[n - 2]), Second(s[n - 2], s[n - 1])]
  }

  /** How many characters the next byte completes, and which. */
  lemma CompleteMore(s: seq<Byte>, b: Byte)
    ensures |s| % 3 == 0 ==> Complete(s + [b]) == Complete(s) + [First(b)]
    ensures |s| % 3 == 1 ==> Complete(s + [b]) == Complete(s) + [Second(s[|s| - 1], b)]
    ensures |s| % 3 == 2 ==> Complete(s + [b]) == Complete(s) + [Third(s[|s| - 1], b), Fourth(b)]
  {
    hide First, Second, Third, Fourth, Encoded;
    var t, n := s + [b], |s|;
    if n % 3 == 0 {
      assert t[..n] == s;
    } else if n % 3 == 1 {
      assert t[..n - 1] == s[..n - 1];
    } else {
      assert t == s[..n - 2] + [s[n - 2], s[n - 1], b];
      EncodedSplit(s[..n - 2], [s[n - 2], s[n - 1], b]);
      EncodedGroup(s[n - 2], s[n - 1], b);
    }
  }

  lemma EncodedGroup(a: Byte, b: Byte, c: Byte)
    ensures Encoded([a, b, c]) == [First(a), Second(a, b), Third(b, c), Fourth(c)]
  {
    hide *;
    EncodedMore([a, b, c]);
    EncodedShort(a, b);
    assert [a, b, c][3..] == [];
  }

  lemma Joined(e: string, a: char, b: char)
    ensures e + [a, b, PAD, PAD] == e + [a] + [b, PAD, PAD]
  {
  }

  lemma SplitLast<T>(s: seq<T>)
    requires s != []
    ensures s == s[..|s| - 1] + [s[|s| - 1]]
  {
  }

  lemma CompleteOne(s: seq<Byte>)
    requires |s| % 3 == 1
    ensures Encoded(s) == Complete(s) + [Second(s[|s| - 1], 0), PAD, PAD]
  {
    hide *;
    var n := |s|;
    var x := s[n - 1];
    SplitLast(s);
    EncodedSplit(s[..n - 1], [x]);
    EncodedShort(x, 0);
    CompleteShape(s);
    Joined(Encoded(s[..n - 1]), First(x), Second(x, 0));
  }

  lemma CompleteZero(s: seq<Byte>)
    ensures |s| % 3 == 0 ==> Encoded(s) == Complete(s)
  {
    hide Encoded;
  }

  lemma CompleteTwo(s: seq<Byte>)
    requires |s| % 3 == 2
    ensures Encoded(s) == Complete(s) + [Third(s[|s| - 1], 0), PAD]
  {
    hide *;
    var n := |s|;
    var x, y := s[n - 2], s[n - 1];
    assert s == s[..n - 2] + [x, y];
    EncodedSplit(s[..n - 2], [x, y]);
    EncodedShort(x, y);
    CompleteShape(s);
    assert Encoded(s[..n - 2]) + [First(x), Second(x, y)] + [Third(y, 0), PAD]
        == Encoded(s[..n - 2]) + [First(x), Second(x, y), Third(y, 0), PAD];
  }

  lemma CompleteShape(s: seq<Byte>)
    ensures |s| % 3 == 1 ==> Complete(s) == Encoded(s[..|s| - 1]) + [First(s[|s| - 1])]
    ensures |s| % 3 == 2
        ==> Complete(s) == Encoded(s[..|s| - 2]) + [First(s[|s| - 2]), Second(s[|s| - 2], s[|s| - 1])]
  {
    hide First, Second, Encoded;
  }

  lemma CompleteLen(s: seq<Byte>)
    ensures |Complete(s)| == 4 * |s| / 3
  {
    hide First, Second, Third, Fourth, Encoded;
    EncodeLenExact(s[..|s| - |s| % 3]);
    assert |s| % 3 == 0 ==> s[..|s|] == s;
  }

  // ----- the accumulator -----

  /** The bits of the last byte that are left in the accumulator. */
  predicate Left(leftchar: nat, leftbits: nat, n: nat, last: Byte) {
    && (n % 3 == 0 ==> leftbits == 0)
    && (n % 3 == 1 ==> leftbits == 2 && leftchar % 4 == last % 4)
    && (n % 3 == 2 ==> leftbits == 4 && leftchar % 16 == last % 16)
  }

  lemma Powers()
    ensures Pow2(0) == 1 && Pow2(2) == 4 && Pow2(4) == 16 && Pow2(6) == 64
  {
    assert Pow2(1) == 2 && Pow2(3) == 8 && Pow2(5) == 32;
  }

  /** Six bits of the accumulator, above the leftbits lowest. */
  function Six(leftchar: nat, leftbits: nat): (v: nat)
    ensures v < 64
  {
    Shr(leftchar, leftbits) % 64
  }

  /** The groups of six bits that are ready. */
  function Groups(leftchar: nat, leftbits: nat): string {
    if leftbits < 6 then "" else [Enc(Six(leftchar, leftbits - 6))] + Groups(leftchar, leftbits - 6)
  }

  /** The accumulator has 32 bits, and the higher ones are lost. */
  function Shifted(leftchar: nat, b: Byte): nat {
    (leftchar * 256 + b) % WORD
  }

  /** The twelve lowest bits of the accumulator. */
  lemma LowTwelve(leftchar: nat, b: Byte) returns (q: nat)
    ensures Shifted(leftchar, b) == 4096 * q + 256 * (leftchar % 16) + b
  {
    var v := leftchar * 256 + b;
    var w, h, l := v / WORD, leftchar / 16, leftchar % 16;
    var k := h - w * 0x10_0000;
    assert v % WORD == 4096 * k + (256 * l + b);
    assert 256 * l + b < 4096;
    q := k;
  }

  lemma Low(x: nat, q: nat, l: nat, b: Byte)
    requires x == 4096 * q + 256 * l + b && l < 16
    ensures x % 4 == b % 4 && x % 16 == b % 16
  {
    Low4(1024 * q + 64 * l, b);
    Low16(256 * q + 16 * l, b);
  }

  lemma Low4(k: nat, b: nat)
    ensures (4 * k + b) % 4 == b % 4
  {
  }

  lemma Low16(k: nat, b: nat)
    ensures (16 * k + b) % 16 == b % 16
  {
  }

  lemma Bits0(x: nat, q: nat, l: nat, b: Byte)
    requires x == 4096 * q + 256 * l + b && l < 16
    ensures x % 64 == b % 64
  {
  }

  lemma Bits2(x: nat, q: nat, l: nat, b: Byte)
    requires x == 4096 * q + 256 * l + b && l < 16
    ensures x / 4 % 64 == b / 4
  {
    assert x / 4 == 1024 * q + 64 * l + b / 4;
  }

  lemma Bits4(x: nat, q: nat, l: nat, b: Byte)
    requires x == 4096 * q + 256 * l + b && l < 16
    ensures x / 16 % 64 == l % 4 * 16 + b / 16
  {
    var h, m := l / 4, l % 4;
    Div16(64 * (4 * q + h) + 16 * m, b);
    Mod64(4 * q + h, 16 * m + b / 16);
  }

  lemma Div16(p: nat, b: Byte)
    ensures (16 * p + b) / 16 == p + b / 16
  {
  }

  lemma Mod64(p: nat, r: nat)
    requires r < 64
    ensures (64 * p + r) % 64 == r
  {
  }

  lemma Bits6(x: nat, q: nat, l: nat, b: Byte)
    requires x == 4096 * q + 256 * l + b && l < 16
    ensures x / 64 % 64 == l * 4 + b / 64
  {
    assert x / 64 == 64 * q + 4 * l + b / 64;
  }

  /** The groups that become ready, by the number of bits that were left. */
  lemma ReadyGroups(leftchar: nat, last: Byte, b: Byte)
    ensures Groups(Shifted(leftchar, b), 8) == [First(b)]
    ensures leftchar % 4 == last % 4 ==> Groups(Shifted(leftchar, b), 10) == [Second(last, b)]
    ensures leftchar % 16 == last % 16 ==> Groups(Shifted(leftchar, b), 12) == [Third(last, b), Fourth(b)]
    ensures Shifted(leftchar, b) % 4 == b % 4 && Shifted(leftchar, b) % 16 == b % 16
  {
    hide Groups, Six, Enc, Shifted;
    var x, l := Shifted(leftchar, b), leftchar % 16;
    var q := LowTwelve(leftchar, b);
    Bits0(x, q, l, b);
    Bits2(x, q, l, b);
    Bits4(x, q, l, b);
    Bits6(x, q, l, b);
    Low(x, q, l, b);
    SixIs(x);
    GroupsAre(x);
    Quarter(leftchar);
  }

  lemma Quarter(leftchar: nat)
    ensures leftchar % 16 % 4 == leftchar % 4
  {
  }

  lemma SixIs(x: nat)
    ensures Six(x, 0) == x % 64 && Six(x, 2) == x / 4 % 64 && Six(x, 4) == x / 16 % 64 && Six(x, 6) == x / 64 % 64
  {
    Powers();
    hide Pow2;
  }

  lemma GroupsAre(x: nat)
    ensures Groups(x, 8) == [Enc(Six(x, 2))] && Groups(x, 10) == [Enc(Six(x, 4))]
    ensures Groups(x, 12) == [Enc(Six(x, 6)), Enc(Six(x, 0))]
  {
    hide Six, Enc;
    assert Groups(x, 6) == [Enc(Six(x, 0))] && Groups(x, 2) == Groups(x, 4) == Groups(x, 0) == "";
  }

  /** The groups that a byte makes ready are the characters that it completes. */
  lemma Ready(leftchar: nat, leftbits: nat, s: seq<Byte>, b: Byte)
    requires Left(leftchar, leftbits, |s|, if s == [] then 0 else s[|s| - 1])
    ensures Complete(s + [b]) == Complete(s) + Groups(Shifted(leftchar, b), leftbits + 8)
    ensures Left(Shifted(leftchar, b), (leftbits + 8) % 6, |s| + 1, b)
  {
    hide Complete, Groups, Shifted, Six, Enc, First, Second, Third, Fourth;
    CompleteMore(s, b);
    ReadyGroups(leftchar, if s == [] then 0 else s[|s| - 1], b);
  }

  /** The inner loop of base64_encode. */
  method Emit(out: array<char>, at: nat, leftchar: nat, bits: nat) returns (leftbits: nat, o: nat)
    requires at + |Groups(leftchar, bits)| <= out.Length
    modifies out
    ensures leftbits == bits % 6 && o == at + |Groups(leftchar, bits)|
    ensures out[..o] == old(out[..at]) + Groups(leftchar, bits) && out[o..] == old(out[o..])
  {
    hide Enc, Six;
    leftbits, o := bits, at;
    while leftbits >= 6
      invariant leftbits % 6 == bits % 6
      invariant at <= o && o + |Groups(leftchar, leftbits)| == at + |Groups(leftchar, bits)|
      invariant out[..o] + Groups(leftchar, leftbits) == old(out[..at]) + Groups(leftchar, bits)
      invariant out[o..] == old(out[o..])
    {
      leftbits := leftbits - 6;
      out[o] := Enc(Six(leftchar, leftbits));
      assert out[o + 1..] == old(out[o..])[1..];
      o := o + 1;
    }
  }

  /** The last one or two bytes, if the input is not a multiple of three, and the padding. */
  method Pad(out: array<char>, o: nat, leftchar: nat, leftbits: nat, ghost input: seq<Byte>)
    requires Left(leftchar, leftbits, |input|, if input == [] then 0 else input[|input| - 1])
    requires o == |Complete(input)| <= EncodeLen(|input|) <= out.Length && out[..o] == Complete(input)
    modifies out
    ensures out[..EncodeLen(|input|)] == Encoded(input)
    ensures out[EncodeLen(|input|)..] == old(out[EncodeLen(|input|)..])
  {
    hide Complete, Encoded, Groups, Shifted, Six, Enc, EncodeLen, First, Second, Third, Fourth;
    EncodeLenExact(input);
    CompleteZero(input);
    if leftbits == 2 {
      CompleteOne(input);
      LastBits(leftchar, input[|input| - 1]);
      out[o], out[o + 1], out[o + 2] := Enc(leftchar % 4 * 16), PAD, PAD;
      assert out[..o + 3] == out[..o] + [out[o], out[o + 1], out[o + 2]];
    } else if leftbits == 4 {
      CompleteTwo(input);
      LastBits(leftchar, input[|input| - 1]);
      out[o], out[o + 1] := Enc(leftchar % 16 * 4), PAD;
      assert out[..o + 2] == out[..o] + [out[o], out[o + 1]];
    }
  }

  /** base64_encode */
  method Encode(out: array<char>, outLen: nat, input: seq<Byte>) returns (len: int)
    requires outLen <= out.Length
    modifies out
    ensures outLen < EncodeLen(|input|) ==> len == -1 && out[..] == old(out[..])
    ensures outLen >= EncodeLen(|input|) ==> len == EncodeLen(|input|)
    ensures outLen >= EncodeLen(|input|)
        ==> out[..EncodeLen(|input|)] == Encoded(input) && out[EncodeLen(|input|)..] == old(out[EncodeLen(|input|)..])
  {
    hide Complete, Encoded, Groups, Shifted, Six, Enc, EncodeLen, First, Second, Third, Fourth;
    var n := |input|;
    len := EncodeLen(n);
    if outLen < len {
      return -1;
    }
    var leftchar: nat, leftbits: nat, o: nat := 0, 0, 0;
    CompleteLen(input[..0]);
    for i := 0 to n
      invariant Left(leftchar, leftbits, i, if i == 0 then 0 else input[i - 1])
      invariant o == |Complete(input[..i])| <= len
      invariant out[..o] == Complete(input[..i]) && out[o..] == old(out[o..])
    {
      var b := input[i];
      Ready(leftchar, leftbits, input[..i], b);
      assert input[..i + 1] == input[..i] + [b];
      CompleteLen(input[..i + 1]);
      CompleteFits(i + 1, n);
      leftchar := Shifted(leftchar, b);
      leftbits := leftbits + 8;
      leftbits, o := Emit(out, o, leftchar, leftbits);
    }
    assert input[..n] == input;
    EncodeLenExact(input);
    Pad(out, o, leftchar, leftbits, input);
  }

  lemma CompleteFits(i: nat, n: nat)
    requires i <= n
    ensures 4 * i / 3 <= EncodeLen(n)
  {
  }

  lemma LastBits(leftchar: nat, last: Byte)
    ensures leftchar % 4 == last % 4 ==> Enc(leftchar % 4 * 16) == Second(last, 0)
    ensures leftchar % 16 == last % 16 ==> Enc(leftchar % 16 * 4) == Third(last, 0)
  {
    hide Enc;
  }
}
