/**
 The decoder of base64.c: what it makes of any text, and that it undoes the encoder.
 */
module Base64Decoding {

  import opened Base64Encoding
  import opened Machine

  /** The first valid character, if there is one. */
  function FindValid(s: string): Option<char> {
    if s == "" then None else if Valid(s[0]) then Some(s[0]) else FindValid(s[1..])
  }

  function Prepend(p: seq<Byte>, r: Option<seq<Byte>>): Option<seq<Byte>> {
    if r == None then None else Some(p + r.value)
  }

  lemma PrependTwice(p: seq<Byte>, q: seq<Byte>, r: Option<seq<Byte>>)
    ensures Prepend(p, Prepend(q, r)) == Prepend(p + q, r)
  {
    if r != None {
      assert p + (q + r.value) == p + q + r.value;
    }
  }

  /** The bits in the accumulator after so many characters of a group of four. */
  function Bits(quad: nat): nat {
    match quad case 0 => 0 case 1 => 6 case 2 => 4 case _ => 2
  }

  /** A padding character counts when the group has three characters, or two and another padding follows. */
  predicate Ends(quad: nat, rest: string) {
    quad == 3 || (quad == 2 && FindValid(rest) == Some(PAD))
  }

  /**
   What the decoder makes of the rest of the input: so many characters of a group have been read, the accumulator
   holds their bits that are not yet written, and there is room for so many bytes.
   */
  function Decoded(s: string, quad: nat, left: nat, room: nat): Option<seq<Byte>>
    requires quad < 4 && left < Pow2(Bits(quad))
  {
    if s == "" then (if quad == 0 then Some([]) else None)
    else if !Valid(s[0]) then Decoded(s[1..], quad, left, room)
    else if s[0] == PAD then (if Ends(quad, s[1..]) then Some([]) else Decoded(s[1..], quad, left, room))
    else
      Room(quad, left, Dec(s[0]));
      var x := left * 64 + Dec(s[0]);
      if quad == 0 then Decoded(s[1..], 1, x, room)
      else if room == 0 then None
      else Prepend([x / Pow2(Bits(quad) - 2)], Decoded(s[1..], (quad + 1) % 4, x % Pow2(Bits(quad) - 2), room - 1))
  }

  lemma Room(quad: nat, left: nat, v: nat)
    requires quad < 4 && left < Pow2(Bits(quad)) && v < 64
    ensures Pow2(Bits(0)) == 1 && Pow2(Bits(1)) == 64
    ensures quad == 0 ==> left * 64 + v < 64
    ensures quad > 0 ==> Bits((quad + 1) % 4) == Bits(quad) - 2
    ensures quad > 0 ==> (left * 64 + v) / Pow2(Bits(quad) - 2) < 256
  {
    Powers();
  }

  /** The characters that count. */
  function Filtered(s: string): string {
    if s == "" then "" else (if Valid(s[0]) then [s[0]] else []) + Filtered(s[1..])
  }

  lemma {:induction false} FindValidFiltered(s: string)
    ensures FindValid(Filtered(s)) == FindValid(s)
  {
    if s != "" {
      FindValidFiltered(s[1..]);
      if Valid(s[0]) {
        assert Filtered(s)[0] == s[0];
      } else {
        assert Filtered(s) == Filtered(s[1..]);
      }
    }
  }

  /** Characters that are not in the alphabet make no difference. */
  lemma {:induction false} GarbageIgnored(s: string, quad: nat, left: nat, room: nat)
    requires quad < 4 && left < Pow2(Bits(quad))
    ensures Decoded(Filtered(s), quad, left, room) == Decoded(s, quad, left, room)
  {
    hide Dec, Pow2, Bits, FindValid;
    if s != "" {
      var t := s[1..];
      if !Valid(s[0]) {
        GarbageIgnored(t, quad, left, room);
        assert Filtered(s) == Filtered(t);
      } else {
        assert Filtered(s)[0] == s[0] && Filtered(s)[1..] == Filtered(t);
        FindValidFiltered(t);
        if s[0] == PAD {
          GarbageIgnored(t, quad, left, room);
        } else {
          Room(quad, left, Dec(s[0]));
          var x := left * 64 + Dec(s[0]);
          if quad == 0 {
            GarbageIgnored(t, 1, x, room);
          } else if room > 0 {
            GarbageIgnored(t, (quad + 1) % 4, x % Pow2(Bits(quad) - 2), room - 1);
          }
        }
      }
    }
  }

  // ----- the round trip -----

  /** One character more. */
  lemma Start(v: nat, t: string, room: nat)
    requires v < 64
    ensures v < Pow2(Bits(1)) && 0 < Pow2(Bits(0))
    ensures Decoded([Enc(v)] + t, 0, 0, room) == Decoded(t, 1, v, room)
  {
    hide Dec, Enc, Pow2;
    Room(0, 0, v);
    assert ([Enc(v)] + t)[1..] == t;
  }

  lemma Next(quad: nat, left: nat, v: nat, t: string, room: nat)
    requires 0 < quad < 4 && left < Pow2(Bits(quad)) && v < 64
    ensures Bits((quad + 1) % 4) == Bits(quad) - 2
    ensures var x, p := left * 64 + v, Pow2(Bits(quad) - 2);
      x / p < 256 && x % p < p && Decoded([Enc(v)] + t, quad, left, room)
        == if room == 0 then None else Prepend([x / p], Decoded(t, (quad + 1) % 4, x % p, room - 1))
  {
    hide Dec, Enc, Pow2;
    Room(quad, left, v);
    assert ([Enc(v)] + t)[1..] == t;
  }

  /** A byte is put together from its two parts. */
  lemma ByteParts(a: Byte, b: Byte)
    ensures var x := a / 4 * 64 + (a % 4 * 16 + b / 16); x / 16 == a && x % 16 == b / 16
    ensures var x := a / 16 * 64 + (a % 16 * 4 + b / 64); x / 4 == a && x % 4 == b / 64
    ensures a / 64 * 64 + a % 64 == a
  {
  }

  /** The parts of a group, one after the other. */
  lemma FirstByte(a: Byte, b: Byte, t: string, room: nat)
    ensures b / 16 < Pow2(Bits(2)) && 0 < Pow2(Bits(0))
    ensures Decoded([First(a), Second(a, b)] + t, 0, 0, room)
         == if room == 0 then None else Prepend([a], Decoded(t, 2, b / 16, room - 1))
  {
    hide Decoded, Enc, Pow2;
    Powers();
    ByteParts(a, b);
    Start(a / 4, [Second(a, b)] + t, room);
    Next(1, a / 4, a % 4 * 16 + b / 16, t, room);
    assert [First(a), Second(a, b)] + t == [First(a)] + ([Second(a, b)] + t);
  }

  lemma SecondByte(b: Byte, c: Byte, t: string, room: nat)
    ensures b / 16 < Pow2(Bits(2)) && c / 64 < Pow2(Bits(3))
    ensures Decoded([Third(b, c)] + t, 2, b / 16, room)
         == if room == 0 then None else Prepend([b], Decoded(t, 3, c / 64, room - 1))
  {
    hide Decoded, Enc, Pow2;
    Powers();
    ByteParts(b, c);
    Next(2, b / 16, b % 16 * 4 + c / 64, t, room);
  }

  lemma ThirdByte(c: Byte, t: string, room: nat)
    ensures c / 64 < Pow2(Bits(3)) && 0 < Pow2(Bits(0))
    ensures Decoded([Fourth(c)] + t, 3, c / 64, room)
         == if room == 0 then None else Prepend([c], Decoded(t, 0, 0, room - 1))
  {
    hide Decoded, Enc, Pow2;
    Powers();
    ByteParts(c, c);
    Next(3, c / 64, c % 64, t, room);
  }

  lemma Group(a: Byte, b: Byte, c: Byte, t: string, room: nat)
    ensures 0 < Pow2(Bits(0))
    ensures Decoded([First(a), Second(a, b), Third(b, c), Fourth(c)] + t, 0, 0, room)
         == if room < 3 then None else Prepend([a, b, c], Decoded(t, 0, 0, room - 3))
  {
    hide Decoded, First, Second, Third, Fourth, Pow2;
    var u := [Fourth(c)] + t;
    var w := [Third(b, c)] + u;
    assert [First(a), Second(a, b), Third(b, c), Fourth(c)] + t == [First(a), Second(a, b)] + w;
    FirstByte(a, b, w, room);
    if room > 0 {
      SecondByte(b, c, u, room - 1);
    }
    if room > 1 {
      ThirdByte(c, t, room - 2);
    }
    if room > 2 {
      var r := Decoded(t, 0, 0, room - 3);
      PrependTwice([b], [c], r);
      PrependTwice([a], [b] + [c], r);
      assert [a] + ([b] + [c]) == [a, b, c];
    }
  }

  /** A padding ends a group of two or three characters. */
  lemma Padding(left: nat, room: nat)
    ensures left < Pow2(Bits(2)) ==> Decoded([PAD, PAD], 2, left, room) == Some([])
    ensures left < Pow2(Bits(3)) ==> Decoded([PAD], 3, left, room) == Some([])
  {
    hide Pow2;
    assert [PAD, PAD][1..] == [PAD];
    assert Valid(PAD) && FindValid([PAD]) == Some(PAD);
  }

  /** Decoding gives back what was encoded, if there is room for it. */
  lemma {:induction false} RoundTrip(s: seq<Byte>, room: nat)
    ensures 0 < Pow2(Bits(0))
    ensures Decoded(Encoded(s), 0, 0, room) == if room >= |s| then Some(s) else None
    decreases |s|
  {
    hide Decoded, First, Second, Third, Fourth, Pow2, Encoded;
    if |s| == 0 {
      EncodedShort(0, 0);
      DecodedNothing(room);
    } else if |s| == 1 {
      assert s == [s[0]];
      EncodedShort(s[0], 0);
      assert Encoded(s) == [First(s[0]), Second(s[0], 0)] + [PAD, PAD];
      FirstByte(s[0], 0, [PAD, PAD], room);
      if room > 0 {
        Padding(0, room - 1);
        assert [s[0]] + [] == s;
      }
    } else if |s| == 2 {
      assert s == [s[0], s[1]];
      EncodedShort(s[0], s[1]);
      assert Encoded(s) == [First(s[0]), Second(s[0], s[1])] + ([Third(s[1], 0)] + [PAD]);
      FirstByte(s[0], s[1], [Third(s[1], 0)] + [PAD], room);
      if room > 0 {
        SecondByte(s[1], 0, [PAD], room - 1);
      }
      if room > 1 {
        Padding(0, room - 2);
        PrependTwice([s[0]], [s[1]], Some([]));
        assert [s[0]] + [s[1]] + [] == s;
      }
    } else {
      EncodedMore(s);
      Group(s[0], s[1], s[2], Encoded(s[3..]), room);
      if room >= 3 {
        RoundTrip(s[3..], room - 3);
        assert s == [s[0], s[1], s[2]] + s[3..];
      }
    }
  }

  lemma DecodedNothing(room: nat)
    ensures 0 < Pow2(Bits(0)) && Decoded("", 0, 0, room) == Some([])
  {
  }

  /** Nor do characters outside the alphabet that were put in anywhere change the round trip. */
  lemma NoisyRoundTrip(s: seq<Byte>, noisy: string, room: nat)
    requires Filtered(noisy) == Encoded(s)
    ensures 0 < Pow2(Bits(0))
    ensures Decoded(noisy, 0, 0, room) == if room >= |s| then Some(s) else None
  {
    hide Decoded, Encoded, Filtered, Pow2;
    DecodedNothing(0);
    GarbageIgnored(noisy, 0, 0, room);
    RoundTrip(s, room);
  }

  // ----- the length of what will be decoded -----

  /** How many characters there are before the first that is padding or not valid. */
  function Run(s: string): (n: nat)
    ensures n <= |s|
  {
    if s == "" || !Valid(s[0]) || s[0] == PAD then 0 else 1 + Run(s[1..])
  }

  function LenOf(n: nat): nat {
    (n + 3) / 4 * 3 - (4 - n % 4) % 4
  }

  lemma RunEnc(v: nat, t: string)
    requires v < 64
    ensures Run([Enc(v)] + t) == 1 + Run(t)
  {
    hide Enc, Dec;
    assert ([Enc(v)] + t)[1..] == t;
  }

  lemma RunChars(a: Byte, b: Byte, c: Byte, t: string)
    ensures Run([First(a)] + t) == Run([Second(a, b)] + t) == Run([Third(b, c)] + t) == Run([Fourth(c)] + t)
        == 1 + Run(t)
  {
    hide Run, Enc;
    RunEnc(a / 4, t);
    RunEnc(a % 4 * 16 + b / 16, t);
    RunEnc(b % 16 * 4 + c / 64, t);
    RunEnc(c % 64, t);
  }

  lemma RunPad(t: string)
    ensures Run([PAD] + t) == 0
  {
  }

  /** The characters of an encoding without its padding. */
  function Chars(n: nat): nat {
    n / 3 * 4 + if n % 3 == 0 then 0 else if n % 3 == 1 then 2 else 3
  }

  lemma CharsStep(n: nat)
    ensures Chars(0) == 0 && Chars(1) == 2 && Chars(2) == 3 && (n >= 3 ==> Chars(n) == 4 + Chars(n - 3))
  {
  }

  lemma LenOfChars(n: nat)
    ensures LenOf(Chars(n)) == n
  {
    var k, r := n / 3, n % 3;
    LenOfFour(k, if r == 0 then 0 else r + 1);
  }

  lemma LenOfFour(k: nat, m: nat)
    requires m < 4
    ensures LenOf(k * 4 + m) == if m == 0 then 3 * k else 3 * k + m - 1
  {
    assert (k * 4 + m) % 4 == m;
  }

  lemma {:induction false} RunEncoded(s: seq<Byte>)
    ensures Run(Encoded(s)) == Chars(|s|)
    decreases |s|
  {
    hide Run, First, Second, Third, Fourth, Encoded, Chars;
    EncodedShort(0, 0);
    CharsStep(|s|);
    if |s| == 0 {
      RunNothing();
    } else if |s| == 1 {
      assert s == [s[0]];
      EncodedShort(s[0], 0);
      assert Encoded(s) == [First(s[0])] + ([Second(s[0], 0)] + ([PAD] + [PAD]));
      RunPad([PAD]);
      RunChars(s[0], 0, 0, [PAD] + [PAD]);
      RunChars(s[0], 0, 0, [Second(s[0], 0)] + ([PAD] + [PAD]));
    } else if |s| == 2 {
      assert s == [s[0], s[1]];
      EncodedShort(s[0], s[1]);
      var u := [Third(s[1], 0)] + ([PAD] + []);
      assert Encoded(s) == [First(s[0])] + ([Second(s[0], s[1])] + u);
      RunPad([]);
      RunChars(s[0], s[1], 0, [PAD] + []);
      RunChars(s[0], s[1], 0, u);
      RunChars(s[0], s[1], 0, [Second(s[0], s[1])] + u);
    } else {
      EncodedMore(s);
      RunEncoded(s[3..]);
      RunGroup(s[0], s[1], s[2], Encoded(s[3..]));
    }
  }

  lemma RunGroup(a: Byte, b: Byte, c: Byte, t: string)
    ensures Run([First(a), Second(a, b), Third(b, c), Fourth(c)] + t) == 4 + Run(t)
  {
    hide Run, First, Second, Third, Fourth;
    var u := [Fourth(c)] + t;
    var v := [Third(b, c)] + u;
    var w := [Second(a, b)] + v;
    assert [First(a), Second(a, b), Third(b, c), Fourth(c)] + t == [First(a)] + w;
    RunChars(a, b, c, t);
    RunChars(a, b, c, u);
    RunChars(a, b, c, v);
    RunChars(a, b, c, w);
  }

  lemma RunNothing()
    ensures Run("") == 0
  {
  }

  /** The length computed for an encoding is exactly that of what was encoded. */
  lemma DecodeLenExact(s: seq<Byte>)
    ensures LenOf(Run(Encoded(s))) == |s|
  {
    hide Run, Encoded, LenOf, Chars;
    RunEncoded(s);
    LenOfChars(|s|);
  }

  /** base64_decode of binascii.cc takes as much room as base64_decode_len says: for an encoding, exactly enough. */
  lemma StrRoundTrip(s: seq<Byte>)
    ensures 0 < Pow2(Bits(0))
    ensures Decoded(Encoded(s), 0, 0, LenOf(Run(Encoded(s)))) == Some(s)
  {
    hide Decoded, Encoded, Run, Pow2, LenOf;
    DecodeLenExact(s);
    RoundTrip(s, |s|);
  }

  /**
   An encoding with other characters in it, which base64_decode would skip, is given room only for what comes before the
   first of them: it is decoded exactly if that is enough, and is an error otherwise.
   */
  lemma StrNoisy(s: seq<Byte>, noisy: string)
    requires Filtered(noisy) == Encoded(s)
    ensures 0 < Pow2(Bits(0))
    ensures Decoded(noisy, 0, 0, LenOf(Run(noisy))) == Some(s) <==> LenOf(Run(noisy)) >= |s|
    ensures LenOf(Run(noisy)) < |s| ==> Decoded(noisy, 0, 0, LenOf(Run(noisy))) == None
  {
    hide Decoded, Encoded, Run, Pow2, LenOf, Filtered;
    NoisyRoundTrip(s, noisy, LenOf(Run(noisy)));
  }

  /** A line break in front of an encoding leaves no room at all. */
  lemma StrLineBreak(s: seq<Byte>)
    requires s != []
    ensures 0 < Pow2(Bits(0))
    ensures Decoded("\n" + Encoded(s), 0, 0, LenOf(Run("\n" + Encoded(s)))) == None
  {
    hide Decoded, Encoded, Pow2, Filtered;
    var noisy := "\n" + Encoded(s);
    assert noisy[1..] == Encoded(s);
    Unfiltered(s);
    FilteredBreak(Encoded(s));
    assert Run(noisy) == 0;
    StrNoisy(s, noisy);
  }

  lemma FilteredBreak(t: string)
    ensures Filtered("\n" + t) == Filtered(t)
  {
    assert ("\n" + t)[1..] == t;
  }

  /** Nothing of an encoding is filtered out. */
  lemma Unfiltered(s: seq<Byte>)
    ensures Filtered(Encoded(s)) == Encoded(s)
  {
    hide Filtered, Encoded;
    AllValid(s);
    FilteredAll(Encoded(s));
  }

  lemma {:induction false} FilteredAll(t: string)
    requires forall k :: 0 <= k < |t| ==> Valid(t[k])
    ensures Filtered(t) == t
  {
    hide Dec;
    if t != "" {
      FilteredAll(t[1..]);
      assert t == [t[0]] + t[1..];
    }
  }

  lemma {:induction false} AllValid(s: seq<Byte>)
    ensures forall k :: 0 <= k < |Encoded(s)| ==> Valid(Encoded(s)[k])
    decreases |s|
  {
    hide Encoded, Enc;
    EncodedShort(0, 0);
    if |s| == 1 {
      assert s == [s[0]];
      EncodedShort(s[0], 0);
    } else if |s| == 2 {
      assert s == [s[0], s[1]];
      EncodedShort(s[0], s[1]);
    } else if |s| >= 3 {
      AllValid(s[3..]);
      EncodedMore(s);
    }
  }

  // ----- any text -----

  /** How many whole bytes so many characters make. */
  function WholeBytes(n: nat): nat {
    n * 6 / 8
  }

  lemma LenOfWhole(n: nat)
    ensures LenOf(n) == WholeBytes(n)
  {
    LenOfFour(n / 4, n % 4);
  }

  lemma WholeStep(quad: nat, k: nat)
    requires quad < 4 && 0 < k
    ensures WholeBytes(quad + k) - WholeBytes(quad)
            == WholeBytes((quad + 1) % 4 + (k - 1)) - WholeBytes((quad + 1) % 4) + if quad == 0 then 0 else 1
  {
  }

  /** What is decoded has no more bytes than there is room for, and no fewer than the characters of the run make. */
  lemma {:induction false} DecodedSize(s: string, quad: nat, left: nat, room: nat)
    requires quad < 4 && left < Pow2(Bits(quad))
    ensures var r := Decoded(s, quad, left, room);
      r != None ==> WholeBytes(quad + Run(s)) - WholeBytes(quad) <= |r.value| <= room
  {
    hide Pow2, Dec, Ends, WholeBytes, Bits;
    if s == "" {
      DecodedEnd(s, quad, left, room);
    } else if !Valid(s[0]) || (s[0] == PAD && !Ends(quad, s[1..])) {
      DecodedSkip(s, quad, left, room);
      DecodedSize(s[1..], quad, left, room);
    } else if s[0] == PAD {
      DecodedEnd(s, quad, left, room);
    } else {
      DecodedShift(s, quad, left, room);
      WholeStep(quad, Run(s));
      var x := left * 64 + Dec(s[0]);
      if quad == 0 {
        DecodedSize(s[1..], 1, x, room);
      } else if room > 0 {
        DecodedSize(s[1..], (quad + 1) % 4, x % Pow2(Bits(quad) - 2), room - 1);
      }
    }
  }

  /** The room that base64_decode_len computes is filled exactly by every text that is decoded in it. */
  lemma StrFills(s: string)
    ensures 0 < Pow2(Bits(0)) && LenOf(Run(s)) >= 0
    ensures var r := Decoded(s, 0, 0, LenOf(Run(s))); r != None ==> |r.value| == LenOf(Run(s))
  {
    hide Decoded, Run, LenOf, WholeBytes;
    LenOfWhole(Run(s));
    WholeNothing(Run(s));
    DecodedSize(s, 0, 0, LenOf(Run(s)));
  }

  lemma WholeNothing(n: nat)
    ensures WholeBytes(0) == 0 && WholeBytes(0 + n) == WholeBytes(n) >= 0
  {
  }

  /** The run is ended by a character beyond 127, which is looked up behind the end of the table. */
  predicate Stray(s: string) {
    Run(s) < |s| && s[Run(s)] as int > 0x7f
  }

  /** base64_decode_len; it cannot go on if it reads behind its table, which has 128 entries. */
  method DecodeLen(s: string) returns (stray: bool, n: nat)
    ensures stray <==> Stray(s)
    ensures !stray ==> n == LenOf(Run(s))
  {
    if |s| == 0 {
      return false, 0;
    }
    var t := 0;
    while t < |s|
      invariant t <= |s| && Run(s) == t + Run(s[t..])
    {
      if s[t] as int > 0x7f {
        return true, 0;
      }
      if Dec(s[t]) == -1 || s[t] == PAD {
        break;
      }
      t := t + 1;
    }
    stray, n := false, (t + 3) / 4 * 3 - (4 - t % 4) % 4;
  }

  // ----- the decoder -----

  /** _find_valid: -1 if there is no valid character. */
  method FindValidFrom(s: string) returns (ret: int)
    ensures ret == if FindValid(s) == None then -1 else FindValid(s).value as int
  {
    ret := -1;
    var k := 0;
    while k < |s| && ret == -1
      invariant k <= |s|
      invariant ret == -1 ==> FindValid(s) == FindValid(s[k..])
      invariant ret != -1 ==> FindValid(s) != None && ret == FindValid(s).value as int
    {
      var c := s[k];
      if c as int <= 0x7f && Dec(c) != -1 {
        ret := c as int;
      }
      k := k + 1;
    }
  }

  lemma DecodedSkip(s: string, quad: nat, left: nat, room: nat)
    requires s != "" && quad < 4 && left < Pow2(Bits(quad))
    requires !Valid(s[0]) || (s[0] == PAD && !Ends(quad, s[1..]))
    ensures Decoded(s, quad, left, room) == Decoded(s[1..], quad, left, room)
  {
    hide Pow2, Dec, Ends;
  }

  lemma DecodedEnd(s: string, quad: nat, left: nat, room: nat)
    requires quad < 4 && left < Pow2(Bits(quad))
    ensures s == "" ==> Decoded(s, quad, left, room) == if quad == 0 then Some([]) else None
    ensures Bits(quad) == 0 <==> quad == 0
    ensures s != "" && s[0] == PAD && Ends(quad, s[1..]) ==> Decoded(s, quad, left, room) == Some([])
  {
    hide Pow2, Ends;
  }

  lemma DecodedShift(s: string, quad: nat, left: nat, room: nat)
    requires s != "" && quad < 4 && left < Pow2(Bits(quad)) && Valid(s[0]) && s[0] != PAD
    ensures quad == 0 ==> left * 64 + Dec(s[0]) < Pow2(Bits(1))
    ensures quad == 0 ==> Decoded(s, quad, left, room) == Decoded(s[1..], 1, left * 64 + Dec(s[0]), room)
    ensures quad > 0 ==> Bits(quad) >= 2 && Bits((quad + 1) % 4) == Bits(quad) - 2
    ensures quad == 0 ==> Bits(quad) == 0 && Bits(1) == 6
    ensures quad > 0 && room == 0 ==> Decoded(s, quad, left, room) == None
    ensures quad > 0 && room > 0 ==>
      var x, p := left * 64 + Dec(s[0]), Pow2(Bits(quad) - 2);
      x / p < 256 && x % p < p
      && Decoded(s, quad, left, room) == Prepend([x / p], Decoded(s[1..], (quad + 1) % 4, x % p, room - 1))
  {
    hide Pow2, Dec;
    Room(quad, left, Dec(s[0]));
  }

  lemma PrependShape(p: seq<Byte>, r: Option<seq<Byte>>)
    ensures Prepend([], r) == r && Prepend(p, None) == None && Prepend(p, Some([])) == Some(p)
  {
    if r != None {
      assert [] + r.value == r.value;
    }
    assert p + [] == p;
  }

  /** A byte goes out of the accumulator. */
  method Output(out: array<Byte>, n: nat, leftchar: nat, leftbits: nat) returns (left: nat)
    requires n < out.Length && leftchar / Pow2(leftbits) < 256
    modifies out
    ensures left == leftchar % Pow2(leftbits)
    ensures out[..n + 1] == old(out[..n]) + [leftchar / Pow2(leftbits)] && out[n + 1..] == old(out[n + 1..])
  {
    hide Pow2, Shr;
    ByteOnly(leftchar, leftbits);
    out[n] := Shr(leftchar, leftbits) % 256;
    left := leftchar % Pow2(leftbits);
  }

  /** The bits of a character are shifted in; a byte that is complete goes out, unless there is no more room. */
  method ShiftIn(out: array<Byte>, outLen: nat, n: nat, quad: nat, left: nat, v: nat, ghost rest: string)
    returns (quadPos: nat, leftchar: nat, leftbits: nat, m: nat, full: bool)
    requires n <= outLen <= out.Length && quad < 4 && left < Pow2(Bits(quad))
    requires rest != "" && rest[0] != PAD && Dec(rest[0]) == v
    modifies out
    ensures out[outLen..] == old(out[outLen..])
    ensures full ==> leftbits != 0 && Decoded(rest, quad, left, outLen - n) == None
    ensures n <= m <= outLen
    ensures !full ==> quadPos < 4 && leftbits == Bits(quadPos) && leftchar < Pow2(leftbits)
    ensures !full
        ==> Prepend(old(out[..n]), Decoded(rest, quad, left, outLen - n))
            == Prepend(out[..m], Decoded(rest[1..], quadPos, leftchar, outLen - m))
  {
    hide Decoded, Pow2, Dec, Prepend, Bits;
    m, full := n, false;
    DecodedShift(rest, quad, left, outLen - n);
    quadPos := (quad + 1) % 4;
    leftchar := left * 64 + v;
    leftbits := Bits(quad) + 6;
    if leftbits >= 8 {
      if m == outLen {
        full := true;
        return;
      }
      leftbits := leftbits - 8;
      PrependTwice(out[..n], [leftchar / Pow2(leftbits)],
                   Decoded(rest[1..], quadPos, leftchar % Pow2(leftbits), outLen - n - 1));
      ghost var after := out[outLen..];
      assert out[n + 1..][outLen - n - 1..] == after;
      leftchar := Output(out, n, leftchar, leftbits);
      assert out[n + 1..][outLen - n - 1..] == out[outLen..];
      m := n + 1;
    }
  }

  /** base64_decode */
  method Decode(out: array<Byte>, outLen: nat, input: string) returns (len: int)
    requires outLen <= out.Length
    modifies out
    ensures 0 < Pow2(Bits(0))
    ensures Decoded(input, 0, 0, outLen) == None ==> len == -1
    ensures Decoded(input, 0, 0, outLen) != None
        ==> 0 <= len <= outLen && Decoded(input, 0, 0, outLen) == Some(out[..len])
    ensures out[outLen..] == old(out[outLen..])
  {
    hide Decoded, Pow2, Dec, Prepend, FindValid, Bits, Ends;
    DecodedNothing(0);
    DecodedEnd("", 0, 0, 0);
    assert input[0..] == input && out[..0] == [];
    ghost var goal := Decoded(input, 0, 0, outLen);
    var n: nat, leftchar: nat, leftbits: nat, quadPos: nat := 0, 0, 0, 0;
    var i := 0;
    PrependShape([], goal);
    var stopped := false;
    while i < |input|
      invariant i <= |input| && n <= outLen && quadPos < 4 && leftbits == Bits(quadPos) && leftchar < Pow2(leftbits)
      invariant goal == Prepend(out[..n], Decoded(input[i..], quadPos, leftchar, outLen - n))
      invariant !stopped && out[outLen..] == old(out[outLen..])
    {
      var c := input[i];
      ghost var rest := input[i..];
      i := i + 1;
      assert rest[1..] == input[i..];
      if c as int > 0x7f || c == '\r' || c == '\n' || c == ' ' {
        NotInTable(c);
        DecodedSkip(rest, quadPos, leftchar, outLen - n);
        continue;
      }
      if c == PAD {
        var next := FindValidFrom(input[i..]);
        PadIs(quadPos, input[i..], next);
        if quadPos < 2 || (quadPos == 2 && next != PAD as int) {
          DecodedSkip(rest, quadPos, leftchar, outLen - n);
          continue;
        }
        DecodedEnd(rest, quadPos, leftchar, outLen - n);
        PrependShape(out[..n], None);
        leftbits := 0;
        stopped := true;
        break;
      }
      var v := Dec(c);
      if v == -1 {
        DecodedSkip(rest, quadPos, leftchar, outLen - n);
        continue;
      }
      PrependShape(out[..n], None);
      quadPos, leftchar, leftbits, n, stopped := ShiftIn(out, outLen, n, quadPos, leftchar, v, rest);
      if stopped {
        break;
      }
    }
    PrependShape(out[..n], None);
    if !stopped {
      assert input[i..] == "";
      DecodedEnd("", quadPos, leftchar, outLen - n);
    }
    assert goal == if leftbits != 0 then None else Some(out[..n]);
    len := if leftbits != 0 then -1 else n;
  }

  /** base64_decode of binascii.cc: the buffer that it returns, as long as computed, holds what was decoded. */
  method DecodeStr(s: string) returns (stray: bool, r: Option<seq<Byte>>)
    ensures stray <==> Stray(s)
    ensures 0 < Pow2(Bits(0)) && (!stray ==> r == Decoded(s, 0, 0, LenOf(Run(s))))
  {
    hide Decoded, Run, LenOf, Stray;
    StrFills(s);
    var n;
    r := None;
    stray, n := DecodeLen(s);
    if stray {
      return;
    }
    var out := new Byte[n];
    var len := Decode(out, n, s);
    if len == -1 {
      return;
    }
    assert out[..n] == out[..];
    r := Some(out[..]);
  }

  lemma NotInTable(c: char)
    requires c as int > 0x7f || c == '\r' || c == '\n' || c == ' '
    ensures !Valid(c) && c != PAD
  {
  }

  lemma PadIs(quad: nat, rest: string, next: int)
    requires quad < 4 && next == if FindValid(rest) == None then -1 else FindValid(rest).value as int
    ensures Ends(quad, rest) <==> !(quad < 2 || (quad == 2 && next != PAD as int))
  {
    hide FindValid;
  }

  lemma ByteOnly(x: nat, k: nat)
    requires x / Pow2(k) < 256
    ensures Shr(x, k) % 256 == x / Pow2(k)
  {
    hide Pow2;
  }
}
