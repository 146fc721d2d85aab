/**
 A known answer of MD5: the digest of "abc" in the test suite of section A.5 of RFC 1321. The values that the registers
 take are listed, and each is computed from those before.
 */
module Md5Known {

  import opened HashBlocks
  import opened Machine
  import opened Md5Rounds
  import opened Md5

  function BlockByte(i: nat): Byte {
    if i < 3 then (97 + i) as Byte else if i == 3 then 128 else if i == 56 then 24 else 0
  }

  /** Padded, it is one block. */
  function Block(): (b: seq<Byte>)
    ensures |b| == BLOCK
  {
    seq(64, i requires 0 <= i < 64 => BlockByte(i))
  }

  /** Its words. */
  function Word(k: nat): Md5Rounds.Word {
    if k == 0 then 0x80636261 else if k == 14 then 24 else 0
  }

  /** The registers at first, from a down to b, and then what each operation adds. */
  function New(t: nat): Md5Rounds.Word {
    if t < 10 then NewA(t) else if t < 20 then NewB(t - 10) else if t < 30 then NewC(t - 20)
    else if t < 40 then NewD(t - 30) else if t < 50 then NewE(t - 40) else if t < 60 then NewF(t - 50)
    else NewG(t - 60)
  }

  function NewA(j: nat): Md5Rounds.Word {
    match j
    case 0 => 0x67452301 case 1 => 0x10325476 case 2 => 0x98BADCFE case 3 => 0xEFCDAB89 case 4 => 0xD6D117B4
    case 5 => 0x344A8432 case 6 => 0x2F6FBD72 case 7 => 0x7AD956F2 case 8 => 0xC73741EF case _ => 0x8BAC3051
  }

  function NewB(j: nat): Md5Rounds.Word {
    match j
    case 0 => 0x207DC67B case 1 => 0x928D99F6 case 2 => 0x854B3712 case 3 => 0x74E2F284 case 4 => 0x3020401C
    case 5 => 0x5ED49596 case 6 => 0xDDA9B9A6 case 7 => 0xA1051895 case 8 => 0xE396856B case _ => 0x72AFF2E0
  }

  function NewC(j: nat): Md5Rounds.Word {
    match j
    case 0 => 0x3E9E9126 case 1 => 0x4A1D804E case 2 => 0xE25E1652 case 3 => 0xB5B204E4 case 4 => 0x59A8FFDA
    case 5 => 0x6D002F1E case 6 => 0xABFC7920 case 7 => 0x47092C07 case 8 => 0xB7F268CF case _ => 0x09388EFF
  }

  function NewD(j: nat): Md5Rounds.Word {
    match j
    case 0 => 0xFE1623B1 case 1 => 0x786ACB8F case 2 => 0x790A77FB case 3 => 0x9F47E4F8 case 4 => 0xA62884AA
    case 5 => 0x726342D3 case 6 => 0xB3707EBF case 7 => 0x60127B2E case 8 => 0x8D212FF5 case _ => 0x3B0875C7
  }

  function NewE(j: nat): Md5Rounds.Word {
    match j
    case 0 => 0x21B117B9 case 1 => 0x6E7429D5 case 2 => 0x3575227E case 3 => 0x5A2F5EA5 case 4 => 0x11DE1779
    case 5 => 0xFADCAA38 case 6 => 0x31C465CA case 7 => 0x4C6124F4 case 8 => 0x7F2E507B case _ => 0x99D9679D
  }

  function NewF(j: nat): Md5Rounds.Word {
    match j
    case 0 => 0x8FAE6399 case 1 => 0x7BEB9700 case 2 => 0x7B201DF8 case 3 => 0xF4E8E96E case 4 => 0xB298CEFD
    case 5 => 0x8BF025C4 case 6 => 0x06CC5E8A case 7 => 0x5B0D97AA case 8 => 0x7D632DD0 case _ => 0x3BFA2C27
  }

  function NewG(j: nat): Md5Rounds.Word {
    match j
    case 0 => 0x7F81CC35 case 1 => 0x094454AB case 2 => 0x4F9DBE3F case 3 => 0x7327D604 case 4 => 0x310ADE8F
    case 5 => 0x624D8CB2 case 6 => 0xE484B9D8 case _ => 0xC08226B3
  }

  /** The registers after i operations. */
  function State(i: nat): Vars {
    Vars(New(i), New(i + 3), New(i + 2), New(i + 1))
  }

  /** Operation i, with that word, constant and shift, computes what is listed next. */
  predicate TurnBy(i: nat, k: nat, t: Md5Rounds.Word, s: nat)
    requires 0 < s < 32
  {
    New(i + 4) == Plus(New(i + 3),
      Rol(Total(New(i), Logical(i, New(i + 3), New(i + 2), New(i + 1)), Word(k), t), s))
  }

  ghost predicate TurnsTo(i: nat) {
    Operations(State(0), Block(), i) == State(i)
  }

  lemma TurnHolds(i: nat)
    requires TurnBy(i, Index(i), Sine(i), Amount(i)) && TurnsTo(i)
    ensures TurnsTo(i + 1)
  {
    hide Block, New, Rol, Logical, Total, Plus, Sine, X, Word, Index, Amount;
    Loads(Index(i));
  }

  lemma Loads(k: nat)
    requires k < 16
    ensures X(Block(), k) == Word(k)
  {
    hide LittleEndian;
    LoadsFirst();
    LoadsZero();
    BlockByteIs(4 * k);
    BlockByteIs(4 * k + 1);
    BlockByteIs(4 * k + 2);
    BlockByteIs(4 * k + 3);
  }

  lemma LoadsFirst()
    ensures LittleEndian(97, 98, 99, 128) == 0x80636261 && LittleEndian(24, 0, 0, 0) == 24
  {
  }

  lemma LoadsZero()
    ensures LittleEndian(0, 0, 0, 0) == 0
  {
  }

  lemma BlockByteIs(i: nat)
    ensures BlockByte(i) == if i < 3 then Abc()[i] else if i == 3 then 128 else if i == 56 then 24 else 0
  {
  }

  lemma Turns0()
    ensures TurnBy(0, 0, 0xD76AA478, 7) && TurnBy(1, 1, 0xE8C7B756, 12) && TurnBy(2, 2, 0x242070DB, 17) &&
      TurnBy(3, 3, 0xC1BDCEEE, 22) && TurnBy(4, 4, 0xF57C0FAF, 7) && TurnBy(5, 5, 0x4787C62A, 12) &&
      TurnBy(6, 6, 0xA8304613, 17) && TurnBy(7, 7, 0xFD469501, 22)
  {
  }

  lemma Turns8()
    ensures TurnBy(8, 8, 0x698098D8, 7) && TurnBy(9, 9, 0x8B44F7AF, 12) && TurnBy(10, 10, 0xFFFF5BB1, 17) &&
      TurnBy(11, 11, 0x895CD7BE, 22)
  {
  }

  lemma Turns12()
    ensures TurnBy(12, 12, 0x6B901122, 7) && TurnBy(13, 13, 0xFD987193, 12) && TurnBy(14, 14, 0xA679438E, 17) &&
      TurnBy(15, 15, 0x49B40821, 22)
  {
  }

  lemma Turns16()
    ensures TurnBy(16, 1, 0xF61E2562, 5) && TurnBy(17, 6, 0xC040B340, 9) && TurnBy(18, 11, 0x265E5A51, 14) &&
      TurnBy(19, 0, 0xE9B6C7AA, 20) && TurnBy(20, 5, 0xD62F105D, 5) && TurnBy(21, 10, 0x02441453, 9) &&
      TurnBy(22, 15, 0xD8A1E681, 14) && TurnBy(23, 4, 0xE7D3FBC8, 20)
  {
  }

  lemma Turns24()
    ensures TurnBy(24, 9, 0x21E1CDE6, 5) && TurnBy(25, 14, 0xC33707D6, 9) && TurnBy(26, 3, 0xF4D50D87, 14) &&
      TurnBy(27, 8, 0x455A14ED, 20) && TurnBy(28, 13, 0xA9E3E905, 5) && TurnBy(29, 2, 0xFCEFA3F8, 9) &&
      TurnBy(30, 7, 0x676F02D9, 14) && TurnBy(31, 12, 0x8D2A4C8A, 20)
  {
  }

  lemma Turns32()
    ensures TurnBy(32, 5, 0xFFFA3942, 4) && TurnBy(33, 8, 0x8771F681, 11) && TurnBy(34, 11, 0x6D9D6122, 16) &&
      TurnBy(35, 14, 0xFDE5380C, 23) && TurnBy(36, 1, 0xA4BEEA44, 4) && TurnBy(37, 4, 0x4BDECFA9, 11) &&
      TurnBy(38, 7, 0xF6BB4B60, 16) && TurnBy(39, 10, 0xBEBFBC70, 23)
  {
  }

  lemma Turns40()
    ensures TurnBy(40, 13, 0x289B7EC6, 4) && TurnBy(41, 0, 0xEAA127FA, 11) && TurnBy(42, 3, 0xD4EF3085, 16) &&
      TurnBy(43, 6, 0x04881D05, 23) && TurnBy(44, 9, 0xD9D4D039, 4) && TurnBy(45, 12, 0xE6DB99E5, 11) &&
      TurnBy(46, 15, 0x1FA27CF8, 16) && TurnBy(47, 2, 0xC4AC5665, 23)
  {
  }

  lemma Turns48()
    ensures TurnBy(48, 0, 0xF4292244, 6) && TurnBy(49, 7, 0x432AFF97, 10) && TurnBy(50, 14, 0xAB9423A7, 15) &&
      TurnBy(51, 5, 0xFC93A039, 21) && TurnBy(52, 12, 0x655B59C3, 6) && TurnBy(53, 3, 0x8F0CCC92, 10) &&
      TurnBy(54, 10, 0xFFEFF47D, 15) && TurnBy(55, 1, 0x85845DD1, 21)
  {
  }

  lemma Turns56()
    ensures TurnBy(56, 8, 0x6FA87E4F, 6) && TurnBy(57, 15, 0xFE2CE6E0, 10) && TurnBy(58, 6, 0xA3014314, 15) &&
      TurnBy(59, 13, 0x4E0811A1, 21) && TurnBy(60, 4, 0xF7537E82, 6) && TurnBy(61, 11, 0xBD3AF235, 10) &&
      TurnBy(62, 2, 0x2AD7D2BB, 15) && TurnBy(63, 9, 0xEB86D391, 21)
  {
  }

  lemma NoTurn()
    ensures TurnsTo(0)
  {
  }

  lemma FirstRounds()
    ensures TurnsTo(32)
  {
    hide *;
    NoTurn();
    Turns0();
    Turns8();
    Turns12();
    Turns16();
    Turns24();
    Numbers1();
    Numbers2();
    TurnHolds(0); TurnHolds(1); TurnHolds(2); TurnHolds(3); TurnHolds(4); TurnHolds(5); TurnHolds(6); TurnHolds(7);
    TurnHolds(8); TurnHolds(9); TurnHolds(10); TurnHolds(11); TurnHolds(12); TurnHolds(13); TurnHolds(14);
    TurnHolds(15); TurnHolds(16); TurnHolds(17); TurnHolds(18); TurnHolds(19); TurnHolds(20); TurnHolds(21);
    TurnHolds(22); TurnHolds(23); TurnHolds(24); TurnHolds(25); TurnHolds(26); TurnHolds(27); TurnHolds(28);
    TurnHolds(29); TurnHolds(30); TurnHolds(31);
  }

  lemma LastRounds()
    ensures TurnsTo(64)
  {
    hide *;
    FirstRounds();
    Turns32();
    Turns40();
    Turns48();
    Turns56();
    Numbers3();
    Numbers4();
    TurnHolds(32); TurnHolds(33); TurnHolds(34); TurnHolds(35); TurnHolds(36); TurnHolds(37); TurnHolds(38);
    TurnHolds(39); TurnHolds(40); TurnHolds(41); TurnHolds(42); TurnHolds(43); TurnHolds(44); TurnHolds(45);
    TurnHolds(46); TurnHolds(47); TurnHolds(48); TurnHolds(49); TurnHolds(50); TurnHolds(51); TurnHolds(52);
    TurnHolds(53); TurnHolds(54); TurnHolds(55); TurnHolds(56); TurnHolds(57); TurnHolds(58); TurnHolds(59);
    TurnHolds(60); TurnHolds(61); TurnHolds(62); TurnHolds(63);
  }

  lemma AbcPadded()
    ensures Padded(Abc(), LengthBytes(3)) == Block()
  {
    AbcLength();
    hide BlockByte;
    var p := Padded(Abc(), LengthBytes(3));
    forall i: nat | i < 64 ensures p[i] == BlockByte(i) {
      BlockByteIs(i);
    }
  }

  lemma AbcLength()
    ensures Zeros(3) == 52 && LengthBytes(3) == [24, 0, 0, 0, 0, 0, 0, 0]
  {
    forall i: nat | i < 8 ensures LengthBytes(3)[i] == if i == 0 then 24 else 0 {
      assert HashBlocks.Bits(3) == 24;
      DigitOfByte(24, i);
      ByteIs(24, i);
    }
  }

  function AbcAnswer(): seq<Byte> {
    [0x90, 0x01, 0x50, 0x98, 0x3c, 0xd2, 0x4f, 0xb0, 0xd6, 0x96, 0x3f, 0x7d, 0x28, 0xe1, 0x7f, 0x72]
  }

  lemma Ends()
    ensures State(0) == Initial()
    ensures Sum(State(64), State(0)) == Vars(0x98500190, 0xB04FD23C, 0x7D3F96D6, 0x727FE128)
  {
  }

  lemma DigestIs()
    ensures DigestOf(Vars(0x98500190, 0xB04FD23C, 0x7D3F96D6, 0x727FE128)) == AbcAnswer()
  {
  }

  /** The digest of "abc" is 900150983cd24fb0d6963f7d28e17f72. */
  lemma AbcDigest()
    ensures Hash(Abc()) == AbcAnswer()
  {
    AbcPadded();
    LastRounds();
    Ends();
    DigestIs();
    hide Padded, LengthBytes, Block, State, Operations, Sum, DigestOf;
    FoldBlock(Block());
  }

  lemma FoldBlock(b: seq<Byte>)
    requires |b| == BLOCK
    ensures Fold(Compress, Initial(), b) == Sum(Operations(Initial(), b, 64), Initial())
  {
    hide Sum, Operations, Initial;
    OneBlock(Compress, Initial(), b);
    assert b[..BLOCK] == b && b[BLOCK..] == [];
    FoldNothing(Compress, Compress(Initial(), b));
  }
}
