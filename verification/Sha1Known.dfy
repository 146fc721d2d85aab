/**
 A known answer of SHA-1: the digest of "abc", which is quoted at the head of sha1.c. The words of the schedule and the
 values that the first variable takes are listed, and each is computed from those before.
 */
module Sha1Known {

  import opened HashBlocks
  import opened Machine
  import opened Sha1Rounds
  import opened Sha1

  function BlockByte(i: nat): Byte {
    if i < 3 then (97 + i) as Byte else if i == 3 then 128 else if i == 63 then 24 else 0
  }

  /** Padded, it is one block. */
  function Block(): (b: seq<Byte>)
    ensures |b| == BLOCK
  {
    seq(64, i requires 0 <= i < 64 => BlockByte(i))
  }

  /** The words of the schedule. */
  function Listed(t: nat): Sha1Rounds.Word {
    if t < 10 then ListedA(t) else if t < 20 then ListedB(t - 10) else if t < 30 then ListedC(t - 20)
    else if t < 40 then ListedD(t - 30) else if t < 50 then ListedE(t - 40) else if t < 60 then ListedF(t - 50)
    else if t < 70 then ListedG(t - 60) else ListedH(t - 70)
  }

  function ListedA(j: nat): Sha1Rounds.Word {
    match j
    case 0 => 0x61626380 case 1 => 0x00000000 case 2 => 0x00000000 case 3 => 0x00000000 case 4 => 0x00000000
    case 5 => 0x00000000 case 6 => 0x00000000 case 7 => 0x00000000 case 8 => 0x00000000 case _ => 0x00000000
  }

  function ListedB(j: nat): Sha1Rounds.Word {
    match j
    case 0 => 0x00000000 case 1 => 0x00000000 case 2 => 0x00000000 case 3 => 0x00000000 case 4 => 0x00000000
    case 5 => 0x00000018 case 6 => 0xC2C4C700 case 7 => 0x00000000 case 8 => 0x00000030 case _ => 0x85898E01
  }

  function ListedC(j: nat): Sha1Rounds.Word {
    match j
    case 0 => 0x00000000 case 1 => 0x00000060 case 2 => 0x0B131C03 case 3 => 0x00000030 case 4 => 0x85898EC1
    case 5 => 0x16263806 case 6 => 0x00000000 case 7 => 0x00000180 case 8 => 0x2C4C700C case _ => 0x000000F0
  }

  function ListedD(j: nat): Sha1Rounds.Word {
    match j
    case 0 => 0x93AFB507 case 1 => 0x5898E048 case 2 => 0x8E9A9202 case 3 => 0x00000600 case 4 => 0xB131C0F0
    case 5 => 0x16263BC6 case 6 => 0x4EBED41E case 7 => 0x626380A1 case 8 => 0x16263806 case _ => 0x000018C0
  }

  function ListedE(j: nat): Sha1Rounds.Word {
    match j
    case 0 => 0xD2E138C4 case 1 => 0x00000F00 case 2 => 0x3AFB5079 case 3 => 0x898E04E5 case 4 => 0xE2BA3C2B
    case 5 => 0x000060C0 case 6 => 0x053A37CD case 7 => 0x74458547 case 8 => 0xDA9415ED case _ => 0x26380A16
  }

  function ListedF(j: nat): Sha1Rounds.Word {
    match j
    case 0 => 0x626383A1 case 1 => 0x4EBF54DE case 2 => 0x3835B44B case 3 => 0x0000F600 case 4 => 0x1E84C7A3
    case 5 => 0x98E04D98 case 6 => 0x651D16A0 case 7 => 0x62658CA1 case 8 => 0x458544D6 case _ => 0x44584CB7
  }

  function ListedG(j: nat): Sha1Rounds.Word {
    match j
    case 0 => 0x7BA06619 case 1 => 0x6380AEA2 case 2 => 0x0AE55269 case 3 => 0x627B49A1 case 4 => 0x7CD45C9D
    case 5 => 0x000F0000 case 6 => 0xFB50753A case 7 => 0xEC6765E8 case 8 => 0xBA3C2BE2 case _ => 0x0060C000
  }

  function ListedH(j: nat): Sha1Rounds.Word {
    match j
    case 0 => 0x3A37CD05 case 1 => 0x458546F4 case 2 => 0xB8599DD6 case 3 => 0x380A1A26 case 4 => 0x01E02203
    case 5 => 0xE7CC3456 case 6 => 0xE6E60B69 case 7 => 0x00F60A00 case 8 => 0x5795EF4F case _ => 0x822E0879
  }

  /** What the first variable is after t - 4 rounds. */
  function First(t: nat): Sha1Rounds.Word {
    if t < 10 then FirstA(t) else if t < 20 then FirstB(t - 10) else if t < 30 then FirstC(t - 20)
    else if t < 40 then FirstD(t - 30) else if t < 50 then FirstE(t - 40) else if t < 60 then FirstF(t - 50)
    else if t < 70 then FirstG(t - 60) else if t < 80 then FirstH(t - 70) else FirstI(t - 80)
  }

  function FirstA(j: nat): Sha1Rounds.Word {
    match j
    case 0 => 0x0F4B87C3 case 1 => 0x40C951D8 case 2 => 0x62EB73FA case 3 => 0xEFCDAB89 case 4 => 0x67452301
    case 5 => 0x0116FC33 case 6 => 0x8990536D case 7 => 0xA1390F08 case 8 => 0xCDD8E11B case _ => 0xCFD499DE
  }

  function FirstB(j: nat): Sha1Rounds.Word {
    match j
    case 0 => 0x3FC7CA40 case 1 => 0x993E30C1 case 2 => 0x9E8C07D4 case 3 => 0x4B6AE328 case 4 => 0x8351F929
    case 5 => 0xFBDA9E89 case 6 => 0x63188FE4 case 7 => 0x4607B664 case 8 => 0x9128F695 case _ => 0x196BEE77
  }

  function FirstC(j: nat): Sha1Rounds.Word {
    match j
    case 0 => 0x20BDD62F case 1 => 0x4E925823 case 2 => 0x82AA6728 case 3 => 0xDC64901D case 4 => 0xFD9E1D7D
    case 5 => 0x1A37B0CA case 6 => 0x33A23BFC case 7 => 0x21283486 case 8 => 0xD541F12D case _ => 0xC7567DC6
  }

  function FirstD(j: nat): Sha1Rounds.Word {
    match j
    case 0 => 0x48413BA4 case 1 => 0xBE35FBD5 case 2 => 0x4AA84D97 case 3 => 0x8370B52E case 4 => 0xC5FBAF5D
    case 5 => 0x1267B407 case 6 => 0x3B845D33 case 7 => 0x046FAA0A case 8 => 0x2C0EBC11 case _ => 0x21796AD4
  }

  function FirstE(j: nat): Sha1Rounds.Word {
    match j
    case 0 => 0xDCBBB0CB case 1 => 0x0F511FD8 case 2 => 0xDC63973F case 3 => 0x4C986405 case 4 => 0x32DE1CBA
    case 5 => 0xFC87DEDF case 6 => 0x970A0D5C case 7 => 0x7F193DC5 case 8 => 0xEE1B1AAF case _ => 0x40F28E09
  }

  function FirstF(j: nat): Sha1Rounds.Word {
    match j
    case 0 => 0x1C51E1F2 case 1 => 0xA01B846C case 2 => 0xBEAD02CA case 3 => 0xBAF39337 case 4 => 0x120731C5
    case 5 => 0x641DB2CE case 6 => 0x3847AD66 case 7 => 0xE490436D case 8 => 0x27E9F1D8 case _ => 0x7B71F76D
  }

  function FirstG(j: nat): Sha1Rounds.Word {
    match j
    case 0 => 0x5E6456AF case 1 => 0xC846093F case 2 => 0xD262FF50 case 3 => 0x09D785FD case 4 => 0x3F52DE5A
    case 5 => 0xD756C147 case 6 => 0x548C9CB2 case 7 => 0xB66C020B case 8 => 0x6B61C9E1 case _ => 0x19DFA7AC
  }

  function FirstH(j: nat): Sha1Rounds.Word {
    match j
    case 0 => 0x101655F9 case 1 => 0x0C3DF2B4 case 2 => 0x78DD4D2B case 3 => 0x497093C0 case 4 => 0x3F2588C2
    case 5 => 0xC199F8C7 case 6 => 0x39859DE7 case 7 => 0xEDB42DE4 case 8 => 0x11793F6F case _ => 0x5EE76897
  }

  function FirstI(j: nat): Sha1Rounds.Word {
    match j
    case 0 => 0x63F7DAB7 case 1 => 0xA079B7D9 case 2 => 0x860D21CC case 3 => 0x5738D5E1 case _ => 0x42541B35
  }

  /** The variables after t rounds. */
  function State(t: nat): Vars {
    Vars(First(t + 4), First(t + 3), Rol(First(t + 2), 30), Rol(First(t + 1), 30), Rol(First(t), 30))
  }

  /** Round t computes what is listed next. */
  predicate Turn(t: nat) {
    First(t + 5) == Total(Rol(First(t + 4), 5), Logical(t, First(t + 3), Rol(First(t + 2), 30), Rol(First(t + 1), 30)),
                          Rol(First(t), 30), K(t), Listed(t))
  }

  predicate Next(t: nat) {
    if t < 16 then
      Listed(t) == BigEndian(BlockByte(4 * t), BlockByte(4 * t + 1), BlockByte(4 * t + 2), BlockByte(4 * t + 3))
    else Listed(t) == Mixed(Listed(t - 3), Listed(t - 8), Listed(t - 14), Listed(t - 16))
  }

  ghost predicate WordsTo(t: nat) {
    forall j: nat :: j < t ==> Schedule(Block(), j) == Listed(j)
  }

  ghost predicate RoundsTo(t: nat) {
    Rounds(State(0), Block(), t) == State(t)
  }

  lemma TurnHolds(t: nat)
    requires Turn(t) && WordsTo(80) && t < 80 && RoundsTo(t)
    ensures RoundsTo(t + 1)
  {
    hide Block, Schedule, Listed, First, Rol, Logical, Total, K, Rounds;
    NextRound(State(0), Block(), t);
  }

  lemma NextHolds(t: nat)
    requires Next(t) && WordsTo(t)
    ensures WordsTo(t + 1)
  {
    hide Listed, Mixed, BigEndian, BlockByte;
    if t >= 16 {
      hide Block;
      NextWord(Block(), t);
    }
  }

  lemma Nexts0()
    ensures Next(0) && Next(1) && Next(2) && Next(3) && Next(4) && Next(5) && Next(6) && Next(7)
  {
  }

  lemma Nexts8()
    ensures Next(8) && Next(9) && Next(10) && Next(11) && Next(12) && Next(13) && Next(14) && Next(15)
  {
  }

  lemma Nexts16()
    ensures Next(16) && Next(17) && Next(18) && Next(19) && Next(20) && Next(21) && Next(22) && Next(23) && Next(24) &&
      Next(25) && Next(26) && Next(27) && Next(28) && Next(29) && Next(30) && Next(31)
  {
  }

  lemma Nexts32()
    ensures Next(32) && Next(33) && Next(34) && Next(35) && Next(36) && Next(37) && Next(38) && Next(39) && Next(40) &&
      Next(41) && Next(42) && Next(43) && Next(44) && Next(45) && Next(46) && Next(47)
  {
  }

  lemma Nexts48()
    ensures Next(48) && Next(49) && Next(50) && Next(51) && Next(52) && Next(53) && Next(54) && Next(55) && Next(56) &&
      Next(57) && Next(58) && Next(59) && Next(60) && Next(61) && Next(62) && Next(63)
  {
  }

  lemma Nexts64()
    ensures Next(64) && Next(65) && Next(66) && Next(67) && Next(68) && Next(69) && Next(70) && Next(71) && Next(72) &&
      Next(73) && Next(74) && Next(75) && Next(76) && Next(77) && Next(78) && Next(79)
  {
  }

  lemma Turns0()
    ensures Turn(0) && Turn(1) && Turn(2) && Turn(3) && Turn(4) && Turn(5) && Turn(6) && Turn(7) && Turn(8) && Turn(9)
  {
  }

  lemma Turns10()
    ensures Turn(10) && Turn(11) && Turn(12) && Turn(13) && Turn(14) && Turn(15) && Turn(16) && Turn(17) && Turn(18) &&
      Turn(19)
  {
  }

  lemma Turns20()
    ensures Turn(20) && Turn(21) && Turn(22) && Turn(23) && Turn(24) && Turn(25) && Turn(26) && Turn(27) && Turn(28) &&
      Turn(29)
  {
  }

  lemma Turns30()
    ensures Turn(30) && Turn(31) && Turn(32) && Turn(33) && Turn(34) && Turn(35) && Turn(36) && Turn(37) && Turn(38) &&
      Turn(39)
  {
  }

  lemma Turns40()
    ensures Turn(40) && Turn(41) && Turn(42) && Turn(43) && Turn(44) && Turn(45) && Turn(46) && Turn(47) && Turn(48) &&
      Turn(49)
  {
  }

  lemma Turns50()
    ensures Turn(50) && Turn(51) && Turn(52) && Turn(53) && Turn(54) && Turn(55) && Turn(56) && Turn(57) && Turn(58) &&
      Turn(59)
  {
  }

  lemma Turns60()
    ensures Turn(60) && Turn(61) && Turn(62) && Turn(63) && Turn(64) && Turn(65) && Turn(66) && Turn(67) && Turn(68) &&
      Turn(69)
  {
  }

  lemma Turns70()
    ensures Turn(70) && Turn(71) && Turn(72) && Turn(73) && Turn(74) && Turn(75) && Turn(76) && Turn(77) && Turn(78) &&
      Turn(79)
  {
  }

  lemma NoWord()
    ensures WordsTo(0)
  {
  }

  lemma NoRound()
    ensures RoundsTo(0)
  {
  }

  lemma Words40()
    ensures WordsTo(40)
  {
    hide *;
    NoWord();
    Nexts0();
    Nexts8();
    Nexts16();
    Nexts32();
    NextHolds(0); NextHolds(1); NextHolds(2); NextHolds(3); NextHolds(4); NextHolds(5); NextHolds(6); NextHolds(7);
    NextHolds(8); NextHolds(9); NextHolds(10); NextHolds(11); NextHolds(12); NextHolds(13); NextHolds(14);
    NextHolds(15); NextHolds(16); NextHolds(17); NextHolds(18); NextHolds(19); NextHolds(20); NextHolds(21);
    NextHolds(22); NextHolds(23); NextHolds(24); NextHolds(25); NextHolds(26); NextHolds(27); NextHolds(28);
    NextHolds(29); NextHolds(30); NextHolds(31); NextHolds(32); NextHolds(33); NextHolds(34); NextHolds(35);
    NextHolds(36); NextHolds(37); NextHolds(38); NextHolds(39);
  }

  lemma Words80()
    ensures WordsTo(80)
  {
    hide *;
    Words40();
    Nexts32();
    Nexts48();
    Nexts64();
    NextHolds(40); NextHolds(41); NextHolds(42); NextHolds(43); NextHolds(44); NextHolds(45); NextHolds(46);
    NextHolds(47); NextHolds(48); NextHolds(49); NextHolds(50); NextHolds(51); NextHolds(52); NextHolds(53);
    NextHolds(54); NextHolds(55); NextHolds(56); NextHolds(57); NextHolds(58); NextHolds(59); NextHolds(60);
    NextHolds(61); NextHolds(62); NextHolds(63); NextHolds(64); NextHolds(65); NextHolds(66); NextHolds(67);
    NextHolds(68); NextHolds(69); NextHolds(70); NextHolds(71); NextHolds(72); NextHolds(73); NextHolds(74);
    NextHolds(75); NextHolds(76); NextHolds(77); NextHolds(78); NextHolds(79);
  }

  lemma Rounds40()
    ensures RoundsTo(40)
  {
    hide *;
    NoRound();
    Words80();
    Turns0();
    Turns10();
    Turns20();
    Turns30();
    TurnHolds(0); TurnHolds(1); TurnHolds(2); TurnHolds(3); TurnHolds(4); TurnHolds(5); TurnHolds(6); TurnHolds(7);
    TurnHolds(8); TurnHolds(9); TurnHolds(10); TurnHolds(11); TurnHolds(12); TurnHolds(13); TurnHolds(14);
    TurnHolds(15); TurnHolds(16); TurnHolds(17); TurnHolds(18); TurnHolds(19); TurnHolds(20); TurnHolds(21);
    TurnHolds(22); TurnHolds(23); TurnHolds(24); TurnHolds(25); TurnHolds(26); TurnHolds(27); TurnHolds(28);
    TurnHolds(29); TurnHolds(30); TurnHolds(31); TurnHolds(32); TurnHolds(33); TurnHolds(34); TurnHolds(35);
    TurnHolds(36); TurnHolds(37); TurnHolds(38); TurnHolds(39);
  }

  lemma Rounds80()
    ensures RoundsTo(80)
  {
    hide *;
    Rounds40();
    Words80();
    Turns40();
    Turns50();
    Turns60();
    Turns70();
    TurnHolds(40); TurnHolds(41); TurnHolds(42); TurnHolds(43); TurnHolds(44); TurnHolds(45); TurnHolds(46);
    TurnHolds(47); TurnHolds(48); TurnHolds(49); TurnHolds(50); TurnHolds(51); TurnHolds(52); TurnHolds(53);
    TurnHolds(54); TurnHolds(55); TurnHolds(56); TurnHolds(57); TurnHolds(58); TurnHolds(59); TurnHolds(60);
    TurnHolds(61); TurnHolds(62); TurnHolds(63); TurnHolds(64); TurnHolds(65); TurnHolds(66); TurnHolds(67);
    TurnHolds(68); TurnHolds(69); TurnHolds(70); TurnHolds(71); TurnHolds(72); TurnHolds(73); TurnHolds(74);
    TurnHolds(75); TurnHolds(76); TurnHolds(77); TurnHolds(78); TurnHolds(79);
  }

  lemma AbcPadded()
    ensures Padded(Abc(), LengthBytes(3)) == Block()
  {
    AbcLength();
    hide BlockByte;
    var p := Padded(Abc(), LengthBytes(3));
    forall i: nat | i < 64 ensures p[i] == BlockByte(i) {
      BlockByteIs(i);
    }
  }

  lemma AbcLength()
    ensures Zeros(3) == 52 && LengthBytes(3) == [0, 0, 0, 0, 0, 0, 0, 24]
  {
    forall i: nat | i < 8 ensures LengthBytes(3)[i] == if i == 7 then 24 else 0 {
      assert Bits(3) == 24;
      DigitOfByte(24, 7 - i);
      ByteIs(24, 7 - i);
    }
  }

  lemma BlockByteIs(i: nat)
    ensures BlockByte(i) == if i < 3 then Abc()[i] else if i == 3 then 128 else if i == 63 then 24 else 0
  {
  }

  function AbcAnswer(): seq<Byte> {
    [0xA9, 0x99, 0x3E, 0x36, 0x47, 0x06, 0x81, 0x6A, 0xBA, 0x3E, 0x25, 0x71, 0x78, 0x50, 0xC2, 0x6C, 0x9C,
     0xD0, 0xD8, 0x9D]
  }

  lemma Ends()
    ensures State(0) == Initial()
    ensures Sum(State(0), State(80)) == Vars(0xA9993E36, 0x4706816A, 0xBA3E2571, 0x7850C26C, 0x9CD0D89D)
  {
  }

  lemma DigestIs()
    ensures DigestOf(Vars(0xA9993E36, 0x4706816A, 0xBA3E2571, 0x7850C26C, 0x9CD0D89D)) == AbcAnswer()
  {
  }

  /** The digest of "abc" is A9993E36 4706816A BA3E2571 7850C26C 9CD0D89D. */
  lemma AbcDigest()
    ensures Hash(Abc()) == AbcAnswer()
  {
    AbcPadded();
    Rounds80();
    Ends();
    DigestIs();
    hide Padded, LengthBytes, Block, State, Rounds, Sum, DigestOf;
    FoldBlock(Block());
  }

  lemma FoldBlock(b: seq<Byte>)
    requires |b| == BLOCK
    ensures Fold(Compress, Initial(), b) == Sum(Initial(), Rounds(Initial(), b, 80))
  {
    hide Sum, Rounds, Initial;
    OneBlock(Compress, Initial(), b);
    assert b[..BLOCK] == b && b[BLOCK..] == [];
    FoldNothing(Compress, Compress(Initial(), b));
  }
}
