/**
 The block function of MD5. The specification is section 3.4 of RFC 1321: four rounds of 16 operations on four
 registers that shift after each of them. The program does not shift but lets the registers take turns, and has
 shorter forms of the logical functions.
 */
module Md5Rounds {

  import opened HashBlocks

  type Word = bv32

  datatype Vars = Vars(a: Word, b: Word, c: Word, d: Word)

  // ----- section 3.4 of RFC 1321 -----

  function Shifts(x: Word, y: Word, n: nat): Word
    requires 0 < n < 32
  {
    (x << n) | (y >> (32 - n))
  }

  function Rol(x: Word, n: nat): Word
    requires 0 < n < 32
  {
    Shifts(x, x, n)
  }

  function LittleEndian(b0: Byte, b1: Byte, b2: Byte, b3: Byte): Word {
    b0 as Word | (b1 as Word << 8) | (b2 as Word << 16) | (b3 as Word << 24)
  }

  /** Word k of a block. */
  function X(block: seq<Byte>, k: nat): Word
    requires |block| == BLOCK && k < 16
  {
    LittleEndian(block[4 * k], block[4 * k + 1], block[4 * k + 2], block[4 * k + 3])
  }

  function F(x: Word, y: Word, z: Word): Word {
    (x & y) | (!x & z)
  }

  function G(x: Word, y: Word, z: Word): Word {
    (x & z) | (y & !z)
  }

  function H(x: Word, y: Word, z: Word): Word {
    x ^ y ^ z
  }

  function I(x: Word, y: Word, z: Word): Word {
    y ^ (x | !z)
  }

  function Logical(i: nat, x: Word, y: Word, z: Word): Word {
    if i < 16 then F(x, y, z) else if i < 32 then G(x, y, z) else if i < 48 then H(x, y, z) else I(x, y, z)
  }

  /** Which word operation i takes. */
  function Index(i: nat): (k: nat)
    ensures k < 16
  {
    if i < 16 then i else if i < 32 then (5 * i + 1) % 16 else if i < 48 then (3 * i + 5) % 16 else 7 * i % 16
  }

  /** How far operation i rotates: the four amounts of its round in turn. */
  function Amount(i: nat): (s: nat)
    ensures 0 < s < 32
  {
    var turn := i % 4;
    if i < 16 then (if turn == 0 then 7 else if turn == 1 then 12 else if turn == 2 then 17 else 22)
    else if i < 32 then (if turn == 0 then 5 else if turn == 1 then 9 else if turn == 2 then 14 else 20)
    else if i < 48 then (if turn == 0 then 4 else if turn == 1 then 11 else if turn == 2 then 16 else 23)
    else (if turn == 0 then 6 else if turn == 1 then 10 else if turn == 2 then 15 else 21)
  }

  /** The integer part of 4294967296 times the absolute sine of i + 1: the table of section 3.4, counted from 0. */
  function Sine(i: nat): Word {
    if i < 16 then Sine1(i) else if i < 32 then Sine2(i - 16) else if i < 48 then Sine3(i - 32) else Sine4(i - 48)
  }

  function Sine1(j: nat): Word {
    match j
    case 0 => 0xd76aa478 case 1 => 0xe8c7b756 case 2 => 0x242070db case 3 => 0xc1bdceee case 4 => 0xf57c0faf
    case 5 => 0x4787c62a case 6 => 0xa8304613 case 7 => 0xfd469501 case 8 => 0x698098d8 case 9 => 0x8b44f7af
    case 10 => 0xffff5bb1 case 11 => 0x895cd7be case 12 => 0x6b901122 case 13 => 0xfd987193 case 14 => 0xa679438e
    case _ => 0x49b40821
  }

  function Sine2(j: nat): Word {
    match j
    case 0 => 0xf61e2562 case 1 => 0xc040b340 case 2 => 0x265e5a51 case 3 => 0xe9b6c7aa case 4 => 0xd62f105d
    case 5 => 0x02441453 case 6 => 0xd8a1e681 case 7 => 0xe7d3fbc8 case 8 => 0x21e1cde6 case 9 => 0xc33707d6
    case 10 => 0xf4d50d87 case 11 => 0x455a14ed case 12 => 0xa9e3e905 case 13 => 0xfcefa3f8 case 14 => 0x676f02d9
    case _ => 0x8d2a4c8a
  }

  function Sine3(j: nat): Word {
    match j
    case 0 => 0xfffa3942 case 1 => 0x8771f681 case 2 => 0x6d9d6122 case 3 => 0xfde5380c case 4 => 0xa4beea44
    case 5 => 0x4bdecfa9 case 6 => 0xf6bb4b60 case 7 => 0xbebfbc70 case 8 => 0x289b7ec6 case 9 => 0xeaa127fa
    case 10 => 0xd4ef3085 case 11 => 0x04881d05 case 12 => 0xd9d4d039 case 13 => 0xe6db99e5 case 14 => 0x1fa27cf8
    case _ => 0xc4ac5665
  }

  function Sine4(j: nat): Word {
    match j
    case 0 => 0xf4292244 case 1 => 0x432aff97 case 2 => 0xab9423a7 case 3 => 0xfc93a039 case 4 => 0x655b59c3
    case 5 => 0x8f0ccc92 case 6 => 0xffeff47d case 7 => 0x85845dd1 case 8 => 0x6fa87e4f case 9 => 0xfe2ce6e0
    case 10 => 0xa3014314 case 11 => 0x4e0811a1 case 12 => 0xf7537e82 case 13 => 0xbd3af235 case 14 => 0x2ad7d2bb
    case _ => 0xeb86d391
  }

  /** The sum that is rotated, modulo 2^32. */
  function Total(a: Word, f: Word, x: Word, t: Word): Word {
    a + f + x + t
  }

  function Plus(x: Word, y: Word): Word {
    x + y
  }

  /** Operation i: a = b + ((a + f(b, c, d) + X[k] + T[i]) <<< s); then the registers shift. */
  function Operation(v: Vars, i: nat, block: seq<Byte>): Vars
    requires |block| == BLOCK
  {
    var sum := Total(v.a, Logical(i, v.b, v.c, v.d), X(block, Index(i)), Sine(i));
    Vars(v.d, Plus(v.b, Rol(sum, Amount(i))), v.b, v.c)
  }

  function Operations(v: Vars, block: seq<Byte>, i: nat): Vars
    requires |block| == BLOCK
  {
    if i == 0 then v else Operation(Operations(v, block, i - 1), i - 1, block)
  }

  function Sum(v: Vars, w: Vars): Vars {
    Vars(Plus(v.a, w.a), Plus(v.b, w.b), Plus(v.c, w.c), Plus(v.d, w.d))
  }

  /** The block function. */
  function Compress(v: Vars, block: seq<Byte>): Vars {
    if |block| == BLOCK then Sum(Operations(v, block, 64), v) else v
  }

  // ----- the macros -----

  /** The macros for the logical functions; round 3 has two, by turns. */
  datatype Form = FormF | FormG | FormH | FormH2 | FormI

  function FastF(x: Word, y: Word, z: Word): Word {
    z ^ (x & (y ^ z))
  }

  function FastG(x: Word, y: Word, z: Word): Word {
    y ^ (z & (x ^ y))
  }

  function FastH2(x: Word, y: Word, z: Word): Word {
    x ^ (y ^ z)
  }

  function Fast(form: Form, x: Word, y: Word, z: Word): Word {
    match form
    case FormF => FastF(x, y, z)
    case FormG => FastG(x, y, z)
    case FormH => H(x, y, z)
    case FormH2 => FastH2(x, y, z)
    case FormI => I(x, y, z)
  }

  /** A macro of the round to which operation i belongs. */
  predicate Belongs(form: Form, i: nat) {
    match form
    case FormF => i < 16
    case FormG => 16 <= i < 32
    case FormH => 32 <= i < 48
    case FormH2 => 32 <= i < 48
    case FormI => 48 <= i
  }

  /** The shorter forms are the functions of section 3.4. */
  lemma FastForms(x: Word, y: Word, z: Word)
    ensures FastF(x, y, z) == F(x, y, z) && FastG(x, y, z) == G(x, y, z) && FastH2(x, y, z) == H(x, y, z)
  {
    hide *;
    FastBodies(x, y, z);
    FBits(x, y, z);
    GBits(x, y, z);
    HBits(x, y, z);
  }

  lemma FastBodies(x: Word, y: Word, z: Word)
    ensures FastF(x, y, z) == z ^ (x & (y ^ z)) && FastG(x, y, z) == y ^ (z & (x ^ y))
    ensures FastH2(x, y, z) == x ^ (y ^ z)
  {
  }

  lemma FBits(x: Word, y: Word, z: Word)
    ensures z ^ (x & (y ^ z)) == F(x, y, z)
  {
  }

  lemma GBits(x: Word, y: Word, z: Word)
    ensures y ^ (z & (x ^ y)) == G(x, y, z)
  {
  }

  lemma HBits(x: Word, y: Word, z: Word)
    ensures x ^ (y ^ z) == H(x, y, z)
  {
  }

  /** The mask of STEP, for words that are wider than 32 bits. */
  function Low32(x: Word): (r: Word)
    ensures r == x
  {
    x & 0xffffffff
  }

  function MaskedRol(x: Word, s: nat): Word
    requires 0 < s < 32
  {
    Shifts(x, Low32(x), s)
  }

  lemma MaskedIs(x: Word, s: nat)
    requires 0 < s < 32
    ensures MaskedRol(x, s) == Rol(x, s)
  {
    hide Low32, Shifts;
  }

  /** What STEP rotates: the same four terms as in an operation, in another order. */
  function Accumulated(a: Word, f: Word, x: Word, t: Word): (s: Word)
    ensures s == Total(a, f, x, t)
  {
    a + (f + x + t)
  }

  /** The macro STEP, given the value of its logical function: the new value of its first register. */
  function Step(a: Word, b: Word, f: Word, x: Word, t: Word, s: nat): Word
    requires 0 < s < 32
  {
    Plus(MaskedRol(Accumulated(a, f, x, t), s), b)
  }

  lemma StepIs(a: Word, b: Word, f: Word, x: Word, t: Word, s: nat)
    requires 0 < s < 32
    ensures Step(a, b, f, x, t, s) == Plus(b, Rol(Total(a, f, x, t), s))
  {
    hide Rol, MaskedRol, Accumulated, Total, Plus;
    MaskedIs(Total(a, f, x, t), s);
    PlusSwaps(Rol(Total(a, f, x, t), s), b);
  }

  lemma PlusSwaps(x: Word, y: Word)
    ensures Plus(x, y) == Plus(y, x)
  {
  }

  lemma FastLogical(form: Form, i: nat, x: Word, y: Word, z: Word)
    requires Belongs(form, i)
    ensures Fast(form, x, y, z) == Logical(i, x, y, z)
  {
    hide F, G, H, I, FastF, FastG, FastH2;
    FastForms(x, y, z);
  }

  lemma StepOperates(v: Vars, block: seq<Byte>, i: nat, a: Word, b: Word, c: Word, d: Word, f: Word)
    requires |block| == BLOCK && Vars(a, b, c, d) == Operations(v, block, i) && f == Logical(i, b, c, d)
    ensures Vars(d, Step(a, b, f, X(block, Index(i)), Sine(i), Amount(i)), b, c) == Operations(v, block, i + 1)
  {
    hide Step, Logical, X, Sine, Index, Amount, Rol, Total, Plus;
    StepIs(a, b, f, X(block, Index(i)), Sine(i), Amount(i));
  }

  /** STEP with its arguments, as operation i: it changes its first register only. */
  method DoStep(form: Form, a: Word, b: Word, c: Word, d: Word, block: seq<Byte>, k: nat, t: Word, s: nat,
      ghost v: Vars, ghost i: nat)
    returns (r: Word)
    requires |block| == BLOCK && Vars(a, b, c, d) == Operations(v, block, i) && Belongs(form, i)
    requires k == Index(i) && t == Sine(i) && s == Amount(i)
    ensures Vars(d, r, b, c) == Operations(v, block, i + 1)
  {
    hide Operations, Fast, X, Step, Index, Sine, Amount, Logical, Belongs;
    FastLogical(form, i, b, c, d);
    StepOperates(v, block, i, a, b, c, d, Logical(i, b, c, d));
    r := Step(a, b, Fast(form, b, c, d), X(block, k), t, s);
  }

  lemma Numbers1()
    ensures Index(0) == 0 && Sine(0) == 0xd76aa478 && Amount(0) == 7
    ensures Index(1) == 1 && Sine(1) == 0xe8c7b756 && Amount(1) == 12
    ensures Index(2) == 2 && Sine(2) == 0x242070db && Amount(2) == 17
    ensures Index(3) == 3 && Sine(3) == 0xc1bdceee && Amount(3) == 22
    ensures Index(4) == 4 && Sine(4) == 0xf57c0faf && Amount(4) == 7
    ensures Index(5) == 5 && Sine(5) == 0x4787c62a && Amount(5) == 12
    ensures Index(6) == 6 && Sine(6) == 0xa8304613 && Amount(6) == 17
    ensures Index(7) == 7 && Sine(7) == 0xfd469501 && Amount(7) == 22
    ensures Index(8) == 8 && Sine(8) == 0x698098d8 && Amount(8) == 7
    ensures Index(9) == 9 && Sine(9) == 0x8b44f7af && Amount(9) == 12
    ensures Index(10) == 10 && Sine(10) == 0xffff5bb1 && Amount(10) == 17
    ensures Index(11) == 11 && Sine(11) == 0x895cd7be && Amount(11) == 22
    ensures Index(12) == 12 && Sine(12) == 0x6b901122 && Amount(12) == 7
    ensures Index(13) == 13 && Sine(13) == 0xfd987193 && Amount(13) == 12
    ensures Index(14) == 14 && Sine(14) == 0xa679438e && Amount(14) == 17
    ensures Index(15) == 15 && Sine(15) == 0x49b40821 && Amount(15) == 22
  {
  }

  /** Round 1. */
  method Round1(block: seq<Byte>, a0: Word, b0: Word, c0: Word, d0: Word, ghost v: Vars)
    returns (a: Word, b: Word, c: Word, d: Word)
    requires |block| == BLOCK && Vars(a0, b0, c0, d0) == Operations(v, block, 0)
    ensures Vars(a, b, c, d) == Operations(v, block, 16)
  {
    hide Operations, Fast, X, Step, Index, Sine, Amount;
    Numbers1();
    a, b, c, d := a0, b0, c0, d0;
    a := DoStep(FormF, a, b, c, d, block, 0, 0xd76aa478, 7, v, 0);
    d := DoStep(FormF, d, a, b, c, block, 1, 0xe8c7b756, 12, v, 1);
    c := DoStep(FormF, c, d, a, b, block, 2, 0x242070db, 17, v, 2);
    b := DoStep(FormF, b, c, d, a, block, 3, 0xc1bdceee, 22, v, 3);
    a := DoStep(FormF, a, b, c, d, block, 4, 0xf57c0faf, 7, v, 4);
    d := DoStep(FormF, d, a, b, c, block, 5, 0x4787c62a, 12, v, 5);
    c := DoStep(FormF, c, d, a, b, block, 6, 0xa8304613, 17, v, 6);
    b := DoStep(FormF, b, c, d, a, block, 7, 0xfd469501, 22, v, 7);
    a := DoStep(FormF, a, b, c, d, block, 8, 0x698098d8, 7, v, 8);
    d := DoStep(FormF, d, a, b, c, block, 9, 0x8b44f7af, 12, v, 9);
    c := DoStep(FormF, c, d, a, b, block, 10, 0xffff5bb1, 17, v, 10);
    b := DoStep(FormF, b, c, d, a, block, 11, 0x895cd7be, 22, v, 11);
    a := DoStep(FormF, a, b, c, d, block, 12, 0x6b901122, 7, v, 12);
    d := DoStep(FormF, d, a, b, c, block, 13, 0xfd987193, 12, v, 13);
    c := DoStep(FormF, c, d, a, b, block, 14, 0xa679438e, 17, v, 14);
    b := DoStep(FormF, b, c, d, a, block, 15, 0x49b40821, 22, v, 15);
  }

  lemma Numbers2()
    ensures Index(16) == 1 && Sine(16) == 0xf61e2562 && Amount(16) == 5
    ensures Index(17) == 6 && Sine(17) == 0xc040b340 && Amount(17) == 9
    ensures Index(18) == 11 && Sine(18) == 0x265e5a51 && Amount(18) == 14
    ensures Index(19) == 0 && Sine(19) == 0xe9b6c7aa && Amount(19) == 20
    ensures Index(20) == 5 && Sine(20) == 0xd62f105d && Amount(20) == 5
    ensures Index(21) == 10 && Sine(21) == 0x02441453 && Amount(21) == 9
    ensures Index(22) == 15 && Sine(22) == 0xd8a1e681 && Amount(22) == 14
    ensures Index(23) == 4 && Sine(23) == 0xe7d3fbc8 && Amount(23) == 20
    ensures Index(24) == 9 && Sine(24) == 0x21e1cde6 && Amount(24) == 5
    ensures Index(25) == 14 && Sine(25) == 0xc33707d6 && Amount(25) == 9
    ensures Index(26) == 3 && Sine(26) == 0xf4d50d87 && Amount(26) == 14
    ensures Index(27) == 8 && Sine(27) == 0x455a14ed && Amount(27) == 20
    ensures Index(28) == 13 && Sine(28) == 0xa9e3e905 && Amount(28) == 5
    ensures Index(29) == 2 && Sine(29) == 0xfcefa3f8 && Amount(29) == 9
    ensures Index(30) == 7 && Sine(30) == 0x676f02d9 && Amount(30) == 14
    ensures Index(31) == 12 && Sine(31) == 0x8d2a4c8a && Amount(31) == 20
  {
  }

  /** Round 2. */
  method Round2(block: seq<Byte>, a0: Word, b0: Word, c0: Word, d0: Word, ghost v: Vars)
    returns (a: Word, b: Word, c: Word, d: Word)
    requires |block| == BLOCK && Vars(a0, b0, c0, d0) == Operations(v, block, 16)
    ensures Vars(a, b, c, d) == Operations(v, block, 32)
  {
    hide Operations, Fast, X, Step, Index, Sine, Amount;
    Numbers2();
    a, b, c, d := a0, b0, c0, d0;
    a := DoStep(FormG, a, b, c, d, block, 1, 0xf61e2562, 5, v, 16);
    d := DoStep(FormG, d, a, b, c, block, 6, 0xc040b340, 9, v, 17);
    c := DoStep(FormG, c, d, a, b, block, 11, 0x265e5a51, 14, v, 18);
    b := DoStep(FormG, b, c, d, a, block, 0, 0xe9b6c7aa, 20, v, 19);
    a := DoStep(FormG, a, b, c, d, block, 5, 0xd62f105d, 5, v, 20);
    d := DoStep(FormG, d, a, b, c, block, 10, 0x02441453, 9, v, 21);
    c := DoStep(FormG, c, d, a, b, block, 15, 0xd8a1e681, 14, v, 22);
    b := DoStep(FormG, b, c, d, a, block, 4, 0xe7d3fbc8, 20, v, 23);
    a := DoStep(FormG, a, b, c, d, block, 9, 0x21e1cde6, 5, v, 24);
    d := DoStep(FormG, d, a, b, c, block, 14, 0xc33707d6, 9, v, 25);
    c := DoStep(FormG, c, d, a, b, block, 3, 0xf4d50d87, 14, v, 26);
    b := DoStep(FormG, b, c, d, a, block, 8, 0x455a14ed, 20, v, 27);
    a := DoStep(FormG, a, b, c, d, block, 13, 0xa9e3e905, 5, v, 28);
    d := DoStep(FormG, d, a, b, c, block, 2, 0xfcefa3f8, 9, v, 29);
    c := DoStep(FormG, c, d, a, b, block, 7, 0x676f02d9, 14, v, 30);
    b := DoStep(FormG, b, c, d, a, block, 12, 0x8d2a4c8a, 20, v, 31);
  }

  lemma Numbers3()
    ensures Index(32) == 5 && Sine(32) == 0xfffa3942 && Amount(32) == 4
    ensures Index(33) == 8 && Sine(33) == 0x8771f681 && Amount(33) == 11
    ensures Index(34) == 11 && Sine(34) == 0x6d9d6122 && Amount(34) == 16
    ensures Index(35) == 14 && Sine(35) == 0xfde5380c && Amount(35) == 23
    ensures Index(36) == 1 && Sine(36) == 0xa4beea44 && Amount(36) == 4
    ensures Index(37) == 4 && Sine(37) == 0x4bdecfa9 && Amount(37) == 11
    ensures Index(38) == 7 && Sine(38) == 0xf6bb4b60 && Amount(38) == 16
    ensures Index(39) == 10 && Sine(39) == 0xbebfbc70 && Amount(39) == 23
    ensures Index(40) == 13 && Sine(40) == 0x289b7ec6 && Amount(40) == 4
    ensures Index(41) == 0 && Sine(41) == 0xeaa127fa && Amount(41) == 11
    ensures Index(42) == 3 && Sine(42) == 0xd4ef3085 && Amount(42) == 16
    ensures Index(43) == 6 && Sine(43) == 0x04881d05 && Amount(43) == 23
    ensures Index(44) == 9 && Sine(44) == 0xd9d4d039 && Amount(44) == 4
    ensures Index(45) == 12 && Sine(45) == 0xe6db99e5 && Amount(45) == 11
    ensures Index(46) == 15 && Sine(46) == 0x1fa27cf8 && Amount(46) == 16
    ensures Index(47) == 2 && Sine(47) == 0xc4ac5665 && Amount(47) == 23
  {
  }

  /** Round 3. */
  method Round3(block: seq<Byte>, a0: Word, b0: Word, c0: Word, d0: Word, ghost v: Vars)
    returns (a: Word, b: Word, c: Word, d: Word)
    requires |block| == BLOCK && Vars(a0, b0, c0, d0) == Operations(v, block, 32)
    ensures Vars(a, b, c, d) == Operations(v, block, 48)
  {
    hide Operations, Fast, X, Step, Index, Sine, Amount;
    Numbers3();
    a, b, c, d := a0, b0, c0, d0;
    a := DoStep(FormH, a, b, c, d, block, 5, 0xfffa3942, 4, v, 32);
    d := DoStep(FormH2, d, a, b, c, block, 8, 0x8771f681, 11, v, 33);
    c := DoStep(FormH, c, d, a, b, block, 11, 0x6d9d6122, 16, v, 34);
    b := DoStep(FormH2, b, c, d, a, block, 14, 0xfde5380c, 23, v, 35);
    a := DoStep(FormH, a, b, c, d, block, 1, 0xa4beea44, 4, v, 36);
    d := DoStep(FormH2, d, a, b, c, block, 4, 0x4bdecfa9, 11, v, 37);
    c := DoStep(FormH, c, d, a, b, block, 7, 0xf6bb4b60, 16, v, 38);
    b := DoStep(FormH2, b, c, d, a, block, 10, 0xbebfbc70, 23, v, 39);
    a := DoStep(FormH, a, b, c, d, block, 13, 0x289b7ec6, 4, v, 40);
    d := DoStep(FormH2, d, a, b, c, block, 0, 0xeaa127fa, 11, v, 41);
    c := DoStep(FormH, c, d, a, b, block, 3, 0xd4ef3085, 16, v, 42);
    b := DoStep(FormH2, b, c, d, a, block, 6, 0x04881d05, 23, v, 43);
    a := DoStep(FormH, a, b, c, d, block, 9, 0xd9d4d039, 4, v, 44);
    d := DoStep(FormH2, d, a, b, c, block, 12, 0xe6db99e5, 11, v, 45);
    c := DoStep(FormH, c, d, a, b, block, 15, 0x1fa27cf8, 16, v, 46);
    b := DoStep(FormH2, b, c, d, a, block, 2, 0xc4ac5665, 23, v, 47);
  }

  lemma Numbers4()
    ensures Index(48) == 0 && Sine(48) == 0xf4292244 && Amount(48) == 6
    ensures Index(49) == 7 && Sine(49) == 0x432aff97 && Amount(49) == 10
    ensures Index(50) == 14 && Sine(50) == 0xab9423a7 && Amount(50) == 15
    ensures Index(51) == 5 && Sine(51) == 0xfc93a039 && Amount(51) == 21
    ensures Index(52) == 12 && Sine(52) == 0x655b59c3 && Amount(52) == 6
    ensures Index(53) == 3 && Sine(53) == 0x8f0ccc92 && Amount(53) == 10
    ensures Index(54) == 10 && Sine(54) == 0xffeff47d && Amount(54) == 15
    ensures Index(55) == 1 && Sine(55) == 0x85845dd1 && Amount(55) == 21
    ensures Index(56) == 8 && Sine(56) == 0x6fa87e4f && Amount(56) == 6
    ensures Index(57) == 15 && Sine(57) == 0xfe2ce6e0 && Amount(57) == 10
    ensures Index(58) == 6 && Sine(58) == 0xa3014314 && Amount(58) == 15
    ensures Index(59) == 13 && Sine(59) == 0x4e0811a1 && Amount(59) == 21
    ensures Index(60) == 4 && Sine(60) == 0xf7537e82 && Amount(60) == 6
    ensures Index(61) == 11 && Sine(61) == 0xbd3af235 && Amount(61) == 10
    ensures Index(62) == 2 && Sine(62) == 0x2ad7d2bb && Amount(62) == 15
    ensures Index(63) == 9 && Sine(63) == 0xeb86d391 && Amount(63) == 21
  {
  }

  /** Round 4. */
  method Round4(block: seq<Byte>, a0: Word, b0: Word, c0: Word, d0: Word, ghost v: Vars)
    returns (a: Word, b: Word, c: Word, d: Word)
    requires |block| == BLOCK && Vars(a0, b0, c0, d0) == Operations(v, block, 48)
    ensures Vars(a, b, c, d) == Operations(v, block, 64)
  {
    hide Operations, Fast, X, Step, Index, Sine, Amount;
    Numbers4();
    a, b, c, d := a0, b0, c0, d0;
    a := DoStep(FormI, a, b, c, d, block, 0, 0xf4292244, 6, v, 48);
    d := DoStep(FormI, d, a, b, c, block, 7, 0x432aff97, 10, v, 49);
    c := DoStep(FormI, c, d, a, b, block, 14, 0xab9423a7, 15, v, 50);
    b := DoStep(FormI, b, c, d, a, block, 5, 0xfc93a039, 21, v, 51);
    a := DoStep(FormI, a, b, c, d, block, 12, 0x655b59c3, 6, v, 52);
    d := DoStep(FormI, d, a, b, c, block, 3, 0x8f0ccc92, 10, v, 53);
    c := DoStep(FormI, c, d, a, b, block, 10, 0xffeff47d, 15, v, 54);
    b := DoStep(FormI, b, c, d, a, block, 1, 0x85845dd1, 21, v, 55);
    a := DoStep(FormI, a, b, c, d, block, 8, 0x6fa87e4f, 6, v, 56);
    d := DoStep(FormI, d, a, b, c, block, 15, 0xfe2ce6e0, 10, v, 57);
    c := DoStep(FormI, c, d, a, b, block, 6, 0xa3014314, 15, v, 58);
    b := DoStep(FormI, b, c, d, a, block, 13, 0x4e0811a1, 21, v, 59);
    a := DoStep(FormI, a, b, c, d, block, 4, 0xf7537e82, 6, v, 60);
    d := DoStep(FormI, d, a, b, c, block, 11, 0xbd3af235, 10, v, 61);
    c := DoStep(FormI, c, d, a, b, block, 2, 0x2ad7d2bb, 15, v, 62);
    b := DoStep(FormI, b, c, d, a, block, 9, 0xeb86d391, 21, v, 63);
  }

  lemma FirstRegisters(v: Vars, block: seq<Byte>)
    requires |block| == BLOCK
    ensures Operations(v, block, 0) == v
  {
  }

  lemma Added(v: Vars, block: seq<Byte>)
    requires |block| == BLOCK
    ensures Sum(Operations(v, block, 64), v) == Compress(v, block)
  {
    hide Operations, Sum;
  }

  /** One block: the four rounds, and the registers from before are added. */
  method Transform(v: Vars, block: seq<Byte>) returns (r: Vars)
    requires |block| == BLOCK
    ensures r == Compress(v, block)
  {
    hide *;
    FirstRegisters(v, block);
    var a, b, c, d := Round1(block, v.a, v.b, v.c, v.d, v);
    a, b, c, d := Round2(block, a, b, c, d, v);
    a, b, c, d := Round3(block, a, b, c, d, v);
    a, b, c, d := Round4(block, a, b, c, d, v);
    Added(v, block);
    r := Sum(Vars(a, b, c, d), v);
  }
}
