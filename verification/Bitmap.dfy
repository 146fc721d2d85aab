/**
 The multi-level bitmap of bitmap.h and bitmap.c.  A group is one machine word, given by the set of its 1
 bits; the bottom level holds the logical bits inverted, and a bit above says whether a group below is
 not zero.
 */
module BitmapLevels {

  const GROUP_NBITS: nat := 64

  type Group = set<nat>

  /** bitmap_info_t: the levels' groups lie one level after the other, and off says where each begins. */
  datatype Info = Info(nbits: nat, off: seq<int>) {
    function Levels(): int { |off| - 1 }
  }

  /** bits2groups */
  function Groups(nbits: nat): (n: nat)
    ensures (n - 1) * GROUP_NBITS < nbits <= n * GROUP_NBITS || nbits == n == 0
  {
    nbits / GROUP_NBITS + if nbits % GROUP_NBITS != 0 then 1 else 0
  }

  /** The bits of a level: the logical ones at the bottom, above one for each group below. */
  function Bits(info: Info, i: nat): int
    requires i < |info.off|
  {
    if i == 0 then info.nbits else info.off[i] - info.off[i - 1]
  }

  ghost predicate InfoOk(info: Info) {
    && 0 < info.nbits && 1 < |info.off| && info.off[0] == 0 && (forall i :: 0 <= i < |info.off| ==> 0 <= info.off[i])
    && (forall i :: 0 <= i < info.Levels() ==> info.off[i] < info.off[i + 1])
    && (forall i ::
      0 <= i < info.Levels() ==> 0 < Bits(info, i) && info.off[i + 1] - info.off[i] == Groups(Bits(info, i)))
    && info.off[info.Levels()] - info.off[info.Levels() - 1] == 1
  }

  lemma {:induction false} OffMono(info: Info, i: nat, j: nat)
    requires InfoOk(info) && i <= j < |info.off|
    ensures info.off[i] <= info.off[j] && (i < j ==> info.off[i] < info.off[j])
  {
    if i < j {
      OffMono(info, i, j - 1);
    }
  }

  lemma FewerGroups(n: nat)
    requires 1 < n
    ensures 0 < Groups(n) < n
  {
  }

  /** Group g of level i. */
  ghost predicate Has(info: Info, i: nat, g: nat)
  {
    i + 1 < |info.off| && info.off[i] + g < info.off[i + 1]
  }

  function At(info: Info, i: nat, g: nat): int
    requires i < |info.off|
  {
    info.off[i] + g
  }

  lemma AtFits(info: Info, i: nat, g: nat)
    requires InfoOk(info) && Has(info, i, g)
    ensures 0 <= At(info, i, g) < info.off[info.Levels()]
  {
    OffMono(info, i + 1, info.Levels());
  }

  /** Different groups are at different places. */
  lemma AtApart(info: Info, i: nat, g: nat, j: nat, h: nat)
    requires InfoOk(info) && Has(info, i, g) && Has(info, j, h) && At(info, i, g) == At(info, j, h)
    ensures i == j && g == h
  {
    if i < j {
      OffMono(info, i + 1, j);
    } else if j < i {
      OffMono(info, j + 1, i);
    }
  }

  ghost predicate Sized(w: seq<Group>, info: Info) {
    InfoOk(info) && |w| == info.off[info.Levels()]
  }

  ghost function Word(w: seq<Group>, info: Info, i: nat, g: nat): Group
    requires Sized(w, info) && Has(info, i, g)
  {
    AtFits(info, i, g);
    w[At(info, i, g)]
  }

  /** Is bit b of level i 1? */
  ghost predicate One(w: seq<Group>, info: Info, i: nat, b: nat)
    requires Sized(w, info) && i < info.Levels() && b < Bits(info, i)
  {
    GroupOf(info, i, b);
    b % GROUP_NBITS in Word(w, info, i, b / GROUP_NBITS)
  }

  lemma GroupOf(info: Info, i: nat, b: nat)
    requires InfoOk(info) && i < info.Levels() && b < Bits(info, i)
    ensures Has(info, i, b / GROUP_NBITS)
  {
  }

  /** Only bits of the level are 1. */
  ghost predicate Trimmed(w: seq<Group>, info: Info)
    requires Sized(w, info)
  {
    forall i, g :: 0 <= i && 0 <= g && Has(info, i, g) ==>
      forall b :: b in Word(w, info, i, g) ==> b < GROUP_NBITS && g * GROUP_NBITS + b < Bits(info, i)
  }

  /** Does the bit for group g of the level below tell whether it is zero? */
  ghost predicate Tells(w: seq<Group>, info: Info, i: nat, g: nat)
    requires Sized(w, info) && 0 < i < info.Levels() && Has(info, i - 1, g)
  {
    One(w, info, i, g) <==> Word(w, info, i - 1, g) != {}
  }

  /** All bits above the bottom level tell, except perhaps the one for group g of level i - 1. */
  ghost predicate TellsBut(w: seq<Group>, info: Info, i: nat, g: nat)
    requires Sized(w, info)
  {
    forall j, h :: 0 < j < info.Levels() && 0 <= h && Has(info, j - 1, h)
        ==> (Tells(w, info, j, h) <==> !(j == i && h == g))
  }

  ghost predicate Good(w: seq<Group>, info: Info) {
    && Sized(w, info) && Trimmed(w, info)
    && forall j, h :: 0 < j < info.Levels() && 0 <= h && Has(info, j - 1, h) ==> Tells(w, info, j, h)
  }

  function Toggle(g: Group, b: nat): Group {
    if b in g then g - {b} else g + {b}
  }

  /** The logical bits that are set. */
  ghost function Contents(w: seq<Group>, info: Info): set<nat>
    requires Sized(w, info)
  {
    set b: nat | b < info.nbits && !One(w, info, 0, b)
  }

  // ----- A bitmap to begin with

  /** The bits of a level, by the offsets. */
  ghost function Below(nbits: nat, off: seq<int>, i: nat): int
    requires i < |off|
  {
    if i == 0 then nbits else off[i] - off[i - 1]
  }

  ghost predicate StepOk(nbits: nat, off: seq<int>, i: nat)
    requires i + 1 < |off|
  {
    0 < Below(nbits, off, i) && off[i + 1] - off[i] == Groups(Below(nbits, off, i))
  }

  /** The offsets of the levels so far, each as far from the one before as that level has groups. */
  ghost predicate Begun(nbits: nat, off: seq<int>) {
    && 0 < nbits && off != [] && off[0] == 0 && (forall i :: 0 <= i < |off| ==> 0 <= off[i])
    && forall i :: 0 <= i < |off| - 1 ==> StepOk(nbits, off, i)
  }

  lemma BegunMore(nbits: nat, off: seq<int>)
    requires Begun(nbits, off) && 0 < Below(nbits, off, |off| - 1)
    ensures var bits := Below(nbits, off, |off| - 1);
      var off' := off + [off[|off| - 1] + Groups(bits)];
      Begun(nbits, off') && Below(nbits, off', |off'| - 1) == Groups(bits) > 0
  {
    var bits := Below(nbits, off, |off| - 1);
    var off' := off + [off[|off| - 1] + Groups(bits)];
    forall i | 0 <= i < |off'| - 1
      ensures StepOk(nbits, off', i)
    {
      assert Below(nbits, off', i) == Below(nbits, off, i);
      if i < |off| - 1 {
        assert StepOk(nbits, off, i);
      }
    }
  }

  /** The offsets are complete with a level of one group. */
  lemma BegunDone(nbits: nat, off: seq<int>)
    requires Begun(nbits, off) && 1 < |off| && off[|off| - 1] - off[|off| - 2] == 1
    ensures InfoOk(Info(nbits, off))
  {
    forall i | 0 <= i < |off| - 1
      ensures off[i] < off[i + 1] && 0 < Bits(Info(nbits, off), i)
      ensures off[i + 1] - off[i] == Groups(Bits(Info(nbits, off), i))
    {
      assert StepOk(nbits, off, i);
    }
  }

  lemma AllFit(info: Info)
    requires InfoOk(info)
    ensures forall i, g :: 0 <= i && 0 <= g && Has(info, i, g) ==> 0 <= At(info, i, g) < info.off[info.Levels()]
  {
    forall i: nat, g: nat | Has(info, i, g)
      ensures 0 <= At(info, i, g) < info.off[info.Levels()]
    {
      AtFits(info, i, g);
    }
  }

  /** Writing a group changes that group alone. */
  lemma WriteWord(w: seq<Group>, info: Info, i: nat, h: nat, x: Group, j: nat, g: nat)
    requires Sized(w, info) && Has(info, i, h) && Has(info, j, g)
    ensures 0 <= At(info, i, h) < |w| && Sized(w[At(info, i, h) := x], info)
    ensures Word(w[At(info, i, h) := x], info, j, g) == if j == i && g == h then x else Word(w, info, j, g)
  {
    AtFits(info, i, h);
    AtFits(info, j, g);
    if At(info, i, h) == At(info, j, g) {
      AtApart(info, i, h, j, g);
    }
  }

  /** How many bits of group g the level has. */
  ghost function Used(info: Info, i: nat, g: nat): nat
    requires InfoOk(info) && Has(info, i, g)
  {
    if (g + 1) * GROUP_NBITS <= Bits(info, i) then GROUP_NBITS else Bits(info, i) - g * GROUP_NBITS
  }

  /** Every group of a level is used up but perhaps the last. */
  lemma LastUsed(info: Info, i: nat)
    requires InfoOk(info) && i < info.Levels()
    ensures var last := info.off[i + 1] - info.off[i] - 1;
      var extra := (GROUP_NBITS - Bits(info, i) % GROUP_NBITS) % GROUP_NBITS;
      && 0 <= last && Has(info, i, last)
      && forall g: nat :: Has(info, i, g) ==> Used(info, i, g) == if g == last then GROUP_NBITS - extra else GROUP_NBITS
  {
  }

  lemma LastGroup(info: Info, i: nat)
    requires InfoOk(info) && i < info.Levels()
    ensures 0 <= info.off[i + 1] - info.off[i] - 1 && Has(info, i, info.off[i + 1] - info.off[i] - 1)
  {
    hide Bits;
  }

  lemma TrimWords(w: seq<Group>, info: Info, i: nat, all: Group, x: Group)
    requires Sized(w, info) && i < info.Levels() && forall g: nat :: Has(info, i, g) ==> Word(w, info, i, g) == all
    ensures 0 <= info.off[i + 1] - 1 < |w|
    ensures var w' := w[info.off[i + 1] - 1 := x];
      forall j, g :: 0 <= j && 0 <= g && Has(info, j, g) ==>
        Word(w', info, j, g)
        == if j != i then Word(w, info, j, g) else if g == info.off[i + 1] - info.off[i] - 1 then x else all
  {
    LastGroup(info, i);
    var last := info.off[i + 1] - info.off[i] - 1;
    AtFits(info, i, last);
    hide Word;
    forall j: nat, g: nat | Has(info, j, g)
      ensures Word(w[info.off[i + 1] - 1 := x], info, j, g) == if j == i && g == last then x else Word(w, info, j, g)
    {
      WriteWord(w, info, i, last, x, j, g);
    }
  }

  /** With every bit of every level 1, each level tells of the one below, and no bit is set. */
  lemma InitGood(w: seq<Group>, info: Info)
    requires Sized(w, info)
    requires forall i, g ::
      0 <= i && 0 <= g && Has(info, i, g) ==> forall b: nat :: b in Word(w, info, i, g) <==> b < Used(info, i, g)
    ensures Good(w, info) && Contents(w, info) == {}
  {
    forall i: nat, b: nat | i < info.Levels() && b < Bits(info, i)
      ensures One(w, info, i, b)
    {
      GroupOf(info, i, b);
    }
    forall j: nat, h: nat | 0 < j < info.Levels() && Has(info, j - 1, h)
      ensures Tells(w, info, j, h)
    {
      assert Has(info, j - 1, h) && 0 in Word(w, info, j - 1, h);
      assert One(w, info, j, h);
    }
  }

  // ----- Changing one bit

  ghost function Flip(w: seq<Group>, info: Info, i: nat, b: nat): seq<Group>
    requires Sized(w, info) && i < info.Levels() && b < Bits(info, i)
  {
    GroupOf(info, i, b);
    AtFits(info, i, b / GROUP_NBITS);
    w[At(info, i, b / GROUP_NBITS) := Toggle(Word(w, info, i, b / GROUP_NBITS), b % GROUP_NBITS)]
  }

  lemma FlipWord(w: seq<Group>, info: Info, i: nat, b: nat, j: nat, h: nat)
    requires Sized(w, info) && i < info.Levels() && b < Bits(info, i) && Has(info, j, h)
    ensures Sized(Flip(w, info, i, b), info)
    ensures Word(Flip(w, info, i, b), info, j, h) ==
      if j == i && h == b / GROUP_NBITS then Toggle(Word(w, info, i, h), b % GROUP_NBITS) else Word(w, info, j, h)
  {
    GroupOf(info, i, b);
    AtFits(info, i, b / GROUP_NBITS);
    AtFits(info, j, h);
    if At(info, i, b / GROUP_NBITS) == At(info, j, h) {
      AtApart(info, i, b / GROUP_NBITS, j, h);
    }
  }

  lemma FlipOne(w: seq<Group>, info: Info, i: nat, b: nat, j: nat, c: nat)
    requires Sized(w, info) && i < info.Levels() && b < Bits(info, i) && j < info.Levels() && c < Bits(info, j)
    ensures Sized(Flip(w, info, i, b), info)
    ensures One(Flip(w, info, i, b), info, j, c) <==> (One(w, info, j, c) <==> !(j == i && c == b))
  {
    GroupOf(info, j, c);
    FlipWord(w, info, i, b, j, c / GROUP_NBITS);
  }

  lemma FlipTrimmed(w: seq<Group>, info: Info, i: nat, b: nat)
    requires Sized(w, info) && Trimmed(w, info) && i < info.Levels() && b < Bits(info, i)
    ensures Sized(Flip(w, info, i, b), info) && Trimmed(Flip(w, info, i, b), info)
  {
    GroupOf(info, i, b);
    FlipWord(w, info, i, b, i, b / GROUP_NBITS);
    forall j: nat, h: nat | Has(info, j, h)
      ensures forall c ::
        c in Word(Flip(w, info, i, b), info, j, h) ==> c < GROUP_NBITS && h * GROUP_NBITS + c < Bits(info, j)
    {
      FlipWord(w, info, i, b, j, h);
    }
  }

  /** Did flipping the bit change whether its group is zero? */
  ghost predicate Turns(w: seq<Group>, info: Info, i: nat, b: nat)
    requires Sized(w, info) && i < info.Levels() && b < Bits(info, i)
  {
    GroupOf(info, i, b);
    (Word(w, info, i, b / GROUP_NBITS) == {}) != (Toggle(Word(w, info, i, b / GROUP_NBITS), b % GROUP_NBITS) == {})
  }

  /**
   What a bit above tells after a flip: the flipped bit is reversed, and so is the truth about its group if that turned.
   */
  lemma FlipTells(w: seq<Group>, info: Info, i: nat, b: nat, j: nat, h: nat)
    requires Sized(w, info) && i < info.Levels() && b < Bits(info, i) && 0 < j < info.Levels() && Has(info, j - 1, h)
    ensures Sized(Flip(w, info, i, b), info)
    ensures Tells(Flip(w, info, i, b), info, j, h) <==>
      (Tells(w, info, j, h) <==> ((j == i && h == b) <==> (j - 1 == i && h == b / GROUP_NBITS && Turns(w, info, i, b))))
  {
    FlipOne(w, info, i, b, j, h);
    FlipWord(w, info, i, b, j - 1, h);
  }

  /** Flipping a bit that does not tell, or a logical bit, leaves at most the bit above its group to be flipped. */
  lemma FlipStep(w: seq<Group>, info: Info, i: nat, b: nat)
    requires Sized(w, info) && Trimmed(w, info) && i < info.Levels() && b < Bits(info, i)
    requires if i == 0 then Good(w, info) else TellsBut(w, info, i, b)
    ensures var w' := Flip(w, info, i, b);
      && Sized(w', info) && Trimmed(w', info)
      && (if Turns(w, info, i, b) && i + 1 < info.Levels() then TellsBut(w', info, i + 1, b / GROUP_NBITS)
          else Good(w', info))
  {
    var w' := Flip(w, info, i, b);
    FlipTrimmed(w, info, i, b);
    GroupOf(info, i, b);
    forall j: nat, h: nat | 0 < j < info.Levels() && Has(info, j - 1, h)
      ensures Tells(w', info, j, h) <==> !(j == i + 1 && h == b / GROUP_NBITS && Turns(w, info, i, b))
    {
      FlipTells(w, info, i, b, j, h);
    }
  }

  /** Only flipping a bottom bit changes the contents. */
  lemma FlipContents(w: seq<Group>, info: Info, i: nat, b: nat)
    requires Sized(w, info) && i < info.Levels() && b < Bits(info, i)
    ensures Sized(Flip(w, info, i, b), info)
    ensures Contents(Flip(w, info, i, b), info) == if i == 0 then Toggle(Contents(w, info), b) else Contents(w, info)
  {
    FlipOne(w, info, i, b, i, b);
    forall c: nat | c < info.nbits
      ensures One(Flip(w, info, i, b), info, 0, c) <==> (One(w, info, 0, c) <==> !(i == 0 && c == b))
    {
      FlipOne(w, info, i, b, 0, c);
    }
  }

  // ----- The root group

  ghost predicate Zero(w: seq<Group>, info: Info, i: nat)
    requires Sized(w, info)
  {
    forall g: nat :: Has(info, i, g) ==> Word(w, info, i, g) == {}
  }

  /** All of a level is zero just when all of the one above is. */
  lemma ZeroAbove(w: seq<Group>, info: Info, k: nat)
    requires Good(w, info) && k + 1 < info.Levels()
    ensures Zero(w, info, k + 1) <==> Zero(w, info, k)
  {
    hide Trimmed, Good;
    GoodSized(w, info);
    if Zero(w, info, k + 1) {
      forall g: nat | Has(info, k, g)
        ensures Word(w, info, k, g) == {}
      {
        GroupOf(info, k + 1, g);
        Told(w, info, k, g);
      }
    } else {
      var g: nat :| Has(info, k + 1, g) && Word(w, info, k + 1, g) != {};
      var b :| b in Word(w, info, k + 1, g);
      NotZero(w, info, k, g, b);
    }
  }

  /** A 1 bit stands for a group below that is not zero. */
  lemma NotZero(w: seq<Group>, info: Info, k: nat, g: nat, b: nat)
    requires Good(w, info) && k + 1 < info.Levels() && Has(info, k + 1, g) && b in Word(w, info, k + 1, g)
    ensures Has(info, k, g * GROUP_NBITS + b) && Word(w, info, k, g * GROUP_NBITS + b) != {}
  {
    hide Trimmed, Good;
    GoodSized(w, info);
    WordBits(w, info, k + 1, g, b);
    OneOf(w, info, k + 1, g, b);
    Told(w, info, k, g * GROUP_NBITS + b);
  }

  lemma {:induction false} ZeroDown(w: seq<Group>, info: Info, i: nat)
    requires Good(w, info) && i < info.Levels()
    ensures Zero(w, info, i) <==> Zero(w, info, 0)
  {
    if i > 0 {
      ZeroAbove(w, info, i - 1);
      ZeroDown(w, info, i - 1);
    }
  }

  /** The first 1 bit of a group that is not zero: ffsl, less one. */
  method Ffs(g: Group) returns (b: nat)
    requires g != {} && forall c :: c in g ==> c < GROUP_NBITS
    ensures b in g && forall c :: c in g ==> b <= c
  {
    b := 0;
    ghost var some :| some in g;
    while b !in g
      invariant b <= some && forall c :: c in g ==> b <= c
      decreases some - b
    {
      b := b + 1;
    }
  }

  /** The root group is zero just when every logical bit is set. */
  lemma FullMeans(w: seq<Group>, info: Info)
    requires Good(w, info)
    ensures w[info.off[info.Levels()] - 1] == {} <==> forall b: nat :: b < info.nbits ==> b in Contents(w, info)
  {
    var top := info.Levels() - 1;
    ZeroDown(w, info, top);
    assert Has(info, top, 0) && Word(w, info, top, 0) == w[info.off[info.Levels()] - 1];
    assert Zero(w, info, top) <==> Word(w, info, top, 0) == {};
    if Zero(w, info, 0) {
      forall b: nat | b < info.nbits
        ensures !One(w, info, 0, b)
      {
        GroupOf(info, 0, b);
      }
    } else {
      var g: nat :| Has(info, 0, g) && Word(w, info, 0, g) != {};
      var b :| b in Word(w, info, 0, g);
      WordBits(w, info, 0, g, b);
      OneOf(w, info, 0, g, b);
      assert g * GROUP_NBITS + b !in Contents(w, info);
    }
  }

  lemma BottomBit(w: seq<Group>, info: Info, b: nat)
    requires Good(w, info) && b < info.nbits
    ensures Sized(w, info) && Trimmed(w, info) && b < Bits(info, 0) && 0 < info.Levels()
    ensures b in Contents(w, info) <==> !One(w, info, 0, b)
    ensures Toggle(Contents(w, info), b) == if b in Contents(w, info) then Contents(w, info) - {b}
        else Contents(w, info) + {b}
  {
  }

  /** The one bit that does not tell. */
  lemma NotTold(w: seq<Group>, info: Info, i: nat, b: nat)
    requires Sized(w, info) && 0 < i < info.Levels() && Has(info, i - 1, b) && TellsBut(w, info, i, b)
    ensures b < Bits(info, i) && (One(w, info, i, b) <==> Word(w, info, i - 1, b) == {})
  {
    assert !Tells(w, info, i, b);
  }

  lemma GoodSized(w: seq<Group>, info: Info)
    requires Good(w, info)
    ensures Sized(w, info) && Trimmed(w, info)
  {
  }

  // ----- The first 1 bit

  ghost predicate First(w: seq<Group>, info: Info, i: nat, bit: nat)
    requires Sized(w, info) && i < info.Levels() && bit < Bits(info, i)
  {
    One(w, info, i, bit) && forall b: nat :: b < bit ==> !One(w, info, i, b)
  }

  lemma RootFirst(w: seq<Group>, info: Info)
    requires Good(w, info)
    ensures var i := info.Levels() - 1;
      var g := w[info.off[i]];
      && g == w[info.off[info.Levels()] - 1] && (forall b :: b in g ==> b < GROUP_NBITS && b < Bits(info, i))
      && forall b :: b in g && (forall c :: c in g ==> b <= c) ==> First(w, info, i, b)
  {
    var i := info.Levels() - 1;
    assert Has(info, i, 0) && Word(w, info, i, 0) == w[info.off[i]];
    forall b: nat | b < GROUP_NBITS && b < Bits(info, i)
      ensures One(w, info, i, b) <==> b in w[info.off[i]]
    {
    }
  }

  /** The group that the first 1 bit of a level stands for is the first that is not zero. */
  lemma FirstGroup(w: seq<Group>, info: Info, k: nat, bit: nat)
    requires Good(w, info) && k + 1 < info.Levels() && bit < Bits(info, k + 1) && First(w, info, k + 1, bit)
    ensures Has(info, k, bit) && Word(w, info, k, bit) != {}
    ensures forall b :: b in Word(w, info, k, bit) ==> b < GROUP_NBITS
  {
    assert Has(info, k, bit) && Tells(w, info, k + 1, bit);
  }

  lemma FirstBelow(w: seq<Group>, info: Info, k: nat, bit: nat, first: nat)
    requires Good(w, info) && k + 1 < info.Levels() && bit < Bits(info, k + 1)
    requires First(w, info, k + 1, bit) && Has(info, k, bit)
    requires first in Word(w, info, k, bit) && forall c :: c in Word(w, info, k, bit) ==> first <= c
    ensures bit * GROUP_NBITS + first < Bits(info, k) && First(w, info, k, bit * GROUP_NBITS + first)
  {
    hide Trimmed, Good;
    GoodSized(w, info);
    WordBits(w, info, k, bit, first);
    OneOf(w, info, k, bit, first);
    hide One, Word, Has;
    forall b: nat | b < bit * GROUP_NBITS + first
      ensures !One(w, info, k, b)
    {
      NoneBefore(w, info, k, bit, first, b);
    }
  }

  lemma NoneBefore(w: seq<Group>, info: Info, k: nat, bit: nat, first: nat, b: nat)
    requires Good(w, info) && k + 1 < info.Levels() && bit < Bits(info, k + 1)
    requires First(w, info, k + 1, bit) && Has(info, k, bit)
    requires first < GROUP_NBITS && (forall c :: c in Word(w, info, k, bit) ==> first <= c)
    requires b < bit * GROUP_NBITS + first && b < Bits(info, k)
    ensures !One(w, info, k, b)
  {
    hide Trimmed, Good;
    GoodSized(w, info);
    GroupOf(info, k, b);
    if b / GROUP_NBITS < bit {
      Told(w, info, k, b / GROUP_NBITS);
    } else {
      assert b / GROUP_NBITS == bit && b % GROUP_NBITS < first;
    }
  }

  lemma OneOf(w: seq<Group>, info: Info, k: nat, g: nat, b: nat)
    requires Sized(w, info) && k < info.Levels() && Has(info, k, g) && b in Word(w, info, k, g)
    requires b < GROUP_NBITS && g * GROUP_NBITS + b < Bits(info, k)
    ensures One(w, info, k, g * GROUP_NBITS + b)
  {
    assert (g * GROUP_NBITS + b) / GROUP_NBITS == g && (g * GROUP_NBITS + b) % GROUP_NBITS == b;
  }

  lemma WordBits(w: seq<Group>, info: Info, k: nat, g: nat, b: nat)
    requires Good(w, info) && Has(info, k, g) && b in Word(w, info, k, g)
    ensures b < GROUP_NBITS && g * GROUP_NBITS + b < Bits(info, k)
  {
  }

  lemma Told(w: seq<Group>, info: Info, k: nat, g: nat)
    requires Good(w, info) && k + 1 < info.Levels() && Has(info, k, g)
    ensures g < Bits(info, k + 1) && (One(w, info, k + 1, g) <==> Word(w, info, k, g) != {})
  {
    assert Tells(w, info, k + 1, g);
  }

  lemma FirstUnset(w: seq<Group>, info: Info, bit: nat)
    requires Sized(w, info) && bit < Bits(info, 0) && 0 < info.Levels() && First(w, info, 0, bit)
    ensures bit < info.nbits && bit !in Contents(w, info) && forall b: nat :: b < bit ==> b in Contents(w, info)
  {
  }
}

module Bitmap {
  import opened BitmapLevels

  /** bitmap_info_init */
  method InfoInit(nbits: nat) returns (info: Info)
    requires 0 < nbits
    ensures InfoOk(info) && info.nbits == nbits
  {
    hide Groups;
    var off: seq<int> := [0];
    var bits, groupCount := nbits, Groups(nbits);
    while groupCount > 1
      invariant Begun(nbits, off) && bits == Below(nbits, off, |off| - 1) > 0 && groupCount == Groups(bits) > 0
      decreases groupCount
    {
      BegunMore(nbits, off);
      off := off + [off[|off| - 1] + groupCount];
      bits := groupCount;
      groupCount := Groups(groupCount);
      FewerGroups(bits);
    }
    BegunMore(nbits, off);
    off := off + [off[|off| - 1] + groupCount];
    BegunDone(nbits, off);
    info := Info(nbits, off);
  }

  /** The lowest bits of a word, as many as are left when the rest is shifted out. */
  function Ones(n: nat): (g: Group)
    ensures forall b :: b in g <==> 0 <= b < n
  {
    if n == 0 then {} else Ones(n - 1) + {n - 1}
  }

  /** Level i has its last group cut down to the bits it has; other levels are as before. */
  ghost predicate Trims(w: seq<Group>, w': seq<Group>, info: Info, i: nat)
    requires Sized(w, info) && Sized(w', info)
  {
    forall j, g :: 0 <= j && 0 <= g && Has(info, j, g) ==>
      Word(w', info, j, g) == if j == i then Ones(Used(info, i, g)) else Word(w, info, j, g)
  }

  lemma TrimDone(w: seq<Group>, info: Info, i: nat)
    requires Sized(w, info) && i < info.Levels()
    requires forall g: nat :: Has(info, i, g) ==> Word(w, info, i, g) == Ones(GROUP_NBITS)
    ensures var extra := (GROUP_NBITS - Bits(info, i) % GROUP_NBITS) % GROUP_NBITS;
      && 0 <= info.off[i + 1] - 1 < |w|
      && Trims(w, if extra != 0 then w[info.off[i + 1] - 1 := Ones(GROUP_NBITS - extra)] else w, info, i)
  {
    var extra := (GROUP_NBITS - Bits(info, i) % GROUP_NBITS) % GROUP_NBITS;
    LastUsed(info, i);
    TrimWords(w, info, i, Ones(GROUP_NBITS), Ones(GROUP_NBITS - extra));
    hide Ones, Word, Used, Has, Bits, InfoOk;
  }

  class Bitmap {
    const info: Info
    var words: array<Group>

    ghost predicate Valid()
      reads this, words
    {
      Good(words[..], info)
    }

    /** The bits that are set. */
    ghost function Members(): set<nat>
      requires Valid()
      reads this, words
    {
      Contents(words[..], info)
    }

    /** bitmap_init */
    constructor (info: Info)
      requires InfoOk(info)
      ensures Valid() && Members() == {} && this.info == info && fresh(words)
    {
      OffMono(info, 0, info.Levels());
      this.info := info;
      words := new Group[info.off[info.Levels()]](_ => Ones(GROUP_NBITS));
      new;
      AllFit(info);
      var i := 0;
      while i < info.Levels()
        invariant i <= info.Levels() && words.Length == info.off[info.Levels()] && fresh(words)
        invariant forall j, g :: 0 <= j && 0 <= g && Has(info, j, g) ==>
          Word(words[..], info, j, g) == if j < i then Ones(Used(info, j, g)) else Ones(GROUP_NBITS)
      {
        Trim(i);
        i := i + 1;
      }
      InitGood(words[..], info);
    }

    /** Shift out the bits of the last group of a level that the level does not have. */
    method Trim(i: nat)
      requires InfoOk(info) && i < info.Levels() && words.Length == info.off[info.Levels()]
      requires forall g: nat :: Has(info, i, g) ==> Word(words[..], info, i, g) == Ones(GROUP_NBITS)
      modifies words
      ensures Trims(old(words[..]), words[..], info, i)
    {
      hide Ones, Word, Has, Used, Trims, Bits, InfoOk;
      var extra := (GROUP_NBITS - Bits(info, i) % GROUP_NBITS) % GROUP_NBITS;
      TrimDone(words[..], info, i);
      var at := info.off[i + 1] - 1;
      if extra != 0 {
        words[at] := Ones(GROUP_NBITS - extra);
        assert words[..] == old(words[..])[at := Ones(GROUP_NBITS - extra)];
      }
    }

    /** bitmap_full */
    method IsFull() returns (full: bool)
      requires Valid()
      ensures full <==> forall b: nat :: b < info.nbits ==> b in Members()
    {
      FullMeans(words[..], info);
      assert Members() == Contents(words[..], info);
      OffMono(info, 0, info.Levels());
      full := words[info.off[info.Levels()] - 1] == {};
    }

    /** bitmap_get */
    method Get(bit: nat) returns (isSet: bool)
      requires Valid() && bit < info.nbits
      ensures isSet <==> bit in Members()
    {
      GroupOf(info, 0, bit);
      AtFits(info, 0, bit / GROUP_NBITS);
      isSet := bit % GROUP_NBITS !in words[bit / GROUP_NBITS];
    }

    /** Toggle one bit of a level in place; gives its group as it was and is. */
    method FlipBit(i: nat, bit: nat) returns (was: Group, g: Group)
      requires Sized(words[..], info) && Trimmed(words[..], info) && i < info.Levels() && bit < Bits(info, i)
      requires if i == 0 then Good(words[..], info) else TellsBut(words[..], info, i, bit)
      modifies words
      ensures Sized(words[..], info) && Trimmed(words[..], info)
      ensures (bit % GROUP_NBITS in was <==> old(One(words[..], info, i, bit)))
      ensures Has(info, i, bit / GROUP_NBITS)
      ensures g == Toggle(was, bit % GROUP_NBITS) == Word(words[..], info, i, bit / GROUP_NBITS)
      ensures if (was == {}) != (g == {}) && i + 1 < info.Levels()
        then TellsBut(words[..], info, i + 1, bit / GROUP_NBITS)
        else Good(words[..], info)
      ensures Contents(words[..], info)
          == if i == 0 then Toggle(old(Contents(words[..], info)), bit) else old(Contents(words[..], info))
    {
      FlipStep(words[..], info, i, bit);
      FlipContents(words[..], info, i, bit);
      GroupOf(info, i, bit);
      AtFits(info, i, bit / GROUP_NBITS);
      FlipWord(words[..], info, i, bit, i, bit / GROUP_NBITS);
      var at := info.off[i] + bit / GROUP_NBITS;
      was := words[at];
      g := Toggle(was, bit % GROUP_NBITS);
      words[at] := g;
      assert words[..] == old(Flip(words[..], info, i, bit));
    }

    /** bitmap_set: clear the bit, and the bits above while their groups became zero. */
    method Set(bit0: nat)
      requires Valid() && bit0 < info.nbits && bit0 !in Members()
      modifies words
      ensures Valid() && Members() == old(Members()) + {bit0}
    {
      hide Good, Contents, Sized, Trimmed, TellsBut;
      BottomBit(words[..], info, bit0);
      var was, g := FlipBit(0, bit0);
      var goff: nat := bit0 / GROUP_NBITS;
      var i := 1;
      while g == {} && i < info.Levels()
        invariant 1 <= i <= info.Levels() && Sized(words[..], info) && Trimmed(words[..], info)
        invariant Contents(words[..], info) == old(Members()) + {bit0}
        invariant Has(info, i - 1, goff) && g == Word(words[..], info, i - 1, goff)
        invariant if g == {} && i < info.Levels() then TellsBut(words[..], info, i, goff) else Good(words[..], info)
      {
        NotTold(words[..], info, i, goff);
        was, g := FlipBit(i, goff);
        assert was != {};
        goff := goff / GROUP_NBITS;
        i := i + 1;
      }
      GoodSized(words[..], info);
    }

    /** bitmap_unset: set the bit, and the bits above while their groups had been zero. */
    method Unset(bit0: nat)
      requires Valid() && bit0 < info.nbits && bit0 in Members()
      modifies words
      ensures Valid() && Members() == old(Members()) - {bit0}
    {
      hide Good, Contents, Sized, Trimmed, TellsBut;
      BottomBit(words[..], info, bit0);
      var was, g := FlipBit(0, bit0);
      var propagate := was == {};
      var goff: nat := bit0 / GROUP_NBITS;
      var i := 1;
      while propagate && i < info.Levels()
        invariant 1 <= i <= info.Levels() && Sized(words[..], info) && Trimmed(words[..], info)
        invariant Contents(words[..], info) == old(Members()) - {bit0}
        invariant Has(info, i - 1, goff) && Word(words[..], info, i - 1, goff) != {}
        invariant if propagate && i < info.Levels() then TellsBut(words[..], info, i, goff) else Good(words[..], info)
      {
        NotTold(words[..], info, i, goff);
        was, g := FlipBit(i, goff);
        assert g != {};
        propagate := was == {};
        goff := goff / GROUP_NBITS;
        i := i + 1;
      }
      GoodSized(words[..], info);
    }

    /** bitmap_sfu: set the first unset bit. */
    method Sfu() returns (bit: nat)
      requires Valid() && exists b: nat :: b < info.nbits && b !in Members()
      modifies words
      ensures Valid() && bit < info.nbits && bit !in old(Members()) && Members() == old(Members()) + {bit}
      ensures forall b: nat :: b < bit ==> b in old(Members())
    {
      hide Good, Trimmed;
      GoodSized(words[..], info);
      var i: nat := info.Levels() - 1;
      FullMeans(words[..], info);
      OffMono(info, 0, i);
      RootFirst(words[..], info);
      bit := Ffs(words[info.off[i]]);
      while i > 0
        invariant Valid() && words[..] == old(words[..]) && i < info.Levels()
        invariant bit < Bits(info, i) && First(words[..], info, i, bit)
      {
        bit := Down(i, bit);
        i := i - 1;
      }
      FirstUnset(words[..], info, bit);
      Set(bit);
    }

    /** From the first 1 bit of a level to the first of the level below. */
    method Down(i: nat, bit: nat) returns (below: nat)
      requires Valid() && 0 < i < info.Levels() && bit < Bits(info, i) && First(words[..], info, i, bit)
      ensures below < Bits(info, i - 1) && First(words[..], info, i - 1, below)
    {
      hide First, Good, Trimmed;
      GoodSized(words[..], info);
      FirstGroup(words[..], info, i - 1, bit);
      AtFits(info, i - 1, bit);
      var first := Ffs(words[info.off[i - 1] + bit]);
      below := bit * GROUP_NBITS + first;
      FirstBelow(words[..], info, i - 1, bit, first);
    }
  }
}