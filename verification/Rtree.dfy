/**
 The radix tree of rtree.h and rtree.c, which keeps a byte for every value of the top bits of a key: how the
 bits are spread over levels, and what reading and writing a slot come to.
 */
module RtreeBits {

  import opened Machine

  /** Bits of a uintptr_t. */
  const KEY_BITS: nat := 64
  const BITS_PER_LEVEL: nat := 13
  const BITS_IN_LEAF: nat := 16

  /** There is one quotient. */
  lemma OneQuotient(x: nat, d: nat, q: int, y: int)
    requires 0 < d && q * d <= x < q * d + d && y * d <= x < y * d + d
    ensures q == y
  {
    Distribute(y, q, d);
    NoMultiple(y - q, d);
  }

  lemma ShrIs(x: nat, n: nat, q: nat)
    requires q * Pow2(n) <= x < q * Pow2(n) + Pow2(n)
    ensures Shr(x, n) == q
  {
    OneQuotient(x, Pow2(n), q, Shr(x, n));
  }

  /** The lowest bits, kept when the others are shifted out to the left. */
  function Low(x: nat, n: nat): (r: nat)
    ensures r < Pow2(n) && x == Shr(x, n) * Pow2(n) + r
  {
    x - Shr(x, n) * Pow2(n)
  }

  /** Some bits followed by others. */
  function Join(p: nat, bits: nat, s: nat): (r: nat)
    ensures r == p * Pow2(bits) + s
  {
    MulLe(0, p, Pow2(bits));
    p * Pow2(bits) + s
  }

  /** What was joined can be taken apart. */
  lemma JoinParts(p: nat, bits: nat, s: nat)
    requires s < Pow2(bits)
    ensures Shr(Join(p, bits, s), bits) == p && Low(Join(p, bits, s), bits) == s
  {
    ShrIs(Join(p, bits, s), bits, p);
  }

  lemma PartsJoin(x: nat, bits: nat)
    ensures Join(Shr(x, bits), bits, Low(x, bits)) == x
  {
  }

  /** (key << lshift) >> (KEY_BITS - bits), where bits are lost to the left */
  function Subkey(key: nat, lshift: nat, bits: nat): nat
    requires lshift + bits <= KEY_BITS
  {
    Shr(Low(key * Pow2(lshift), KEY_BITS), KEY_BITS - bits)
  }

  /** The top bits of a key. */
  function Top(key: nat, n: nat): nat
    requires n <= KEY_BITS
  {
    Shr(key, KEY_BITS - n)
  }

  /** A subkey is the bits of the key after the first lshift. */
  lemma SubkeyIs(key: nat, lshift: nat, bits: nat)
    requires key < Pow2(KEY_BITS) && lshift + bits <= KEY_BITS
    ensures Subkey(key, lshift, bits) < Pow2(bits)
    ensures Top(key, lshift + bits) == Join(Top(key, lshift), bits, Subkey(key, lshift, bits))
  {
    hide Pow2;
    var rest := KEY_BITS - lshift;
    var p, h := Top(key, lshift), Low(key, rest);
    ShiftLeft(key, lshift, p, h);
    var low := KEY_BITS - lshift - bits;
    var s := Shr(h, low);
    ShiftedOut(h, lshift, bits, s);
    JoinBits(key, p, h, bits, low, s);
  }

  lemma Scaled(p: nat, a: nat, h: nat, b: nat)
    requires 0 < b
    ensures (p * a + h) * b == p * (a * b) + h * b
    ensures h < a ==> 0 <= h * b <= a * b - b
  {
    Distribute(p * a, h, b);
    Associate(p, a, b);
    MulLe(0, h, b);
    if h < a {
      MulLe(h + 1, a, b);
      Distribute(h, 1, b);
    }
  }

  /** Shifting to the left loses the top bits. */
  lemma ShiftLeft(key: nat, lshift: nat, p: nat, h: nat)
    requires lshift <= KEY_BITS && key == p * Pow2(KEY_BITS - lshift) + h && h < Pow2(KEY_BITS - lshift)
    ensures 0 <= key * Pow2(lshift) && Low(key * Pow2(lshift), KEY_BITS) == h * Pow2(lshift)
  {
    hide Pow2, Shr;
    var a, b := Pow2(KEY_BITS - lshift), Pow2(lshift);
    Pow2Add(KEY_BITS - lshift, lshift);
    Scaled(p, a, h, b);
    ShrIs(key * b, KEY_BITS, p);
  }

  /** Of what is left, shifting back to the right keeps the first bits. */
  lemma ShiftedOut(h: nat, lshift: nat, bits: nat, s: nat)
    requires lshift + bits <= KEY_BITS && h < Pow2(KEY_BITS - lshift) && s == Shr(h, KEY_BITS - lshift - bits)
    ensures 0 <= h * Pow2(lshift) && Shr(h * Pow2(lshift), KEY_BITS - bits) == s < Pow2(bits)
  {
    hide Pow2, Shr;
    var low := KEY_BITS - lshift - bits;
    var d, b := Pow2(low), Pow2(lshift);
    Pow2Add(low, lshift);
    Pow2Add(bits, low);
    Scaled(s, d, h - s * d, b);
    ShrIs(h * b, KEY_BITS - bits, s);
    Distribute(s, Pow2(bits), d);
    NoMultiple(s - Pow2(bits), d);
  }

  lemma JoinBits(key: nat, p: nat, h: nat, bits: nat, low: nat, s: nat)
    requires key == p * Pow2(bits + low) + h && s == Shr(h, low)
    ensures Shr(key, low) == p * Pow2(bits) + s
  {
    Pow2Add(bits, low);
    hide Pow2, Shr;
    Associate(p, Pow2(bits), Pow2(low));
    Distribute(p * Pow2(bits), s, Pow2(low));
    ShrIs(key, low, p * Pow2(bits) + s);
  }

  // ----- Levels

  /** How many bits the levels before the i-th consume. */
  ghost function Off(levels: seq<nat>, i: nat): nat
    requires i <= |levels|
  {
    if i == 0 then 0 else Off(levels, i - 1) + levels[i - 1]
  }

  lemma {:induction false} OffMono(levels: seq<nat>, i: nat, j: nat)
    requires i <= j <= |levels|
    ensures Off(levels, i) <= Off(levels, j)
  {
    if i < j {
      OffMono(levels, i, j - 1);
    }
  }

  lemma {:induction false} OffPrefix(levels: seq<nat>, more: seq<nat>, i: nat)
    requires i <= |levels|
    ensures Off(levels + more, i) == Off(levels, i)
  {
    if i > 0 {
      OffPrefix(levels, more, i - 1);
    }
  }

  /** The bits of a key that the first levels look at, joined from the subkeys of these levels. */
  ghost function Joined(key: nat, levels: seq<nat>, i: nat): nat
    requires i <= |levels| && Off(levels, i) <= KEY_BITS
  {
    if i == 0 then 0 else Join(Joined(key, levels, i - 1), levels[i - 1],
        Subkey(key, Off(levels, i - 1), levels[i - 1]))
  }

  /** The subkeys of all levels together are the top bits of the key: none is left out and none is looked at twice. */
  lemma {:induction false} JoinedTop(key: nat, levels: seq<nat>, i: nat)
    requires key < Pow2(KEY_BITS) && i <= |levels| && Off(levels, i) <= KEY_BITS
    ensures Joined(key, levels, i) == Top(key, Off(levels, i))
  {
    hide Pow2;
    if i == 0 {
      ShrIs(key, KEY_BITS, 0);
    } else {
      JoinedTop(key, levels, i - 1);
      SubkeyIs(key, Off(levels, i - 1), levels[i - 1]);
    }
  }

  /** With the bits below, the subkeys are the whole key, so two keys that go the same way differ in those only. */
  lemma WholeKey(key: nat, levels: seq<nat>)
    requires key < Pow2(KEY_BITS) && Off(levels, |levels|) <= KEY_BITS
    ensures var rest := KEY_BITS - Off(levels, |levels|);
      Join(Joined(key, levels, |levels|), rest, Low(key, rest)) == key
  {
    hide Pow2;
    JoinedTop(key, levels, |levels|);
    PartsJoin(key, KEY_BITS - Off(levels, |levels|));
  }

  /**
   rtree_new: spread the bits over levels. Together the levels consume exactly the bits, none of them more than a node
   has slots for.
   */
  method NewLevels(bits: nat) returns (levels: seq<nat>)
    requires 0 < bits <= KEY_BITS
    ensures 0 < |levels| && Off(levels, |levels|) == bits
    ensures forall i ::
      0 <= i < |levels| ==>
        0 < levels[i] && (i + 1 < |levels| ==> levels[i] <= BITS_PER_LEVEL) && levels[i] <= BITS_IN_LEAF
  {
    var height := 1;
    if bits > BITS_IN_LEAF {
      height := 1 + (bits - BITS_IN_LEAF) / BITS_PER_LEVEL;
      if (height - 1) * BITS_PER_LEVEL + BITS_IN_LEAF != bits {
        height := height + 1;
      }
    }
    assert (height - 1) * BITS_PER_LEVEL + BITS_IN_LEAF >= bits;
    if height > 1 {
      if (height - 1) * BITS_PER_LEVEL + BITS_IN_LEAF > bits {
        levels := [(bits - BITS_IN_LEAF) % BITS_PER_LEVEL];
      } else {
        levels := [BITS_PER_LEVEL];
      }
      ghost var first := levels[0];
      assert first + (height - 2) * BITS_PER_LEVEL + BITS_IN_LEAF == bits;
      var i := 1;
      while i < height - 1
        invariant 1 <= i <= height - 1 && |levels| == i && Off(levels, i) == first + (i - 1) * BITS_PER_LEVEL
        invariant forall j :: 0 <= j < i ==> 0 < levels[j] <= BITS_PER_LEVEL
      {
        OffPrefix(levels, [BITS_PER_LEVEL], i);
        levels := levels + [BITS_PER_LEVEL];
        i := i + 1;
      }
      OffPrefix(levels, [BITS_IN_LEAF], i);
      levels := levels + [BITS_IN_LEAF];
    } else {
      levels := [bits];
    }
  }
}

module Rtree {
  import opened Machine
  import opened RtreeBits

  /** Where a node is: its level, and the top bits of the keys it is for. */
  datatype Place = Place(level: nat, prefix: nat)

  /** A call of rtree_set that succeeded. */
  datatype Entry = Entry(key: nat, val: nat)

  /** The last value set for a key with the given top bits, 0 if there is none. */
  ghost function Lookup(log: seq<Entry>, bits: nat, t: nat): nat
    requires bits <= KEY_BITS
  {
    if log == [] then 0
    else
      var last := log[|log| - 1];
      if Top(last.key, bits) == t then last.val else Lookup(log[..|log| - 1], bits, t)
  }

  ghost function ValueOf(vals: map<nat, nat>, t: nat): nat {
    if t in vals then vals[t] else 0
  }

  // ----- The nodes, as maps from their addresses

  /** Writing a slot of a node. */
  function SetSlot(nodes: map<nat, map<nat, nat>>, n: nat, s: nat, x: nat): map<nat, map<nat, nat>>
    requires n in nodes
  {
    var slots: map<nat, nat> := nodes[n];
    var slots': map<nat, nat> := slots[s := x];
    nodes[n := slots']
  }

  ghost predicate LevelsOk(levels: seq<nat>) {
    0 < |levels| && Off(levels, |levels|) <= KEY_BITS
  }

  /** Slot s of an inner node leads to a node of the next level, for keys that go on with s. */
  ghost predicate ChildOk(levels: seq<nat>, place: map<nat, Place>, p: Place, s: nat, c: nat)
    requires p.level < |levels|
  {
    s < Pow2(levels[p.level]) && c in place && place[c] == Place(p.level + 1, Join(p.prefix, levels[p.level], s))
  }

  /** A node other than the root is in the slot of its parent where it belongs. */
  ghost predicate HasParent(levels: seq<nat>, kids: map<nat, map<nat, nat>>, place: map<nat, Place>, c: nat)
    requires c in place && 0 < place[c].level <= |levels|
  {
    var b := levels[place[c].level - 1];
    exists n :: n in kids && n in place && place[n] == Place(place[c].level - 1, Shr(place[c].prefix, b))
                && Low(place[c].prefix, b) in kids[n] && kids[n][Low(place[c].prefix, b)] == c
  }

  ghost predicate Shape(levels: seq<nat>, kids: map<nat, map<nat, nat>>, leaves: map<nat, map<nat, nat>>, root: nat,
      place: map<nat, Place>) {
    && LevelsOk(levels) && root in place && place[root] == Place(0, 0)
    && (forall n :: n in place ==> place[n].level < |levels|)
    && (forall n :: n in kids <==> n in place && place[n].level < |levels| - 1)
    && (forall n :: n in leaves <==> n in place && place[n].level == |levels| - 1)
  }

  ghost predicate Injective(place: map<nat, Place>) {
    forall m, n :: m in place && n in place && place[m] == place[n] ==> m == n
  }

  ghost predicate KidsOk(levels: seq<nat>, kids: map<nat, map<nat, nat>>, place: map<nat, Place>) {
    forall n, s :: n in kids && s in kids[n]
        ==> n in place && place[n].level < |levels| && ChildOk(levels, place, place[n], s, kids[n][s])
  }

  ghost predicate ParentsOk(levels: seq<nat>, kids: map<nat, map<nat, nat>>, place: map<nat, Place>) {
    forall c :: c in place && 0 < place[c].level ==> place[c].level <= |levels| && HasParent(levels, kids, place, c)
  }

  ghost predicate NodesOk(levels: seq<nat>, kids: map<nat, map<nat, nat>>, leaves: map<nat, map<nat, nat>>, root: nat,
      place: map<nat, Place>) {
    Shape(levels, kids, leaves, root, place) && Injective(place) && KidsOk(levels, kids, place)
        && ParentsOk(levels, kids, place)
  }

  /** What a slot of leaf n holds is the value for its bits. */
  ghost predicate SlotOk(levels: seq<nat>, place: map<nat, Place>, vals: map<nat, nat>, n: nat, s: nat, v: nat)
    requires 0 < |levels|
  {
    var b := levels[|levels| - 1];
    n in place && s < Pow2(b) && Join(place[n].prefix, b, s) in vals && vals[Join(place[n].prefix, b, s)] == v
  }

  ghost predicate SlotsOk(levels: seq<nat>, leaves: map<nat, map<nat, nat>>, place: map<nat, Place>,
      vals: map<nat, nat>)
    requires 0 < |levels|
  {
    forall n, s :: n in leaves && s in leaves[n] ==> SlotOk(levels, place, vals, n, s, leaves[n][s])
  }

  ghost predicate HasLeaf(levels: seq<nat>, leaves: map<nat, map<nat, nat>>, place: map<nat, Place>, t: nat)
    requires 0 < |levels|
  {
    var b := levels[|levels| - 1];
    exists n :: n in leaves && n in place && place[n] == Place(|levels| - 1, Shr(t, b)) && Low(t, b) in leaves[n]
  }

  /** The leaves hold exactly the values. */
  ghost predicate LeavesOk(levels: seq<nat>, leaves: map<nat, map<nat, nat>>, place: map<nat, Place>,
      vals: map<nat, nat>)
    requires 0 < |levels|
  {
    SlotsOk(levels, leaves, place, vals) && forall t :: t in vals ==> HasLeaf(levels, leaves, place, t)
  }

  /** The node for the first bits of a key, on some level. */
  ghost predicate On(levels: seq<nat>, place: map<nat, Place>, key: nat, i: nat, n: nat)
    requires LevelsOk(levels) && i <= |levels|
  {
    OffMono(levels, i, |levels|);
    n in place && place[n] == Place(i, Top(key, Off(levels, i)))
  }

  /** Going up a level forgets the bits of the subkey. */
  lemma UpOne(levels: seq<nat>, key: nat, i: nat)
    requires LevelsOk(levels) && i < |levels| && key < Pow2(KEY_BITS)
    ensures Off(levels, i + 1) <= KEY_BITS && Off(levels, i) + levels[i] == Off(levels, i + 1)
    ensures var p, s := Top(key, Off(levels, i)), Subkey(key, Off(levels, i), levels[i]);
      && s < Pow2(levels[i]) && Top(key, Off(levels, i + 1)) == Join(p, levels[i], s)
      && Shr(Top(key, Off(levels, i + 1)), levels[i]) == p && Low(Top(key, Off(levels, i + 1)), levels[i]) == s
  {
    OffMono(levels, i + 1, |levels|);
    SubkeyIs(key, Off(levels, i), levels[i]);
    JoinParts(Top(key, Off(levels, i)), levels[i], Subkey(key, Off(levels, i), levels[i]));
  }

  /** The nodes for all shorter prefixes exist as well, and lead to each other. */
  lemma ParentOn(levels: seq<nat>, kids: map<nat, map<nat, nat>>, leaves: map<nat, map<nat, nat>>, root: nat,
      place: map<nat, Place>, key: nat, i: nat, c: nat)
    returns (n: nat)
    requires NodesOk(levels, kids, leaves, root, place) && key < Pow2(KEY_BITS)
    requires i < |levels| && On(levels, place, key, i + 1, c)
    ensures On(levels, place, key, i, n) && n in kids && Off(levels, i) + levels[i] <= KEY_BITS
    ensures var s := Subkey(key, Off(levels, i), levels[i]); s in kids[n] && kids[n][s] == c
  {
    UpOne(levels, key, i);
    assert HasParent(levels, kids, place, c);
    n :| n in kids && n in place && place[n] == Place(place[c].level - 1, Shr(place[c].prefix, levels[i]))
         && Low(place[c].prefix, levels[i]) in kids[n] && kids[n][Low(place[c].prefix, levels[i])] == c;
  }

  lemma {:induction false} AncestorOn(levels: seq<nat>, kids: map<nat, map<nat, nat>>, leaves: map<nat, map<nat, nat>>,
      root: nat, place: map<nat, Place>, key: nat, i: nat, j: nat, c: nat)
    returns (n: nat)
    requires NodesOk(levels, kids, leaves, root, place) && key < Pow2(KEY_BITS)
    requires i <= j < |levels| && On(levels, place, key, j, c)
    ensures On(levels, place, key, i, n)
    decreases j - i
  {
    hide NodesOk;
    IsLevels(levels, kids, leaves, root, place);
    if i == j {
      n := c;
    } else {
      var m := ParentOn(levels, kids, leaves, root, place, key, j - 1, c);
      n := AncestorOn(levels, kids, leaves, root, place, key, i, j - 1, m);
    }
  }

  lemma SamePlace(levels: seq<nat>, kids: map<nat, map<nat, nat>>, leaves: map<nat, map<nat, nat>>, root: nat,
      place: map<nat, Place>, m: nat, n: nat)
    requires NodesOk(levels, kids, leaves, root, place) && m in place && n in place && place[m] == place[n]
    ensures m == n && (n in leaves <==> place[n].level == |levels| - 1)
  {
  }

  lemma IsLevels(levels: seq<nat>, kids: map<nat, map<nat, nat>>, leaves: map<nat, map<nat, nat>>, root: nat,
      place: map<nat, Place>)
    requires NodesOk(levels, kids, leaves, root, place)
    ensures LevelsOk(levels) && On(levels, place, 0, 0, root)
    ensures forall key :: 0 <= key < Pow2(KEY_BITS) ==> On(levels, place, key, 0, root)
  {
    hide Pow2, Shr, Injective, KidsOk, ParentsOk, On;
    forall key: nat | key < Pow2(KEY_BITS)
      ensures On(levels, place, key, 0, root)
    {
      RootOn(levels, place, root, key);
    }
  }

  lemma RootOn(levels: seq<nat>, place: map<nat, Place>, root: nat, key: nat)
    requires LevelsOk(levels) && root in place && place[root] == Place(0, 0) && key < Pow2(KEY_BITS)
    ensures On(levels, place, key, 0, root)
  {
    hide Pow2, Shr;
    ShrIs(key, KEY_BITS, 0);
  }

  lemma LeafOf(levels: seq<nat>, leaves: map<nat, map<nat, nat>>, place: map<nat, Place>, vals: map<nat, nat>, t: nat)
    returns (n: nat)
    requires 0 < |levels| && LeavesOk(levels, leaves, place, vals) && t in vals
    ensures n in leaves && n in place && place[n] == Place(|levels| - 1, Shr(t, levels[|levels| - 1]))
    ensures Low(t, levels[|levels| - 1]) in leaves[n]
  {
    hide SlotsOk;
    assert HasLeaf(levels, leaves, place, t);
    var b := levels[|levels| - 1];
    n :| n in leaves && n in place && place[n] == Place(|levels| - 1, Shr(t, b)) && Low(t, b) in leaves[n];
  }

  lemma LeafVal(levels: seq<nat>, leaves: map<nat, map<nat, nat>>, place: map<nat, Place>, vals: map<nat, nat>, n: nat,
      s: nat)
    requires 0 < |levels| && LeavesOk(levels, leaves, place, vals) && n in leaves && s in leaves[n]
    ensures var b := levels[|levels| - 1];
      n in place && s < Pow2(b) && Join(place[n].prefix, b, s) in vals
          && vals[Join(place[n].prefix, b, s)] == leaves[n][s]
  {
    hide HasLeaf;
    assert SlotOk(levels, place, vals, n, s, leaves[n][s]);
  }

  /** Below an empty slot there is no node... */
  lemma NoChild(levels: seq<nat>, kids: map<nat, map<nat, nat>>, leaves: map<nat, map<nat, nat>>, root: nat,
      place: map<nat, Place>, key: nat, i: nat, n: nat, c: nat)
    requires NodesOk(levels, kids, leaves, root, place) && key < Pow2(KEY_BITS)
    requires i + 1 < |levels| && On(levels, place, key, i, n) && n in kids && Off(levels, i) + levels[i] <= KEY_BITS
    requires Subkey(key, Off(levels, i), levels[i]) !in kids[n]
    ensures !On(levels, place, key, i + 1, c)
  {
    if On(levels, place, key, i + 1, c) {
      var m := ParentOn(levels, kids, leaves, root, place, key, i, c);
      SamePlace(levels, kids, leaves, root, place, m, n);
    }
  }

  lemma NoNode(levels: seq<nat>, kids: map<nat, map<nat, nat>>, leaves: map<nat, map<nat, nat>>, root: nat,
      place: map<nat, Place>, key: nat, i: nat, n: nat)
    requires NodesOk(levels, kids, leaves, root, place) && key < Pow2(KEY_BITS)
    requires i + 1 < |levels| && On(levels, place, key, i, n) && n in kids && Off(levels, i) + levels[i] <= KEY_BITS
    requires Subkey(key, Off(levels, i), levels[i]) !in kids[n]
    ensures !HasNode(levels, place, key, i + 1)
  {
    if HasNode(levels, place, key, i + 1) {
      var c :| On(levels, place, key, i + 1, c);
      NoChild(levels, kids, leaves, root, place, key, i, n, c);
      assert false;
    }
  }

  lemma IsNode(levels: seq<nat>, place: map<nat, Place>, key: nat, i: nat, n: nat)
    requires LevelsOk(levels) && i <= |levels| && On(levels, place, key, i, n)
    ensures HasNode(levels, place, key, i)
  {
  }

  ghost predicate HasNode(levels: seq<nat>, place: map<nat, Place>, key: nat, i: nat)
    requires LevelsOk(levels) && i <= |levels|
  {
    exists n :: On(levels, place, key, i, n)
  }

  /** How many of the nodes for a key are missing, down to a level below the root. */
  ghost function Absent(levels: seq<nat>, place: map<nat, Place>, key: nat, i: nat): nat
    requires LevelsOk(levels) && i <= |levels|
  {
    if i == 0 then 0 else Absent(levels, place, key, i - 1) + if HasNode(levels, place, key, i) then 0 else 1
  }

  lemma {:induction false} AbsentMono(levels: seq<nat>, place: map<nat, Place>, key: nat, i: nat, j: nat)
    requires LevelsOk(levels) && i <= j <= |levels|
    ensures Absent(levels, place, key, i) <= Absent(levels, place, key, j)
  {
    hide HasNode;
    if i < j {
      AbsentMono(levels, place, key, i, j - 1);
    }
  }

  /** A new node at one level makes no difference at another. */
  lemma OtherLevel(levels: seq<nat>, place: map<nat, Place>, key: nat, i: nat, c: nat, j: nat)
    requires LevelsOk(levels) && i < j <= |levels| && c !in place
    ensures HasNode(levels, place[c := Place(i, Top(key, LevelOff(levels, i)))], key, j)
            <==> HasNode(levels, place, key, j)
  {
    hide Off, Top;
    var place' := place[c := Place(i, Top(key, LevelOff(levels, i)))];
    forall n ensures On(levels, place', key, j, n) <==> On(levels, place, key, j, n) {
    }
  }

  lemma OtherLevels(levels: seq<nat>, place: map<nat, Place>, key: nat, i: nat, c: nat)
    requires LevelsOk(levels) && i < |levels| && c !in place
    ensures var place' := place[c := Place(i, Top(key, LevelOff(levels, i)))];
      forall j: nat :: i < j <= |levels| ==> (HasNode(levels, place', key, j) <==> HasNode(levels, place, key, j))
  {
    hide HasNode, Top;
    forall j: nat | i < j <= |levels|
      ensures HasNode(levels, place[c := Place(i, Top(key, LevelOff(levels, i)))], key, j)
              <==> HasNode(levels, place, key, j)
    {
      OtherLevel(levels, place, key, i, c, j);
    }
  }

  ghost function LevelOff(levels: seq<nat>, i: nat): (r: nat)
    requires LevelsOk(levels) && i <= |levels|
    ensures r == Off(levels, i) <= KEY_BITS
  {
    OffMono(levels, i, |levels|);
    Off(levels, i)
  }

  /** ... and so no value. */
  lemma Missing(levels: seq<nat>, kids: map<nat, map<nat, nat>>, leaves: map<nat, map<nat, nat>>, root: nat,
      place: map<nat, Place>, vals: map<nat, nat>, key: nat, i: nat, n: nat)
    requires NodesOk(levels, kids, leaves, root, place) && LeavesOk(levels, leaves, place, vals) && key < Pow2(KEY_BITS)
    requires i + 1 < |levels| && On(levels, place, key, i, n) && n in kids && Off(levels, i) + levels[i] <= KEY_BITS
    requires Subkey(key, Off(levels, i), levels[i]) !in kids[n]
    ensures Top(key, Off(levels, |levels|)) !in vals
  {
    hide LeavesOk, NodesOk, Off, Subkey, Top, Shr;
    IsLevels(levels, kids, leaves, root, place);
    var t, h := Top(key, Off(levels, |levels|)), |levels| - 1;
    UpOne(levels, key, h);
    if t in vals {
      var leaf := LeafOf(levels, leaves, place, vals, t);
      var c := AncestorOn(levels, kids, leaves, root, place, key, i + 1, h, leaf);
      NoChild(levels, kids, leaves, root, place, key, i, n, c);
    }
  }

  function SlotOr0(leaf: map<nat, nat>, s: nat): nat {
    if s in leaf then leaf[s] else 0
  }

  /** A leaf holds the value for the key, if one was set. */
  lemma AtLeaf(levels: seq<nat>, kids: map<nat, map<nat, nat>>, leaves: map<nat, map<nat, nat>>, root: nat,
      place: map<nat, Place>, vals: map<nat, nat>, key: nat, n: nat)
    requires NodesOk(levels, kids, leaves, root, place) && LeavesOk(levels, leaves, place, vals) && key < Pow2(KEY_BITS)
    requires On(levels, place, key, |levels| - 1, n)
    requires Off(levels, |levels| - 1) + levels[|levels| - 1] <= KEY_BITS && Off(levels, |levels|) <= KEY_BITS
    ensures n in leaves
    ensures ValueOf(vals, Top(key, Off(levels, |levels|)))
         == SlotOr0(leaves[n], Subkey(key, Off(levels, |levels| - 1), levels[|levels| - 1]))
  {
    hide LeavesOk, NodesOk, Pow2;
    IsLevels(levels, kids, leaves, root, place);
    var h, t := |levels| - 1, Top(key, Off(levels, |levels|));
    var s := Subkey(key, Off(levels, h), levels[h]);
    UpOne(levels, key, h);
    SamePlace(levels, kids, leaves, root, place, n, n);
    if s in leaves[n] {
      LeafVal(levels, leaves, place, vals, n, s);
    }
    if t in vals {
      var m := LeafOf(levels, leaves, place, vals, t);
      SamePlace(levels, kids, leaves, root, place, m, n);
    }
  }

  // ----- Changes

  /** A new node of zeros in an empty slot. */
  lemma Grown(levels: seq<nat>, kids: map<nat, map<nat, nat>>, leaves: map<nat, map<nat, nat>>, root: nat,
      place: map<nat, Place>, key: nat, i: nat, n: nat, c: nat, kids': map<nat, map<nat, nat>>,
      leaves': map<nat, map<nat, nat>>, place': map<nat, Place>)
    requires NodesOk(levels, kids, leaves, root, place) && key < Pow2(KEY_BITS) && c !in place
    requires i + 1 < |levels| && On(levels, place, key, i, n) && n in kids && Off(levels, i) + levels[i] <= KEY_BITS
    requires Subkey(key, Off(levels, i), levels[i]) !in kids[n]
    requires Off(levels, i + 1) <= KEY_BITS && place' == place[c := Place(i + 1, Top(key, Off(levels, i + 1)))]
    requires var k1 := SetSlot(kids, n, Subkey(key, Off(levels, i), levels[i]), c);
      if i + 2 < |levels| then kids' == k1[c := map[]] && leaves' == leaves
      else kids' == k1 && leaves' == leaves[c := map[]]
    ensures On(levels, place', key, i + 1, c) && NodesOk(levels, kids', leaves', root, place')
  {
    hide Shape, Injective, KidsOk, ParentsOk, Off, Subkey, Top, Shr, Join, Low, SetSlot;
    IsLevels(levels, kids, leaves, root, place);
    UpOne(levels, key, i);
    var s := Subkey(key, Off(levels, i), levels[i]);
    ShapeKids(levels, kids, leaves, root, place, n);
    GrownShape(levels, kids, kids', leaves, leaves', root, place, place', n, s, c);
    forall d | d in place
      ensures place[d] != place'[c]
    {
      NoChild(levels, kids, leaves, root, place, key, i, n, d);
    }
    GrownInjective(place, place', c);
    GrownKids(levels, kids, kids', place, place', n, s, c);
    GrownParents(levels, kids, kids', place, place', n, s, c);
  }

  lemma ShapeKids(levels: seq<nat>, kids: map<nat, map<nat, nat>>, leaves: map<nat, map<nat, nat>>, root: nat,
      place: map<nat, Place>, n: nat)
    requires Shape(levels, kids, leaves, root, place)
    ensures n in kids ==> n in place && place[n].level + 1 < |levels|
    ensures forall m :: m in kids ==> m in place
    ensures root in place && 0 < |levels|
  {
  }

  lemma GrownShape(levels: seq<nat>, kids: map<nat, map<nat, nat>>, kids': map<nat, map<nat, nat>>,
      leaves: map<nat, map<nat, nat>>, leaves': map<nat, map<nat, nat>>, root: nat, place: map<nat, Place>,
      place': map<nat, Place>, n: nat, s: nat, c: nat)
    requires Shape(levels, kids, leaves, root, place) && n in kids
    requires c !in place && c in place' && place' == place[c := place'[c]]
    requires place'[c].level == place[n].level + 1 < |levels|
    requires var k1 := SetSlot(kids, n, s, c);
      if place'[c].level + 1 < |levels| then kids' == k1[c := map[]] && leaves' == leaves
      else kids' == k1 && leaves' == leaves[c := map[]]
    ensures Shape(levels, kids', leaves', root, place')
  {
  }

  lemma GrownInjective(place: map<nat, Place>, place': map<nat, Place>, c: nat)
    requires Injective(place) && c !in place && c in place' && place' == place[c := place'[c]]
    requires forall d :: d in place ==> place[d] != place'[c]
    ensures Injective(place')
  {
  }

  lemma GrownKids(levels: seq<nat>, kids: map<nat, map<nat, nat>>, kids': map<nat, map<nat, nat>>,
      place: map<nat, Place>, place': map<nat, Place>, n: nat, s: nat, c: nat)
    requires KidsOk(levels, kids, place) && n in kids && n in place && place[n].level < |levels|
    requires c !in place && c in place' && place' == place[c := place'[c]]
    requires s < Pow2(levels[place[n].level])
    requires place'[c] == Place(place[n].level + 1, Join(place[n].prefix, levels[place[n].level], s))
    requires (forall m :: m in kids ==> m in place)
    requires kids' == SetSlot(kids, n, s, c) || kids' == SetSlot(kids, n, s, c)[c := map[]]
    ensures KidsOk(levels, kids', place')
  {
    forall m, x | m in kids' && x in kids'[m]
      ensures m in place' && place'[m].level < |levels| && ChildOk(levels, place', place'[m], x, kids'[m][x])
    {
      if !(m == n && x == s) {
        assert m in kids && x in kids[m] && ChildOk(levels, place, place[m], x, kids[m][x]);
      }
    }
  }

  lemma GrownParents(levels: seq<nat>, kids: map<nat, map<nat, nat>>, kids': map<nat, map<nat, nat>>,
      place: map<nat, Place>, place': map<nat, Place>, n: nat, s: nat, c: nat)
    requires ParentsOk(levels, kids, place) && n in kids && n in place && s !in kids[n]
    requires c !in place && c in place' && place' == place[c := place'[c]]
    requires place[n].level + 1 < |levels| && Low(place'[c].prefix, levels[place[n].level]) == s
    requires place'[c].level == place[n].level + 1 && Shr(place'[c].prefix, levels[place[n].level]) == place[n].prefix
    requires (forall m :: m in kids ==> m in place)
    requires kids' == SetSlot(kids, n, s, c) || kids' == SetSlot(kids, n, s, c)[c := map[]]
    ensures ParentsOk(levels, kids', place')
  {
    forall d | d in place' && 0 < place'[d].level
      ensures place'[d].level <= |levels| && HasParent(levels, kids', place', d)
    {
      if d == c {
        assert n in kids' && kids'[n][s] == c && place'[n] == place[n];
      } else {
        GrownParent(levels, kids, kids', place, place', n, s, c, d);
      }
    }
  }

  lemma GrownParent(levels: seq<nat>, kids: map<nat, map<nat, nat>>, kids': map<nat, map<nat, nat>>,
      place: map<nat, Place>, place': map<nat, Place>, n: nat, s: nat, c: nat, d: nat)
    requires n in kids && s !in kids[n] && c !in place && c in place' && place' == place[c := place'[c]]
    requires d in place && 0 < place[d].level <= |levels| && HasParent(levels, kids, place, d)
    requires forall m :: m in kids ==> m in place
    requires kids' == SetSlot(kids, n, s, c) || kids' == SetSlot(kids, n, s, c)[c := map[]]
    ensures HasParent(levels, kids', place', d)
  {
    var b := levels[place[d].level - 1];
    var m :| m in kids && m in place && place[m] == Place(place[d].level - 1, Shr(place[d].prefix, b))
             && Low(place[d].prefix, b) in kids[m] && kids[m][Low(place[d].prefix, b)] == d;
    assert m in kids' && Low(place'[d].prefix, b) in kids'[m] && kids'[m][Low(place'[d].prefix, b)] == d
        && place'[m] == place[m];
  }

  /** New nodes hold zeros. */
  lemma GrownLeaves(levels: seq<nat>, leaves: map<nat, map<nat, nat>>, leaves': map<nat, map<nat, nat>>,
      place: map<nat, Place>, place': map<nat, Place>, vals: map<nat, nat>, c: nat)
    requires 0 < |levels| && LeavesOk(levels, leaves, place, vals)
    requires c !in place && c in place' && place' == place[c := place'[c]]
    requires (leaves' == leaves || leaves' == leaves[c := map[]])
    ensures LeavesOk(levels, leaves', place', vals)
  {
    hide LeavesOk, SlotsOk, SlotOk, HasLeaf;
    assert SlotsOk(levels, leaves', place', vals) by {
      GrownSlots(levels, leaves, leaves', place, place', vals, c);
    }
    forall t | t in vals
      ensures HasLeaf(levels, leaves', place', t)
    {
      var n := LeafOf(levels, leaves, place, vals, t);
      LeafAt(levels, leaves', place', t, n);
    }
    LeavesAre(levels, leaves', place', vals);
  }

  lemma GrownSlots(levels: seq<nat>, leaves: map<nat, map<nat, nat>>, leaves': map<nat, map<nat, nat>>,
      place: map<nat, Place>, place': map<nat, Place>, vals: map<nat, nat>, c: nat)
    requires 0 < |levels| && LeavesOk(levels, leaves, place, vals)
    requires c !in place && c in place' && place' == place[c := place'[c]]
    requires (leaves' == leaves || leaves' == leaves[c := map[]])
    ensures SlotsOk(levels, leaves', place', vals)
  {
    hide LeavesOk;
    forall n, s | n in leaves' && s in leaves'[n]
      ensures SlotOk(levels, place', vals, n, s, leaves'[n][s])
    {
      LeafVal(levels, leaves, place, vals, n, s);
    }
  }

  lemma LeafAt(levels: seq<nat>, leaves: map<nat, map<nat, nat>>, place: map<nat, Place>, t: nat, n: nat)
    requires 0 < |levels| && n in leaves && n in place && place[n] == Place(|levels| - 1, Shr(t, levels[|levels| - 1]))
    requires Low(t, levels[|levels| - 1]) in leaves[n]
    ensures HasLeaf(levels, leaves, place, t)
  {
  }

  lemma LeavesAre(levels: seq<nat>, leaves: map<nat, map<nat, nat>>, place: map<nat, Place>, vals: map<nat, nat>)
    requires 0 < |levels| && SlotsOk(levels, leaves, place, vals)
    requires forall t :: t in vals ==> HasLeaf(levels, leaves, place, t)
    ensures LeavesOk(levels, leaves, place, vals)
  {
  }

  /** Writing the slot of a leaf sets the value for its keys. */
  lemma LeafSet(levels: seq<nat>, leaves: map<nat, map<nat, nat>>, place: map<nat, Place>, vals: map<nat, nat>, n: nat,
      s: nat, v: nat, t: nat)
    requires 0 < |levels| && LeavesOk(levels, leaves, place, vals) && Injective(place) && n in leaves && n in place
    requires forall m :: m in leaves ==> m in place && place[m].level == |levels| - 1
    requires var b := levels[|levels| - 1]; s < Pow2(b) && t == Join(place[n].prefix, b, s)
    ensures LeavesOk(levels, SetSlot(leaves, n, s, v), place, vals[t := v])
  {
    hide LeavesOk, SlotsOk, SlotOk, HasLeaf, Injective;
    var b, leaves', vals' := levels[|levels| - 1], SetSlot(leaves, n, s, v), vals[t := v];
    JoinParts(place[n].prefix, b, s);
    SetSlots(levels, leaves, place, vals, n, s, v, t);
    forall x | x in vals'
      ensures HasLeaf(levels, leaves', place, x)
    {
      if x == t {
        LeafAt(levels, leaves', place, x, n);
      } else {
        var m := LeafOf(levels, leaves, place, vals, x);
        LeafAt(levels, leaves', place, x, m);
      }
    }
    LeavesAre(levels, leaves', place, vals');
  }

  lemma SetSlots(levels: seq<nat>, leaves: map<nat, map<nat, nat>>, place: map<nat, Place>, vals: map<nat, nat>, n: nat,
      s: nat, v: nat, t: nat)
    requires 0 < |levels| && LeavesOk(levels, leaves, place, vals) && Injective(place) && n in leaves && n in place
    requires forall m :: m in leaves ==> m in place && place[m].level == |levels| - 1
    requires var b := levels[|levels| - 1]; s < Pow2(b) && t == Join(place[n].prefix, b, s)
    ensures SlotsOk(levels, SetSlot(leaves, n, s, v), place, vals[t := v])
  {
    hide LeavesOk, HasLeaf;
    var b, leaves', vals' := levels[|levels| - 1], SetSlot(leaves, n, s, v), vals[t := v];
    JoinParts(place[n].prefix, b, s);
    forall m, y | m in leaves' && y in leaves'[m]
      ensures SlotOk(levels, place, vals', m, y, leaves'[m][y])
    {
      if !(m == n && y == s) {
        LeafVal(levels, leaves, place, vals, m, y);
        JoinParts(place[m].prefix, b, y);
        if m != n {
          Differ(place, m, n);
        }
      }
    }
  }

  lemma Differ(place: map<nat, Place>, m: nat, n: nat)
    requires Injective(place) && m in place && n in place && m != n && place[m].level == place[n].level
    ensures place[m].prefix != place[n].prefix
  {
    assert place[m] == Place(place[m].level, place[m].prefix) && place[n] == Place(place[n].level, place[n].prefix);
  }

  /** Remembering a value agrees with having set it last. */
  lemma LogSet(vals: map<nat, nat>, log: seq<Entry>, bits: nat, key: nat, val: nat)
    requires bits <= KEY_BITS && forall t :: 0 <= t ==> ValueOf(vals, t) == Lookup(log, bits, t)
    ensures forall t :: 0 <= t ==> ValueOf(vals[Top(key, bits) := val], t) == Lookup(log + [Entry(key, val)], bits, t)
  {
    var log' := log + [Entry(key, val)];
    assert log'[..|log'| - 1] == log;
    forall t: nat
      ensures ValueOf(vals[Top(key, bits) := val], t) == Lookup(log', bits, t)
    {
      assert ValueOf(vals, t) == Lookup(log, bits, t);
    }
  }

  class RadixTree {
    const levels: seq<nat>
    var root: nat
    /** Inner nodes by address, with the slots that are not NULL, and leaves with the slots that were written. */
    var kids: map<nat, map<nat, nat>>
    var leaves: map<nat, map<nat, nat>>
    ghost var place: map<nat, Place>
    ghost var vals: map<nat, nat>
    /** The calls that succeeded. */
    ghost var log: seq<Entry>

    ghost function Bits(): nat {
      Off(levels, |levels|)
    }

    ghost predicate Valid()
      reads this
    {
      && NodesOk(levels, kids, leaves, root, place) && LevelsOk(levels) && LeavesOk(levels, leaves, place, vals)
      && forall t :: 0 <= t ==> ValueOf(vals, t) == Lookup(log, Bits(), t)
    }

    /** rtree_new */
    constructor (levels: seq<nat>)
      requires LevelsOk(levels)
      ensures Valid() && log == [] && this.levels == levels
    {
      this.levels, root, log, vals := levels, 0, [], map[];
      place := map[0 := Place(0, 0)];
      kids, leaves := if 1 < |levels| then map[0 := map[]] else map[], if 1 < |levels| then map[] else map[0 := map[]];
    }

    /** rtree_get: the last value set for a key with the same top bits, 0 if there is none. */
    method Get(key: nat) returns (r: nat)
      requires Valid() && key < Pow2(KEY_BITS)
      ensures r == Lookup(log, Bits(), Top(key, Bits()))
    {
      hide NodesOk, LeavesOk, Lookup, Shr;
      IsLevels(levels, kids, leaves, root, place);
      var i, lshift, node := 0, 0, root;
      while i < |levels| - 1
        invariant i < |levels| && lshift == Off(levels, i) && On(levels, place, key, i, node)
      {
        IsInner(levels, kids, leaves, root, place, key, i, node);
        var bits := levels[i];
        UpOne(levels, key, i);
        var subkey := Subkey(key, lshift, bits);
        if subkey !in kids[node] {
          Missing(levels, kids, leaves, root, place, vals, key, i, node);
          assert ValueOf(vals, Top(key, Bits())) == 0;
          return 0;
        }
        ChildOn(levels, kids, leaves, root, place, key, i, node);
        node := kids[node][subkey];
        i, lshift := i + 1, lshift + bits;
      }
      AtLeaf(levels, kids, leaves, root, place, vals, key, node);
      var subkey := Subkey(key, lshift, levels[i]);
      r := if subkey in leaves[node] then leaves[node][subkey] else 0;
      assert ValueOf(vals, Top(key, Bits())) == r;
    }

    /** An address that is not in use. */
    method NewNode() returns (c: nat)
      requires NodesOk(levels, kids, leaves, root, place)
      ensures c !in place
    {
      c := 0;
      ghost var all := place.Keys;
      while c in kids || c in leaves
        invariant all <= place.Keys && forall m :: c <= m && m in place ==> m in all
        decreases all
      {
        all := all - {c};
        c := c + 1;
      }
    }

    /** Allocate the node for a slot that is NULL. */
    method Grow(node: nat, i: nat, subkey: nat, ghost key: nat) returns (c: nat)
      requires Valid() && key < Pow2(KEY_BITS) && i + 1 < |levels| && On(levels, place, key, i, node)
      requires node in kids && Off(levels, i) + levels[i] <= KEY_BITS
      requires subkey == Subkey(key, Off(levels, i), levels[i]) && subkey !in kids[node]
      modifies this`kids, this`leaves, this`place
      ensures Valid() && On(levels, place, key, i + 1, c)
      ensures forall j: nat :: i + 1 < j <= |levels| ==>
        (HasNode(levels, place, key, j) <==> old(HasNode(levels, place, key, j)))
    {
      hide NodesOk, LeavesOk, Lookup, Shr, HasNode, On, Off, Top, Subkey, Pow2;
      c := NewNode();
      UpOne(levels, key, i);
      ghost var place', kids0, leaves0 := place[c := Place(i + 1, Top(key, Off(levels, i + 1)))], kids, leaves;
      kids := SetSlot(kids, node, subkey, c);
      if i + 1 < |levels| - 1 {
        kids := kids[c := map[]];
      } else {
        leaves := leaves[c := map[]];
      }
      Grown(levels, kids0, leaves0, root, place, key, i, node, c, kids, leaves, place');
      GrownLeaves(levels, leaves0, leaves, place, place', vals, c);
      OtherLevels(levels, place, key, i + 1, c);
      place := place';
    }

    /** rtree_set, with memory for so many nodes: it fails exactly if more than these are missing. */
    method Set(key: nat, val: nat, memory: nat) returns (failed: bool)
      requires Valid() && key < Pow2(KEY_BITS)
      modifies this
      ensures Valid() && log == (if failed then old(log) else old(log) + [Entry(key, val)])
      ensures failed <==> memory < Absent(levels, old(place), key, |levels| - 1)
    {
      hide NodesOk, LeavesOk, Lookup, Shr, HasNode, On, Pow2;
      IsLevels(levels, kids, leaves, root, place);
      ghost var was := place;
      var i, lshift, node, left: nat := 0, 0, root, memory;
      while i < |levels| - 1
        invariant Valid() && log == old(log) && i < |levels|
        invariant lshift == Off(levels, i) && On(levels, place, key, i, node)
        invariant left + Absent(levels, was, key, i) == memory
        invariant forall j: nat ::
          i < j <= |levels| ==> (HasNode(levels, place, key, j) <==> HasNode(levels, was, key, j))
      {
        IsInner(levels, kids, leaves, root, place, key, i, node);
        var bits := levels[i];
        UpOne(levels, key, i);
        var subkey := Subkey(key, lshift, bits);
        AbsentMono(levels, was, key, i + 1, |levels| - 1);
        if subkey !in kids[node] {
          NoNode(levels, kids, leaves, root, place, key, i, node);
          if left == 0 {
            return true;
          }
          left := left - 1;
          node := Grow(node, i, subkey, key);
        } else {
          ChildOn(levels, kids, leaves, root, place, key, i, node);
          node := kids[node][subkey];
          IsNode(levels, place, key, i + 1, node);
        }
        i, lshift := i + 1, lshift + bits;
      }
      SetLeaf(key, val, node, lshift);
      failed := false;
    }

    method SetLeaf(key: nat, val: nat, node: nat, lshift: nat)
      requires Valid() && lshift == Off(levels, |levels| - 1)
      requires key < Pow2(KEY_BITS) && On(levels, place, key, |levels| - 1, node)
      modifies this`leaves, this`vals, this`log
      ensures Valid() && log == old(log) + [Entry(key, val)]
    {
      hide LeavesOk, NodesOk, Shr, Lookup, Off, Top, Subkey, Pow2;
      ghost var h, t := |levels| - 1, Top(key, Bits());
      UpOne(levels, key, h);
      AtLeaf(levels, kids, leaves, root, place, vals, key, node);
      LeavesPlaced(levels, kids, leaves, root, place);
      var subkey := Subkey(key, lshift, levels[|levels| - 1]);
      LeafSet(levels, leaves, place, vals, node, subkey, val, t);
      LeafKeeps(levels, kids, leaves, root, place, node, subkey, val);
      LogSet(vals, log, Bits(), key, val);
      leaves := SetSlot(leaves, node, subkey, val);
      vals := vals[t := val];
      log := log + [Entry(key, val)];
    }
  }

  lemma LeavesPlaced(levels: seq<nat>, kids: map<nat, map<nat, nat>>, leaves: map<nat, map<nat, nat>>, root: nat,
      place: map<nat, Place>)
    requires NodesOk(levels, kids, leaves, root, place)
    ensures Injective(place) && forall m :: m in leaves ==> m in place && place[m].level == |levels| - 1
  {
  }

  /** Writing a value moves no node. */
  lemma LeafKeeps(levels: seq<nat>, kids: map<nat, map<nat, nat>>, leaves: map<nat, map<nat, nat>>, root: nat,
      place: map<nat, Place>, n: nat, s: nat, v: nat)
    requires NodesOk(levels, kids, leaves, root, place) && n in leaves
    ensures NodesOk(levels, kids, SetSlot(leaves, n, s, v), root, place)
  {
    hide KidsOk, ParentsOk, Injective;
  }

  /** A node above the last level has slots for nodes; what is in the slot for the key is the node for more of it. */
  lemma IsInner(levels: seq<nat>, kids: map<nat, map<nat, nat>>, leaves: map<nat, map<nat, nat>>, root: nat,
      place: map<nat, Place>, key: nat, i: nat, n: nat)
    requires NodesOk(levels, kids, leaves, root, place) && i + 1 < |levels| && On(levels, place, key, i, n)
    ensures n in kids
  {
  }

  lemma ChildOn(levels: seq<nat>, kids: map<nat, map<nat, nat>>, leaves: map<nat, map<nat, nat>>, root: nat,
      place: map<nat, Place>, key: nat, i: nat, n: nat)
    requires NodesOk(levels, kids, leaves, root, place) && key < Pow2(KEY_BITS)
    requires i + 1 < |levels| && On(levels, place, key, i, n) && n in kids
    requires Off(levels, i) + levels[i] <= KEY_BITS
    requires Subkey(key, Off(levels, i), levels[i]) in kids[n]
    ensures On(levels, place, key, i + 1, kids[n][Subkey(key, Off(levels, i), levels[i])])
  {
    UpOne(levels, key, i);
    hide Shape, Injective, ParentsOk;
    var s := Subkey(key, Off(levels, i), levels[i]);
    assert ChildOk(levels, place, place[n], s, kids[n][s]);
  }
}
