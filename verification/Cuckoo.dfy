/**
 The cuckoo hash table of ckh.c: every key has two buckets of cells, inserting may move stored items
 between their buckets, and a table that cannot take an item is rebuilt at another size.
 */
module CuckooMaps {

  const LG_BUCKET_CELLS: nat := 2
  const BUCKET_CELLS: nat := 4

  /** A failed insertion: the item in hand is missing afterwards, which may be the new one or an older one. */
  function FailedInsert<K, V>(m: map<K, V>, k: K, v: V, lost: K): map<K, V> {
    m[k := v] - {lost}
  }

  /** When a new key may fail to be inserted: both its buckets are full, so there are items enough for one. */
  predicate CanFail<K, V>(m: map<K, V>, k: K, lost: K) {
    k !in m && BUCKET_CELLS <= |m| && (lost in m || lost == k)
  }

  /** If the item lost is the new one, the table stores what it did. */
  lemma NothingLost<K, V>(m: map<K, V>, k: K, v: V)
    requires k !in m
    ensures FailedInsert(m, k, v, k) == m
  {
  }

  /** If not, the new one is in it. */
  lemma OlderLost<K, V>(m: map<K, V>, k: K, v: V, lost: K)
    requires lost != k
    ensures var m' := FailedInsert(m, k, v, lost); k in m' && m'[k] == v && lost !in m'
  {
  }
}

module CuckooCells {

  import opened CuckooMaps
  import opened Machine

  datatype Item = Item(key: int, data: int)

  /** A cell of the table; an empty one has a null key. */
  datatype Cell = Empty | Full(item: Item)

  ghost function One(c: Cell): multiset<Item> {
    if c.Full? then multiset{c.item} else multiset{}
  }

  /** What a table stores. */
  ghost function Items(t: seq<Cell>): multiset<Item> {
    if t == [] then multiset{} else Items(t[..|t| - 1]) + One(t[|t| - 1])
  }

  lemma {:induction false} ItemsUpdate(t: seq<Cell>, i: nat, c: Cell)
    requires i < |t|
    ensures Items(t[i := c]) + One(t[i]) == Items(t) + One(c)
  {
    hide One;
    var t', n := t[i := c], |t| - 1;
    if i == n {
      assert t'[..n] == t[..n];
      Shift(Items(t[..n]), One(c), One(t[n]));
    } else {
      ItemsUpdate(t[..n], i, c);
      assert t'[..n] == t[..n][i := c];
      Shift(Items(t'[..n]), One(t[n]), One(t[i]));
      Shift(Items(t[..n]), One(t[n]), One(c));
    }
  }

  lemma Shift(a: multiset<Item>, b: multiset<Item>, c: multiset<Item>)
    ensures a + b + c == a + c + b
  {
  }

  lemma {:induction false} ItemsIn(t: seq<Cell>, x: Item)
    ensures x in Items(t) <==> Full(x) in t
  {
    if t != [] {
      ItemsIn(t[..|t| - 1], x);
      assert t == t[..|t| - 1] + [t[|t| - 1]];
    }
  }

  lemma {:induction false} ItemsEmpty(t: seq<Cell>)
    requires forall i :: 0 <= i < |t| ==> t[i] == Empty
    ensures Items(t) == multiset{}
  {
    if t != [] {
      ItemsEmpty(t[..|t| - 1]);
    }
  }

  lemma ItemsNext(t: seq<Cell>, i: nat)
    requires i < |t|
    ensures Items(t[..i + 1]) == Items(t[..i]) + One(t[i])
  {
    assert t[..i + 1][..i] == t[..i];
  }

  /** Keys are stored once. */
  ghost predicate Unique(m: multiset<Item>) {
    && (forall x :: m[x] <= 1)
    && (forall x, y :: x in m && y in m && x.key == y.key ==> x == y)
  }

  ghost function Keys(m: multiset<Item>): set<int> {
    set x | x in m :: x.key
  }

  /** The table as a finite map. */
  ghost function Dict(m: multiset<Item>): map<int, int>
    requires Unique(m)
  {
    map x | x in m :: x.key := x.data
  }

  /** Adding an item under a new key is adding it to the map. */
  lemma DictAdd(m: multiset<Item>, x: Item)
    requires Unique(m) && x.key !in Keys(m)
    ensures Unique(m + multiset{x}) && Dict(m + multiset{x}) == Dict(m)[x.key := x.data]
  {
    var m' := m + multiset{x};
    UniqueAdd(m, x);
    hide Unique, Keys;
    assert forall y :: y in m' <==> y in m || y == x;
  }

  /** Adding a key and removing one changes a map, unless it is the same key. */
  lemma GoneKey(d: map<int, int>, k: int, v: int, gone: int)
    requires k !in d
    ensures d[k := v] - {gone} == d <==> gone == k
    ensures gone in d[k := v] && gone != k ==> gone in d && k in d[k := v] - {gone}
  {
    if gone != k {
      assert k in d[k := v] - {gone};
    }
  }

  lemma UniqueAdd(m: multiset<Item>, x: Item)
    requires Unique(m) && x.key !in Keys(m)
    ensures Unique(m + multiset{x})
    ensures forall y :: y in m ==> y.key != x.key
  {
    forall y | y in m
      ensures y.key != x.key
    {
      assert y.key in Keys(m);
    }
  }

  lemma DictRemove(m: multiset<Item>, x: Item)
    requires Unique(m) && x in m
    ensures Unique(m - multiset{x}) && x.key in Dict(m) && Dict(m)[x.key] == x.data
    ensures Dict(m - multiset{x}) == Dict(m) - {x.key}
  {
    UniqueRemove(m, x);
    hide Unique, Keys;
    assert forall y :: y in m - multiset{x} <==> y in m && y.key != x.key;
  }

  lemma UniqueRemove(m: multiset<Item>, x: Item)
    requires Unique(m) && x in m
    ensures Unique(m - multiset{x}) && forall y :: y in m - multiset{x} <==> y in m && y.key != x.key
    ensures forall y :: y in m && y.key == x.key ==> y == x
  {
    var m' := m - multiset{x};
    forall y
      ensures m'[y] == if y == x then m[y] - 1 else m[y]
    {
    }
  }

  lemma AllBut(m: multiset<Item>, all: multiset<Item>, x: Item)
    requires m + multiset{x} == all
    ensures m == all - multiset{x} && x in all && m <= all
  {
    assert all - multiset{x} == m + multiset{x} - multiset{x};
  }

  lemma NotAmong(m: multiset<Item>, m': multiset<Item>, x: Item)
    requires Unique(m) && x in m && m' <= m - multiset{x}
    ensures x.key !in Keys(m')
  {
    UniqueRemove(m, x);
    hide Unique;
    forall y | y in m'
      ensures y.key != x.key
    {
      assert y in m - multiset{x};
    }
  }

  // ----- Buckets

  /** The two buckets of a key, in a table of 2^lg buckets. */
  predicate Home(hash1: int -> nat, hash2: int -> nat, lg: nat, key: int, bucket: nat) {
    bucket == hash1(key) % Pow2(lg) || bucket == hash2(key) % Pow2(lg)
  }

  /** Every stored key is in one of its buckets. */
  ghost predicate Homed(hash1: int -> nat, hash2: int -> nat, lg: nat, t: seq<Cell>) {
    forall i :: 0 <= i < |t| && t[i].Full? ==> Home(hash1, hash2, lg, t[i].item.key, i / BUCKET_CELLS)
  }

  ghost predicate BucketFull(t: seq<Cell>, bucket: nat) {
    && (bucket + 1) * BUCKET_CELLS <= |t|
    && forall i :: bucket * BUCKET_CELLS <= i < (bucket + 1) * BUCKET_CELLS ==> t[i].Full?
  }

  /** The position of a cell tells its bucket. */
  lemma BucketOf(bucket: nat, i: nat)
    ensures bucket * BUCKET_CELLS <= i < (bucket + 1) * BUCKET_CELLS <==> i / BUCKET_CELLS == bucket
  {
  }

  /** The cells of a bucket in turn, from an offset. */
  function Cycle(i: nat, offset: nat): (c: nat)
    ensures c < BUCKET_CELLS
  {
    (i + offset) % BUCKET_CELLS
  }

  lemma CycleBack(c: nat, offset: nat) returns (i: nat)
    requires c < BUCKET_CELLS && offset < BUCKET_CELLS
    ensures i < BUCKET_CELLS && Cycle(i, offset) == c
  {
    i := (c + BUCKET_CELLS - offset) % BUCKET_CELLS;
  }

  lemma {:induction false} PrefixCount(t: seq<Cell>, i: nat)
    requires i <= |t|
    ensures |Items(t[..i])| <= |Items(t)|
  {
    if i < |t| {
      PrefixCount(t[..|t| - 1], i);
      assert t[..|t| - 1][..i] == t[..i];
    } else {
      assert t[..i] == t;
    }
  }

  /** A prefix that stores as many items as the whole stores all of them. */
  lemma {:induction false} PrefixAll(t: seq<Cell>, i: nat)
    requires i <= |t| && |Items(t[..i])| == |Items(t)|
    ensures Items(t[..i]) == Items(t)
  {
    if i < |t| {
      PrefixCount(t[..|t| - 1], i);
      assert t[..|t| - 1][..i] == t[..i];
      PrefixAll(t[..|t| - 1], i);
    } else {
      assert t[..i] == t;
    }
  }

  lemma {:induction false} PrefixItems(t: seq<Cell>, i: nat)
    requires i <= |t|
    ensures Items(t[..i]) <= Items(t)
  {
    if i < |t| {
      PrefixItems(t[..|t| - 1], i);
      assert t[..|t| - 1][..i] == t[..i];
    } else {
      assert t[..i] == t;
    }
  }

  lemma DictKeys(m: multiset<Item>)
    requires Unique(m)
    ensures Dict(m).Keys == Keys(m)
  {
  }

  lemma HomedUpdate(hash1: int -> nat, hash2: int -> nat, lg: nat, t: seq<Cell>, i: nat, c: Cell)
    requires Homed(hash1, hash2, lg, t) && i < |t| && (c.Full? ==> Home(hash1, hash2, lg, c.item.key, i / BUCKET_CELLS))
    ensures Homed(hash1, hash2, lg, t[i := c])
  {
  }

  /** Changing a cell changes the number of items. */
  lemma CountUpdate(t: seq<Cell>, i: nat, c: Cell)
    requires i < |t|
    ensures Items(t[i := c]) + One(t[i]) == Items(t) + One(c)
    ensures |Items(t[i := c])| + (if t[i].Full? then 1 else 0) == |Items(t)| + if c.Full? then 1 else 0
    ensures t[i].Full? ==> t[i].item in Items(t)
    ensures t[i].Full? && c == Empty ==> Items(t[i := c]) == Items(t) - multiset{t[i].item}
  {
    ItemsUpdate(t, i, c);
    assert |Items(t[i := c]) + One(t[i])| == |Items(t) + One(c)|;
    if t[i].Full? {
      ItemsIn(t, t[i].item);
      assert Items(t[i := c]) + One(t[i]) - One(t[i]) == Items(t[i := c]);
      assert c == Empty ==> Items(t) + One(c) == Items(t);
    }
  }

  ghost predicate AllFull(t: seq<Cell>) {
    forall i :: 0 <= i < |t| ==> t[i].Full?
  }

  lemma NoneEmpty(t: seq<Cell>)
    requires t == []
    ensures AllFull(t)
  {
  }

  lemma AllFullSplit(t: seq<Cell>)
    requires t != []
    ensures AllFull(t) <==> AllFull(t[..|t| - 1]) && t[|t| - 1].Full?
  {
    var s := t[..|t| - 1];
    if AllFull(s) && t[|t| - 1].Full? {
      forall i | 0 <= i < |t|
        ensures t[i].Full?
      {
        assert i < |s| ==> s[i] == t[i];
      }
    }
  }

  /** No table stores more items than it has cells, and only one without an empty cell stores as many. */
  lemma {:induction false} FullCount(t: seq<Cell>)
    ensures |Items(t)| <= |t| && (|Items(t)| == |t| <==> AllFull(t))
  {
    hide AllFull;
    if t != [] {
      FullCount(t[..|t| - 1]);
      AllFullSplit(t);
    } else {
      assert AllFull(t) by { NoneEmpty(t); }
    }
  }

  /** A full bucket alone stores as many items as it has cells. */
  lemma FullBucketCount(t: seq<Cell>, bucket: nat)
    requires BucketFull(t, bucket)
    ensures BUCKET_CELLS <= |Items(t)|
  {
    hide Items;
    var b := bucket * BUCKET_CELLS;
    ItemsNext(t, b);
    ItemsNext(t, b + 1);
    ItemsNext(t, b + 2);
    ItemsNext(t, b + 3);
    PrefixCount(t, b + 4);
  }

  /** The map has as many keys as there are items. */
  lemma {:induction false} DictSize(m: multiset<Item>)
    requires Unique(m)
    ensures |Dict(m)| == |m|
    decreases |m|
  {
    hide Dict, Unique;
    if m == multiset{} {
      DictNone();
    } else {
      var x :| x in m;
      DictRemove(m, x);
      DictSize(m - multiset{x});
      assert (Dict(m) - {x.key}).Keys == Dict(m).Keys - {x.key};
    }
  }

  lemma DictNone()
    ensures Dict(multiset{}) == map[]
  {
  }

  /** What a failed insertion comes to, on the map. */
  lemma Lost(was: multiset<Item>, arg: Item, x: Item)
    requires Unique(was) && arg.key !in Keys(was) && x in was + multiset{arg} && BUCKET_CELLS <= |was|
    ensures var m, m' := Dict(was), was + multiset{arg} - multiset{x};
      && Unique(m') && CanFail(m, arg.key, x.key) && Dict(m') == FailedInsert(m, arg.key, arg.data, x.key)
      && x.data == m[arg.key := arg.data][x.key] && (Dict(m') == m <==> x.key == arg.key)
      && (x.key != arg.key ==> x.key in m && arg.key in Dict(m'))
  {
    DictKeys(was);
    DictAdd(was, arg);
    DictSize(was);
    DictRemove(was + multiset{arg}, x);
    hide Dict, Unique, Keys;
    GoneKey(Dict(was), arg.key, arg.data, x.key);
  }

  /** If an item has come in under a new key and one item is missing, then the missing one is an older item. */
  lemma OlderGone(was: multiset<Item>, m: multiset<Item>, arg: Item, x: Item)
    requires Unique(was) && arg.key !in Keys(was) && m + multiset{x} == was + multiset{arg} && arg in m
    ensures x in was && x.key != arg.key && m == was - multiset{x} + multiset{arg}
  {
    UniqueAdd(was, arg);
    assert arg !in was;
    assert x in m + multiset{x};
    assert m + multiset{x} - multiset{x} == m;
    assert was + multiset{arg} - multiset{x} == was - multiset{x} + multiset{arg};
  }

  /** A bucket of a table holds an item. */
  ghost predicate InBucket(t: seq<Cell>, bucket: nat, x: Item) {
    exists c :: bucket * BUCKET_CELLS <= c < (bucket + 1) * BUCKET_CELLS && c < |t| && t[c] == Full(x)
  }

  /** A table of one bucket has no other. */
  lemma OneBucket(lg: nat, bucket: nat, other: nat)
    requires bucket < Pow2(lg) && other < Pow2(lg) && bucket != other
    ensures 0 < lg
  {
  }

  lemma BucketFits(lg: nat, bucket: nat)
    requires bucket < Pow2(lg)
    ensures (bucket + 1) * BUCKET_CELLS <= Pow2(lg) * BUCKET_CELLS
  {
  }
}

/** What the random choices of an insertion lead to, from the contents of the table and the state of the generator. */
module CuckooTurns {

  import opened CuckooCells
  import opened CuckooMaps
  import opened Machine

  /** How a loop of evictions, or what contains one, ended; Running: it has not, after so many turns. */
  datatype Outcome = Done | Failed | Running

  /** The generator of prng.h with the constants of ckh.c. */
  ghost function NextRandom(p: nat): (r: nat)
    ensures r < 0x1_0000_0000
  {
    (p * 1103515241 + 12347) % 0x1_0000_0000
  }

  /** A table, the state of the generator, and the item that is to find a place in a bucket. */
  datatype Hand = Hand(t: seq<Cell>, prng: nat, bucket: nat, x: Item)

  /** The item takes the place of a random one of the bucket, and that one looks for a place in its other bucket. */
  ghost function Turn(hash1: int -> nat, hash2: int -> nat, lg: nat, h: Hand): Hand
    requires BucketFull(h.t, h.bucket)
  {
    var p := NextRandom(h.prng);
    var c := h.bucket * BUCKET_CELLS + p / 0x4000_0000;
    var y := h.t[c].item;
    var b := hash2(y.key) % Pow2(lg);
    Hand(h.t[c := Full(h.x)], p, if b == h.bucket then hash1(y.key) % Pow2(lg) else b, y)
  }

  /** How so many turns end: in the bucket where they began, in one with an empty cell, or not at all. */
  ghost function Evictions(hash1: int -> nat, hash2: int -> nat, lg: nat, first: nat, h: Hand, turns: nat): Outcome
    requires BucketFull(h.t, h.bucket)
    decreases turns
  {
    if turns == 0 then Running
    else
      var h' := Turn(hash1, hash2, lg, h);
      if h'.bucket == first then Failed
      else if !BucketFull(h'.t, h'.bucket) then Done
      else Evictions(hash1, hash2, lg, first, h'.(prng := NextRandom(h'.prng)), turns - 1)
  }

  /** Both buckets of a key are full. */
  ghost predicate Crowded(hash1: int -> nat, hash2: int -> nat, lg: nat, t: seq<Cell>, key: int) {
    BucketFull(t, hash1(key) % Pow2(lg)) && BucketFull(t, hash2(key) % Pow2(lg))
  }

  /** How an attempt to insert an item ends. */
  ghost function Attempt(hash1: int -> nat, hash2: int -> nat, lg: nat, t: seq<Cell>, prng: nat, x: Item, turns: nat)
    : Outcome
  {
    if !Crowded(hash1, hash2, lg, t, x.key) then Done
    else
      var b := hash2(x.key) % Pow2(lg);
      Evictions(hash1, hash2, lg, b, Hand(t, NextRandom(NextRandom(prng)), b, x), turns)
  }

  /** Some attempt to insert an item, into a table of this size that stores other ones of these, ends so. */
  ghost predicate SomeEnds(hash1: int -> nat, hash2: int -> nat, lg: nat, all: multiset<Item>, turns: nat, r: Outcome) {
    exists t, p, x :: Attempts(hash1, hash2, lg, all, turns, r, t, p, x)
  }

  ghost predicate Attempts(hash1: int -> nat, hash2: int -> nat, lg: nat, all: multiset<Item>, turns: nat, r: Outcome,
      t: seq<Cell>, p: nat, x: Item) {
    && |t| == Pow2(lg) * BUCKET_CELLS && Items(t) + multiset{x} <= all
    && Attempt(hash1, hash2, lg, t, p, x, turns) == r
  }

  lemma OneEnds(hash1: int -> nat, hash2: int -> nat, lg: nat, t: seq<Cell>, p: nat, x: Item, turns: nat)
    requires |t| == Pow2(lg) * BUCKET_CELLS
    ensures SomeEnds(hash1, hash2, lg, Items(t) + multiset{x}, turns, Attempt(hash1, hash2, lg, t, p, x, turns))
  {
    hide Attempt, Items;
    var r := Attempt(hash1, hash2, lg, t, p, x, turns);
    assert Attempts(hash1, hash2, lg, Items(t) + multiset{x}, turns, r, t, p, x);
  }

  lemma EndsMore(hash1: int -> nat, hash2: int -> nat, lg: nat, all: multiset<Item>, all': multiset<Item>, turns: nat,
      r: Outcome)
    requires SomeEnds(hash1, hash2, lg, all, turns, r) && all <= all'
    ensures SomeEnds(hash1, hash2, lg, all', turns, r)
  {
    hide Attempt, Items;
    var t, p, x :| Attempts(hash1, hash2, lg, all, turns, r, t, p, x);
    assert Attempts(hash1, hash2, lg, all', turns, r, t, p, x);
  }

  /** An attempt fails, or goes on and on, only if there are items enough to fill a bucket beside the one in hand. */
  lemma EndsCrowded(hash1: int -> nat, hash2: int -> nat, lg: nat, all: multiset<Item>, turns: nat, r: Outcome)
    requires SomeEnds(hash1, hash2, lg, all, turns, r) && r != Done
    ensures BUCKET_CELLS < |all|
  {
    hide Items, Evictions;
    var t, p, x :| Attempts(hash1, hash2, lg, all, turns, r, t, p, x);
    FullBucketCount(t, hash1(x.key) % Pow2(lg));
    assert all == Items(t) + multiset{x} + (all - Items(t) - multiset{x});
  }
}

module Cuckoo {
  import opened CuckooCells
  import opened CuckooTurns
  import opened CuckooMaps
  import opened Machine

  /** The numbers 1 to n, each under itself. */
  ghost function Numbered(n: nat): (m: map<int, int>)
    ensures forall k: int :: k in m <==> 1 <= k <= n
  {
    if n == 0 then map[] else Numbered(n - 1)[n := n]
  }

  const CKH_A: nat := 1103515241
  const CKH_C: nat := 12347
  /** No table has more than two to this many buckets. */
  const LG_MAX: nat := 58

  class Ckh {
    const hash1: int -> nat
    const hash2: int -> nat
    const lgMin: nat
    var lgCur: nat
    var count: nat
    var prng: nat
    var tab: array<Cell>

    /** Everything but that keys are stored once. */
    ghost predicate Shape()
      reads this, tab
    {
      && tab.Length == Pow2(lgCur) * BUCKET_CELLS && Homed(hash1, hash2, lgCur, tab[..])
      && count == |Items(tab[..])| && lgCur <= LG_MAX
    }

    ghost predicate Valid()
      reads this, tab
    {
      Shape() && Unique(Items(tab[..])) && lgMin <= lgCur
    }

    /** What is stored, as a map. */
    ghost function Contents(): map<int, int>
      requires Valid()
      reads this, tab
    {
      Dict(Items(tab[..]))
    }

    /** ckh_new */
    constructor (hash1: int -> nat, hash2: int -> nat, lgMin: nat)
      requires lgMin <= LG_MAX
      ensures Valid()
      ensures Contents() == map[] && count == 0 && lgCur == lgMin && fresh(tab) && this.hash1 == hash1
          && this.hash2 == hash2 && this.lgMin == lgMin
      ensures prng == 42
    {
      this.hash1, this.hash2, this.lgMin := hash1, hash2, lgMin;
      lgCur, count, prng := lgMin, 0, 42;
      tab := new Cell[Pow2(lgMin) * BUCKET_CELLS](_ => Empty);
      new;
      ItemsEmpty(tab[..]);
    }

    /** prng32, for a cell of a bucket */
    method Random() returns (r: nat)
      modifies this`prng
      ensures prng == NextRandom(old(prng)) && r == prng / 0x4000_0000 < BUCKET_CELLS
    {
      prng := (prng * CKH_A + CKH_C) % WORD;
      r := prng / (WORD / BUCKET_CELLS);
    }

    /** ckh_bucket_search */
    method BucketSearch(bucket: nat, key: int) returns (found: bool, cell: nat)
      requires (bucket + 1) * BUCKET_CELLS <= tab.Length
      ensures found ==> cell < tab.Length && tab[cell].Full? && tab[cell].item.key == key
      ensures !found
          ==> forall j ::
            bucket * BUCKET_CELLS <= j < (bucket + 1) * BUCKET_CELLS ==> !(tab[j].Full? && tab[j].item.key == key)
    {
      for i := 0 to BUCKET_CELLS
        invariant forall j ::
          bucket * BUCKET_CELLS <= j < bucket * BUCKET_CELLS + i ==> !(tab[j].Full? && tab[j].item.key == key)
      {
        cell := bucket * BUCKET_CELLS + i;
        if tab[cell].Full? && tab[cell].item.key == key {
          return true, cell;
        }
      }
      return false, 0;
    }

    /** ckh_isearch */
    method ISearch(key: int) returns (found: bool, cell: nat)
      requires Shape()
      ensures found ==> cell < tab.Length && tab[cell].Full? && tab[cell].item.key == key
      ensures !found ==> key !in Keys(Items(tab[..]))
    {
      hide Pow2, Items;
      var bucket := hash1(key) % Pow2(lgCur);
      BucketFits(lgCur, bucket);
      found, cell := BucketSearch(bucket, key);
      if found {
        return;
      }
      var bucket2 := hash2(key) % Pow2(lgCur);
      BucketFits(lgCur, bucket2);
      found, cell := BucketSearch(bucket2, key);
      if !found {
        forall x | x in Items(tab[..])
          ensures x.key != key
        {
          ItemsIn(tab[..], x);
          var i :| 0 <= i < tab.Length && tab[..][i] == Full(x);
          assert Home(hash1, hash2, lgCur, x.key, i / BUCKET_CELLS);
          BucketOf(bucket, i);
          BucketOf(bucket2, i);
        }
      }
    }

    /** ckh_search */
    method Search(key: int) returns (missing: bool, data: int)
      requires Valid()
      ensures missing <==> key !in Contents()
      ensures !missing ==> data == Contents()[key]
    {
      var found, cell := ISearch(key);
      missing, data := true, 0;
      DictKeys(Items(tab[..]));
      if found {
        missing, data := false, tab[cell].item.data;
        assert tab[..][cell] == tab[cell];
        ItemsIn(tab[..], tab[cell].item);
        DictRemove(Items(tab[..]), tab[cell].item);
      }
    }

    /** Put an item into an empty cell of one of its buckets. */
    method Put(cell: nat, x: Item)
      requires Shape() && cell < tab.Length && tab[cell] == Empty
      requires Home(hash1, hash2, lgCur, x.key, cell / BUCKET_CELLS)
      modifies this`count, tab
      ensures Shape() && Items(tab[..]) == old(Items(tab[..])) + multiset{x} && tab[..] == old(tab[..])[cell := Full(x)]
    {
      hide Pow2, Items, Home;
      CountUpdate(tab[..], cell, Full(x));
      HomedUpdate(hash1, hash2, lgCur, tab[..], cell, Full(x));
      tab[cell] := Full(x);
      count := count + 1;
      assert tab[..] == old(tab[..])[cell := Full(x)];
    }

    /** ckh_try_bucket_insert */
    method TryBucketInsert(bucket: nat, x: Item) returns (full: bool)
      requires Shape() && bucket < Pow2(lgCur) && Home(hash1, hash2, lgCur, x.key, bucket)
      modifies this`prng, this`count, tab
      ensures Shape() && (full <==> old(BucketFull(tab[..], bucket))) && (full ==> tab[..] == old(tab[..]))
      ensures !full ==> Items(tab[..]) == old(Items(tab[..])) + multiset{x}
      ensures forall c :: 0 <= c < tab.Length && old(tab[c]).Full? ==> tab[c] == old(tab[c])
      ensures prng == NextRandom(old(prng))
    {
      hide Pow2, Items, Home, Homed, NextRandom;
      BucketFits(lgCur, bucket);
      var offset := Random();
      for i := 0 to BUCKET_CELLS
        invariant tab[..] == old(tab[..]) && count == old(count) && prng == NextRandom(old(prng))
        invariant forall j :: 0 <= j < i ==> tab[bucket * BUCKET_CELLS + Cycle(j, offset)].Full?
      {
        var cell := bucket * BUCKET_CELLS + Cycle(i, offset);
        BucketOf(bucket, cell);
        if tab[cell] == Empty {
          Put(cell, x);
          return false;
        }
      }
      forall i | bucket * BUCKET_CELLS <= i < (bucket + 1) * BUCKET_CELLS
        ensures tab[i].Full?
      {
        var j := CycleBack(i - bucket * BUCKET_CELLS, offset);
        assert tab[bucket * BUCKET_CELLS + Cycle(j, offset)].Full?;
      }
      return true;
    }

    /** The table and the item in hand together hold what they held before. */
    ghost predicate Conserved(was: multiset<Item>, x: Item)
      reads this, tab
    {
      Items(tab[..]) + multiset{x} == was
    }

    /** ckh_evict_reloc_insert, for as many turns as there is fuel; an item that found no place is given back. */
    method EvictRelocInsert(argBucket: nat, arg: Item, fuel: nat) returns (r: Outcome, x: Item)
      requires Shape() && argBucket < Pow2(lgCur)
      requires Home(hash1, hash2, lgCur, arg.key, argBucket) && BucketFull(tab[..], argBucket)
      modifies this`prng, this`count, tab
      ensures Shape()
      ensures r == Done ==> Items(tab[..]) == old(Items(tab[..])) + multiset{arg}
      ensures r != Done ==> Conserved(old(Items(tab[..])) + multiset{arg}, x)
      ensures r == Failed ==> InBucket(tab[..], argBucket, arg)
      ensures lgCur == 0 && 0 < fuel ==> r != Running
      ensures r == Evictions(hash1, hash2, lgCur, argBucket, Hand(old(tab[..]), old(prng), argBucket, arg), fuel)
    {
      hide Pow2, Items, Home, Homed, BucketFull, Turn, NextRandom;
      var bucket: nat := argBucket;
      x := arg;
      ghost var was, at: nat := Items(tab[..]) + multiset{arg}, 0;
      for step := 0 to fuel
        invariant Shape() && bucket < Pow2(lgCur)
        invariant Home(hash1, hash2, lgCur, x.key, bucket) && BucketFull(tab[..], bucket)
        invariant Conserved(was, x)
        invariant if step == 0 then bucket == argBucket && x == arg else bucket != argBucket && 0 < lgCur
        invariant 0 < step ==> at < tab.Length && at / BUCKET_CELLS == argBucket && tab[at] == Full(arg)
        invariant Evictions(hash1, hash2, lgCur, argBucket, Hand(old(tab[..]), old(prng), argBucket, arg), fuel)
            == Evictions(hash1, hash2, lgCur, argBucket, Hand(tab[..], prng, bucket, x), fuel - step)
      {
        ghost var cell;
        bucket, x, cell := Evict(bucket, x, was);
        at := if step == 0 then cell else at;
        BucketOf(argBucket, at);
        assert InBucket(tab[..], argBucket, arg);
        if bucket == argBucket {
          return Failed, x;
        }
        OneBucket(lgCur, bucket, argBucket);
        var full := TryBucketInsert(bucket, x);
        if !full {
          return Done, x;
        }
      }
      return Running, x;
    }

    /** Exchange the item in hand for a random one of the bucket, and find the bucket to which that one can move. */
    method Evict(bucket: nat, x: Item, ghost was: multiset<Item>) returns (tbucket: nat, y: Item, ghost cell: nat)
      requires Shape() && bucket < Pow2(lgCur)
      requires Home(hash1, hash2, lgCur, x.key, bucket) && BucketFull(tab[..], bucket)
      requires Conserved(was, x)
      modifies this`prng, tab
      ensures Shape() && tbucket < Pow2(lgCur) && Home(hash1, hash2, lgCur, y.key, tbucket) && Conserved(was, y)
      ensures cell < tab.Length && cell / BUCKET_CELLS == bucket && tab[cell] == Full(x)
      ensures forall c :: 0 <= c < tab.Length && c != cell ==> tab[c] == old(tab[c])
      ensures Turn(hash1, hash2, lgCur, Hand(old(tab[..]), old(prng), bucket, x)) == Hand(tab[..], prng, tbucket, y)
    {
      hide Pow2, Items, NextRandom;
      var i := Random();
      var c := bucket * BUCKET_CELLS + i;
      cell := c;
      BucketOf(bucket, c);
      assert tab[..][c].Full?;
      CountUpdate(tab[..], c, Full(x));
      HomedUpdate(hash1, hash2, lgCur, tab[..], c, Full(x));
      y := tab[c].item;
      tab[c] := Full(x);
      assert tab[..] == old(tab[..])[cell := Full(x)];
      tbucket := hash2(y.key) % Pow2(lgCur);
      if tbucket == bucket {
        tbucket := hash1(y.key) % Pow2(lgCur);
      }
    }

    /** Both buckets of a key are full. */
    ghost predicate HomesFull(key: int)
      reads this, tab
    {
      BucketFull(tab[..], hash1(key) % Pow2(lgCur)) && BucketFull(tab[..], hash2(key) % Pow2(lgCur))
    }

    /** An item has a new key. */
    ghost predicate Fresh(x: Item)
      reads this, tab
    {
      Unique(Items(tab[..])) && x.key !in Keys(Items(tab[..]))
    }

    /**
     ckh_try_insert; if an item whose key is new finds no place, it is in the table all the same, for an older one.
     */
    method TryInsert(arg: Item, fuel: nat) returns (r: Outcome, x: Item)
      requires Shape()
      modifies this`prng, this`count, tab
      ensures Shape()
      ensures r == Done ==> Items(tab[..]) == old(Items(tab[..])) + multiset{arg}
      ensures r != Done ==> Conserved(old(Items(tab[..])) + multiset{arg}, x) && old(HomesFull(arg.key))
      ensures r != Done ==> BUCKET_CELLS <= |old(Items(tab[..]))|
      ensures r == Failed ==> arg in Items(tab[..])
      ensures r == Failed && old(Fresh(arg)) ==> x in old(Items(tab[..])) && x.key != arg.key
      ensures lgCur == 0 && 0 < fuel ==> r != Running
      ensures r == Attempt(hash1, hash2, lgCur, old(tab[..]), old(prng), arg, fuel)
      ensures SomeEnds(hash1, hash2, lgCur, old(Items(tab[..])) + multiset{arg}, fuel, r)
    {
      hide Pow2, Items, Homed, BucketFull, NextRandom, Evictions, SomeEnds, Attempts;
      OneEnds(hash1, hash2, lgCur, tab[..], prng, arg, fuel);
      ghost var was := Items(tab[..]);
      x := arg;
      var bucket := hash1(x.key) % Pow2(lgCur);
      var full := TryBucketInsert(bucket, x);
      if !full {
        return Done, x;
      }
      bucket := hash2(x.key) % Pow2(lgCur);
      full := TryBucketInsert(bucket, x);
      if !full {
        return Done, x;
      }
      FullBucketCount(tab[..], bucket);
      r, x := EvictRelocInsert(bucket, x, fuel);
      ItemsIn(tab[..], arg);
      if r == Failed && old(Fresh(arg)) {
        OlderGone(was, Items(tab[..]), arg, x);
      }
    }

    /** ckh_rebuild: insert all items of the old table into the new one. */
    method Rebuild(aTab: array<Cell>, fuel: nat) returns (r: Outcome)
      requires aTab != tab && tab.Length == Pow2(lgCur) * BUCKET_CELLS
      requires lgCur <= LG_MAX && Items(tab[..]) == multiset{}
      requires Homed(hash1, hash2, lgCur, tab[..]) && count == |Items(aTab[..])|
      modifies this`prng, this`count, tab
      ensures r == Done ==> Shape() && Items(tab[..]) == Items(aTab[..])
      ensures r == Failed ==> count == old(count)
      ensures r != Done ==> SomeEnds(hash1, hash2, lgCur, Items(aTab[..]), fuel, r) && Items(tab[..]) <= Items(aTab[..])
    {
      hide Pow2, Items, Homed, BucketFull, Home, Attempt, SomeEnds;
      var total := count;
      count := 0;
      var i, nins := 0, 0;
      assert aTab[..0] == [] && Items(aTab[..0]) == multiset{} by {
        ItemsEmpty(aTab[..0]);
      }
      while nins < total
        invariant i <= aTab.Length && aTab[..] == old(aTab[..]) && total == |Items(aTab[..])|
        invariant Shape() && Items(tab[..]) == Items(aTab[..i]) && nins == |Items(aTab[..i])| && nins <= total
        decreases aTab.Length - i
      {
        // Items are left, so the scan has not reached the end of the table.
        assert aTab[..aTab.Length] == aTab[..];
        ItemsNext(aTab[..], i);
        assert aTab[..][..i] == aTab[..i] && aTab[..][..i + 1] == aTab[..i + 1];
        PrefixCount(aTab[..], i + 1);
        if aTab[i].Full? {
          PrefixItems(aTab[..], i + 1);
          ghost var now := Items(aTab[..i + 1]);
          var x;
          r, x := TryInsert(aTab[i].item, fuel);
          EndsMore(hash1, hash2, lgCur, now, Items(aTab[..]), fuel, r);
          if r == Failed {
            count := total;
            return;
          } else if r == Running {
            return;
          }
          nins := nins + 1;
        }
        i := i + 1;
      }
      PrefixAll(aTab[..], i);
      assert aTab[..][..i] == aTab[..i];
      return Done;
    }

    /** ckh_grow: double the table until a rebuild succeeds; memory is there for so many tables. */
    method Grow(memory: nat, fuel: nat, ghost all: multiset<Item>) returns (r: Outcome, left: nat)
      requires Shape() && Items(tab[..]) <= all
      modifies this, tab
      ensures r != Running ==> Shape() && Items(tab[..]) == old(Items(tab[..])) && fresh({tab} - {old(tab)})
      ensures r == Failed ==> tab == old(tab) && tab[..] == old(tab[..]) && lgCur == old(lgCur)
      ensures r != Failed ==> old(lgCur) < lgCur <= LG_MAX && memory - left == lgCur - old(lgCur) && left <= memory
      ensures r == Failed ==> left == 0 || memory - left == LG_MAX - lgCur
      ensures memory == 0 ==> r == Failed
      ensures forall l ::
        old(lgCur) < l <= LG_MAX && l <= old(lgCur) + memory && (r != Failed ==> l < lgCur) ==>
          SomeEnds(hash1, hash2, l, all, fuel, Failed)
      ensures r == Running ==> SomeEnds(hash1, hash2, lgCur, all, fuel, Running)
    {
      hide Pow2, Items, Homed, BucketFull, Home, SomeEnds;
      var lgPrev, lg := lgCur, lgCur;
      left := memory;
      while true
        invariant tab == old(tab) && tab[..] == old(tab[..]) && Shape()
        invariant lgCur == lgPrev == old(lgCur) && lgCur <= lg <= LG_MAX
        invariant left <= memory && memory - left == lg - lgPrev
        invariant forall l :: lgPrev < l <= lg ==> SomeEnds(hash1, hash2, l, all, fuel, Failed)
        decreases LG_MAX - lg
      {
        lg := lg + 1;
        if left == 0 || lg > LG_MAX {
          return Failed, left;
        }
        left := left - 1;
        ghost var items := Items(tab[..]);
        r := Resize(lg, fuel);
        if r != Done {
          EndsMore(hash1, hash2, lg, items, all, fuel, r);
        }
        if r != Failed {
          return;
        }
      }
    }

    /** Move everything to a new table of another size; if that fails put the old table back. */
    method Resize(lg: nat, fuel: nat) returns (r: Outcome)
      requires Shape() && lg <= LG_MAX
      modifies this, tab
      ensures r != Running ==> Shape() && Items(tab[..]) == old(Items(tab[..]))
      ensures r == Done ==> lgCur == lg && fresh(tab)
      ensures r == Failed ==> tab == old(tab) && tab[..] == old(tab[..]) && lgCur == old(lgCur)
      ensures r != Done ==> SomeEnds(hash1, hash2, lg, old(Items(tab[..])), fuel, r)
      ensures r == Running ==> Items(tab[..]) <= old(Items(tab[..])) && lgCur == lg
    {
      hide Pow2, Items, BucketFull, Home, SomeEnds;
      var ttab, lgPrev := tab, lgCur;
      tab := new Cell[Pow2(lg) * BUCKET_CELLS](_ => Empty);
      lgCur := lg;
      ItemsEmpty(tab[..]);
      r := Rebuild(ttab, fuel);
      if r == Failed {
        tab, lgCur := ttab, lgPrev;
      }
    }

    /** ckh_shrink: the table is halved, unless there is no memory or the items do not find their places in half. */
    method Shrink(oom: bool, fuel: nat) returns (r: Outcome)
      requires Shape() && 0 < lgCur
      modifies this, tab
      ensures r != Running ==> Shape() && Items(tab[..]) == old(Items(tab[..])) && fresh({tab} - {old(tab)})
      ensures oom ==> r == Failed
      ensures r == Done ==> lgCur == old(lgCur) - 1
      ensures r == Failed ==> tab == old(tab) && tab[..] == old(tab[..]) && lgCur == old(lgCur)
      ensures r != Done && !oom ==> SomeEnds(hash1, hash2, old(lgCur) - 1, old(Items(tab[..])), fuel, r)
      ensures r == Running ==> Items(tab[..]) <= old(Items(tab[..]))
    {
      hide Items, Homed, SomeEnds;
      if oom {
        return Failed;
      }
      r := Resize(lgCur - 1, fuel);
    }

    /**
     ckh_insert, with memory for so many tables.  It fails only if both buckets of the key were full, and then one item
     is lost: the one in hand when memory ran out.  If no growth has succeeded before, the new item is in the table
     and an older one is lost.
     */
    method Insert(arg: Item, memory: nat, fuel: nat) returns (r: Outcome, x: Item)
      requires Valid() && arg.key !in Contents()
      modifies this, tab
      ensures r != Running
          ==> Valid() && fresh({tab} - {old(tab)}) && old(lgCur) <= lgCur && (memory == 0 ==> lgCur == old(lgCur))
      ensures r == Done ==> Contents() == old(Contents())[arg.key := arg.data] && count == old(count) + 1
      ensures r == Failed
          ==> CanFail(old(Contents()), arg.key, x.key)
              && Contents() == FailedInsert(old(Contents()), arg.key, arg.data, x.key)
              && x.data == old(Contents())[arg.key := arg.data][x.key]
      ensures r == Failed ==> (Contents() == old(Contents()) <==> x.key == arg.key)
      ensures r == Failed && lgCur == old(lgCur) ==> arg.key in Contents() && x.key in old(Contents())
      ensures r != Done ==> old(HomesFull(arg.key))
      ensures memory == 0 && old(count) == old(tab.Length) ==> r != Done
      ensures old(lgCur) == 0 && memory == 0 && 0 < fuel ==> r != Running
      // It gives up only when every larger table there is memory for has been tried in vain, and runs on only when an
      // attempt does.
      ensures r == Failed
          ==> forall l ::
            lgCur < l <= LG_MAX && l <= old(lgCur) + memory ==>
              SomeEnds(hash1, hash2, l, old(Items(tab[..])) + multiset{arg}, fuel, Failed)
      ensures r == Running
          ==> exists l ::
            && old(lgCur) <= l <= old(lgCur) + memory
            && SomeEnds(hash1, hash2, l, old(Items(tab[..])) + multiset{arg}, fuel, Running)
      // The table grows only if the first attempt fails, and not beyond the first size in which none does.
      ensures var first := Attempt(hash1, hash2, old(lgCur), old(tab[..]), old(prng), arg, fuel);
        first == Failed || (r == first && tab == old(tab) && lgCur == old(lgCur))
      ensures r != Running
          ==> forall l ::
            old(lgCur) <= l < lgCur ==> SomeEnds(hash1, hash2, l, old(Items(tab[..])) + multiset{arg}, fuel, Failed)
    {
      hide Pow2, Items, Homed, BucketFull, HomesFull, Home, Unique, Dict, Keys, AllFull, CanFail;
      hide FailedInsert, SomeEnds, Attempt, Crowded;
      ghost var was, all := Items(tab[..]), Items(tab[..]) + multiset{arg};
      DictKeys(was);
      DictAdd(was, arg);
      r, x := TryInsert(arg, fuel);
      FullCount(tab[..]);
      var rest: nat := memory;
      ghost var lg, first := lgCur, r;
      while r == Failed
        invariant old(lgCur) == 0 && memory == 0 && 0 < fuel ==> r != Running
        invariant r != Done ==> old(HomesFull(arg.key)) && BUCKET_CELLS <= |was|
        invariant memory == 0 && old(count) == old(tab.Length) ==> r != Done
        invariant r != Running
            ==> Shape() && fresh({tab} - {old(tab)}) && lgMin <= lgCur && old(lgCur) <= lgCur && rest <= memory
        invariant if r == Done then Items(tab[..]) == all else r == Failed ==> Conserved(all, x)
        invariant r == Failed && lgCur == old(lgCur) ==> x.key != arg.key
        invariant r != Running && memory == 0 ==> lgCur == old(lgCur)
        invariant r != Running ==> rest == memory - (lgCur - old(lgCur))
        invariant old(lgCur) <= lg <= old(lgCur) + memory
        invariant r == Running ==> SomeEnds(hash1, hash2, lg, all, fuel, Running)
        invariant first == Failed || (r == first && tab == old(tab) && lgCur == old(lgCur))
        invariant r != Running
            ==> forall l ::
              old(lgCur) <= l < lgCur || (l == lgCur && r == Failed) ==> SomeEnds(hash1, hash2, l, all, fuel, Failed)
        decreases r == Failed, LG_MAX - lgCur
      {
        AllBut(Items(tab[..]), all, x);
        r, rest := Grow(rest, fuel, all);
        lg := lgCur;
        if r == Failed {
          Lost(was, arg, x);
          return;
        } else if r == Done {
          r, x := TryInsert(x, fuel);
        }
      }
    }

    /** A table of one bucket that has an empty cell takes an item, whatever the memory. */
    method InsertOne(arg: Item, fuel: nat)
      requires Valid() && arg.key !in Contents() && lgCur == 0 && count < BUCKET_CELLS
      modifies this, tab
      ensures Valid() && fresh({tab} - {old(tab)}) && lgCur == 0 && count == old(count) + 1
      ensures Contents() == old(Contents())[arg.key := arg.data]
    {
      hide Items, Homed, Home, Unique, Dict, Keys;
      var was := tab[..];
      FullCount(was);
      var r, x := Insert(arg, 0, fuel);
      if r != Done {
        assert false;
      }
    }

    /** Four items fill a table of one bucket; without memory a fifth one is taken and an older one is lost. */
    static method FifthItem(fuel: nat) returns (t: Ckh, lost: Item)
      requires 0 < fuel
      ensures t.Valid() && 1 <= lost.key <= 4 && t.Contents() == Numbered(5) - {lost.key}
    {
      hide Items, Homed, Home, Unique, Dict, Keys;
      t := new Ckh(_ => 0, _ => 0, 0);
      for i := 0 to BUCKET_CELLS
        invariant t.Valid() && fresh(t) && fresh(t.tab) && t.lgCur == 0 && t.count == i && t.Contents() == Numbered(i)
      {
        t.InsertOne(Item(i + 1, i + 1), fuel);
      }
      var r;
      r, lost := t.Insert(Item(5, 5), 0, fuel);
    }

    /** ckh_remove */
    method Remove(key: int, oom: bool, fuel: nat) returns (missing: bool, x: Item, running: bool)
      requires Valid()
      modifies this, tab
      ensures missing <==> key !in old(Contents())
      ensures !running ==> Valid() && fresh({tab} - {old(tab)})
      ensures missing ==> !running && Contents() == old(Contents())
      ensures !missing ==> x == Item(key, old(Contents())[key])
      ensures !missing && !running ==> Contents() == old(Contents()) - {key}
      // While a rebuild runs on, the table holds some of the other items; it runs on only when an attempt does.
      ensures running
          ==> Items(tab[..]) <= old(Items(tab[..])) - multiset{x} && key !in Keys(Items(tab[..]))
              && lgMin < old(lgCur)
              && SomeEnds(hash1, hash2, old(lgCur) - 1, old(Items(tab[..])) - multiset{x}, fuel, Running)
      ensures !running && lgCur != old(lgCur) ==> !missing && lgCur == old(lgCur) - 1
      // It tries to shrink only when less than a quarter of the cells are in use.
      ensures running || lgCur != old(lgCur) ==> 4 * (old(count) - 1) < old(tab.Length) && lgMin < old(lgCur) && !oom
      ensures !running && lgCur == old(lgCur) ==> tab.Length == old(tab.Length)
      ensures !missing && !running && count < Pow2(old(lgCur)) && lgMin < old(lgCur) && !oom
          ==> lgCur == old(lgCur) - 1
              || SomeEnds(hash1, hash2, old(lgCur) - 1, old(Items(tab[..])) - multiset{x}, fuel, Failed)
    {
      hide Pow2, Items, Homed, Home, Unique, Dict, SomeEnds, Keys, BucketFull, HomesFull;
      x, running := Item(key, 0), false;
      var found, cell := ISearch(key);
      if !found {
        DictKeys(Items(tab[..]));
        return true, x, false;
      }
      x := tab[cell].item;
      assert tab[..][cell] == Full(x);
      ItemsIn(tab[..], x);
      DictRemove(Items(tab[..]), x);
      Clear(cell);
      missing := false;
      if count < Pow2(lgCur + LG_BUCKET_CELLS - 2) && lgCur > lgMin {
        assert 4 * (old(count) - 1) < old(tab.Length);
        var r := Shrink(oom, fuel);
        running := r == Running;
        if running {
          NotAmong(old(Items(tab[..])), Items(tab[..]), x);
        }
      }
    }

    method Clear(cell: nat)
      requires Shape() && cell < tab.Length && tab[cell].Full?
      modifies this`count, tab
      ensures Shape() && Items(tab[..]) == old(Items(tab[..])) - multiset{old(tab[cell].item)}
      ensures count == old(count) - 1
    {
      hide Pow2, Items, Home;
      CountUpdate(tab[..], cell, Empty);
      HomedUpdate(hash1, hash2, lgCur, tab[..], cell, Empty);
      tab[cell] := Empty;
      count := count - 1;
      assert tab[..] == old(tab[..])[cell := Empty];
    }
  }
}
