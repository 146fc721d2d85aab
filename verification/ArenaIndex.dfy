/**
 The indexes an arena keeps over its chunks (arena.c): the free runs by size and address, and the chunks
 with dirty pages by fragmentation.  An element carries the key it was inserted under; a search tree only
 finds it again while the key still equals the fields it was computed from.
 */
module ArenaIndex {
  import opened ArenaRuns

  /** An element of runs_avail: the map element of page pageind of the chunk at addr, keyed by size in pages. */
  datatype Elm = Elm(addr: nat, pageind: nat, size: nat)

  /** An element of chunks_dirty. */
  datatype DirtyElm = DirtyElm(addr: nat, avail: int, adjac: int)

  // ----- Order of chunks_dirty

  /** Chunks are in chunks_dirty only with a free run, so adjacencies are fewer than free runs. */
  ghost predicate Fragment(x: DirtyElm) {
    0 <= x.adjac < x.avail
  }

  /** arena_chunk_dirty_comp */
  function DirtyComp(x: DirtyElm, y: DirtyElm): int {
    var xVal, yVal := (x.avail - x.adjac) * y.avail, (y.avail - y.adjac) * x.avail;
    if xVal < yVal then 1
    else if xVal > yVal then -1
    else
      var ret := if x.addr > y.addr then 1 else if x.addr < y.addr then -1 else 0;
      if x.adjac == 0 then -ret else ret
  }

  lemma SameRatio(x: DirtyElm, y: DirtyElm)
    requires Fragment(x) && Fragment(y) && (x.avail - x.adjac) * y.avail == (y.avail - y.adjac) * x.avail
    ensures x.adjac == 0 <==> y.adjac == 0
  {
    assert x.adjac * y.avail == y.adjac * x.avail;
  }

  /** The assertion in the comparison holds, and exchanging the arguments negates it. */
  lemma DirtyCompAntisymmetric(x: DirtyElm, y: DirtyElm)
    requires Fragment(x) && Fragment(y)
    ensures DirtyComp(x, y) == -DirtyComp(y, x)
    ensures DirtyComp(x, y) == 0 ==> x.addr == y.addr
  {
    if (x.avail - x.adjac) * y.avail == (y.avail - y.adjac) * x.avail {
      SameRatio(x, y);
    }
  }

  lemma NegativeFactor(q: int, d: int)
    requires 0 < q && d < 0
    ensures q * d < 0
  {
  }

  /** Cross-multiplied fractions a/p <= b/q <= c/r, compared without dividing. */
  lemma CrossMultiply(a: nat, p: nat, b: nat, q: nat, c: nat, r: nat)
    requires 0 < p && 0 < q && 0 < r
    requires a * q >= b * p && b * r >= c * q
    ensures a * r >= c * p
    ensures a * r == c * p ==> a * q == b * p && b * r == c * q
  {
    var d1, d2 := a * q - b * p, b * r - c * q;
    assert q * (a * r - c * p) == r * d1 + p * d2 by {
      assert q * (a * r) == r * (a * q) && q * (c * p) == p * (c * q) && r * (b * p) == p * (b * r);
      assert r * d1 == r * (a * q) - r * (b * p) && p * d2 == p * (b * r) - p * (c * q);
    }
    assert r * d1 >= 0 && p * d2 >= 0;
    if a * r < c * p {
      NegativeFactor(q, a * r - c * p);
      assert false;
    }
    if a * r == c * p {
      assert q * (a * r - c * p) == 0;
      assert r * d1 == 0 && p * d2 == 0;
    }
  }

  /** With antisymmetry: arena_chunk_dirty_comp is a strict total order of the chunks that can be compared. */
  lemma DirtyCompTransitive(x: DirtyElm, y: DirtyElm, z: DirtyElm)
    requires Fragment(x) && Fragment(y) && Fragment(z) && DirtyComp(x, y) < 0 && DirtyComp(y, z) < 0
    ensures DirtyComp(x, z) < 0
  {
    CrossMultiply(x.avail - x.adjac, x.avail, y.avail - y.adjac, y.avail, z.avail - z.adjac, z.avail);
    if (x.avail - x.adjac) * z.avail == (z.avail - z.adjac) * x.avail {
      SameRatio(x, y);
      SameRatio(y, z);
    }
  }

  /** Mean size of an available run over the mean size it would have if adjacent runs were joined. */
  ghost function Ratio(x: DirtyElm): real
    requires Fragment(x)
  {
    (x.avail - x.adjac) as real / x.avail as real
  }

  lemma RatioOrder(a: nat, p: nat, b: nat, q: nat)
    requires 0 < p && 0 < q
    ensures a as real / p as real > b as real / q as real <==> a * q > b * p
    ensures a as real / p as real == b as real / q as real <==> a * q == b * p
  {
    var x, y := a as real / p as real, b as real / q as real;
    assert x * p as real == a as real && y * q as real == b as real;
    var d := p as real * q as real;
    assert 0.0 < d;
    assert (a * q) as real == x * d by {
      assert (a * q) as real == a as real * q as real;
    }
    assert (b * p) as real == y * d by {
      assert (b * p) as real == b as real * p as real;
    }
    RealFactor(x, y, d);
  }

  lemma RealFactor(x: real, y: real, d: real)
    requires 0.0 < d
    ensures (x > y <==> x * d > y * d) && (x == y <==> x * d == y * d)
  {
    if x > y {
      assert (x - y) * d > 0.0;
    } else if x < y {
      assert (y - x) * d > 0.0;
    }
  }

  /**
   Without dividing: chunks of a greater ratio come first; of equal ones, those with adjacencies by address, others
   against it.
   */
  lemma DirtyOrder(x: DirtyElm, y: DirtyElm)
    requires Fragment(x) && Fragment(y)
    ensures DirtyComp(x, y) < 0 <==>
      Ratio(x) > Ratio(y) || (Ratio(x) == Ratio(y) && if x.adjac == 0 then x.addr > y.addr else x.addr < y.addr)
  {
    RatioOrder(x.avail - x.adjac, x.avail, y.avail - y.adjac, y.avail);
  }

  lemma RatioOne(x: DirtyElm)
    requires Fragment(x)
    ensures if x.adjac == 0 then Ratio(x) == 1.0 else Ratio(x) < 1.0
  {
    RatioOrder(1, 1, x.avail - x.adjac, x.avail);
  }

  /** A chunk without adjacencies has the ratio 1, the greatest there is, and comes before those with some. */
  lemma FragmentedLast(x: DirtyElm, y: DirtyElm)
    requires Fragment(x) && Fragment(y) && x.adjac == 0 < y.adjac
    ensures DirtyComp(x, y) < 0 && Ratio(x) == 1.0 && Ratio(y) < 1.0
  {
    RatioOne(x);
    RatioOne(y);
    hide Ratio, DirtyComp;
    DirtyOrder(x, y);
  }

  ghost predicate OnePerChunk(s: set<DirtyElm>) {
    forall x, y :: x in s && y in s && x.addr == y.addr ==> x == y
  }

  /** The first of a finite, non-empty index. */
  lemma {:induction false} DirtyMin(s: set<DirtyElm>) returns (m: DirtyElm)
    requires s != {} && (forall x :: x in s ==> Fragment(x)) && OnePerChunk(s)
    ensures m in s && forall x :: x in s ==> DirtyComp(m, x) <= 0
  {
    var y :| y in s;
    if s == {y} {
      m := y;
      DirtyCompAntisymmetric(y, y);
    } else {
      m := DirtyMin(s - {y});
      DirtyCompAntisymmetric(m, y);
      if DirtyComp(y, m) < 0 {
        forall x | x in s
          ensures DirtyComp(y, x) <= 0
        {
          DirtyCompAntisymmetric(y, x);
          DirtyCompAntisymmetric(m, x);
          if x != y && x != m {
            DirtyCompTransitive(y, m, x);
          }
        }
        m := y;
      }
    }
  }

  // ----- Order of runs_avail

  /** arena_avail_comp between two elements: size first, then address of the map element. */
  predicate AvailLess(x: Elm, y: Elm) {
    x.size < y.size || (x.size == y.size && (x.addr < y.addr || (x.addr == y.addr && x.pageind < y.pageind)))
  }

  /** The lowest best fit: the first element of at least the given size (nsearch with a key below all of that size). */
  ghost predicate BestFit(s: set<Elm>, size: nat, e: Elm) {
    e in s && size <= e.size && forall x :: x in s && size <= x.size ==> x == e || AvailLess(e, x)
  }

  lemma {:induction false} BestFitExists(s: set<Elm>, size: nat) returns (e: Elm)
    requires exists x :: x in s && size <= x.size
    ensures BestFit(s, size, e)
  {
    var y :| y in s && size <= y.size;
    if x :| x in s - {y} && size <= x.size {
      var m := BestFitExists(s - {y}, size);
      e := if AvailLess(y, m) then y else m;
    } else {
      e := y;
    }
  }

  // ----- Sums over chunks

  ghost function Sum(m: map<nat, int>): int {
    if m == map[] then 0
    else
      var k :| k in m;
      m[k] + Sum(m - {k})
  }

  lemma {:induction false} SumRemove(m: map<nat, int>, k: nat)
    requires k in m
    ensures Sum(m) == m[k] + Sum(m - {k})
  {
    var k0 :| k0 in m && Sum(m) == m[k0] + Sum(m - {k0});
    if k0 != k {
      SumRemove(m - {k0}, k);
      SumRemove(m - {k}, k0);
      assert m - {k0} - {k} == m - {k} - {k0};
    }
  }

  lemma SumUpdate(m: map<nat, int>, k: nat, v: int)
    ensures Sum(m[k := v]) == Sum(m) - (if k in m then m[k] else 0) + v
  {
    SumRemove(m[k := v], k);
    assert m[k := v] - {k} == m - {k};
    if k in m {
      SumRemove(m, k);
    } else {
      assert m - {k} == m;
    }
  }

  lemma {:induction false} SumNonNegative(m: map<nat, int>)
    requires forall k :: k in m ==> 0 <= m[k]
    ensures 0 <= Sum(m)
    ensures (forall k :: k in m ==> m[k] == 0) ==> Sum(m) == 0
  {
    if m != map[] {
      var k :| k in m && Sum(m) == m[k] + Sum(m - {k});
      SumNonNegative(m - {k});
    }
  }

  ghost function DirtyMap(chunks: map<nat, Chunk>): map<nat, int> {
    map a | a in chunks :: chunks[a].ndirty
  }

  ghost function ActiveMap(runs: map<nat, seq<Run>>): map<nat, int> {
    map a | a in runs :: NActive(runs[a])
  }

  /** What arena->ndirty counts. */
  ghost function DirtyPages(chunks: map<nat, Chunk>): int {
    Sum(DirtyMap(chunks))
  }

  /** What arena->nactive counts. */
  ghost function ActivePages(runs: map<nat, seq<Run>>): int {
    Sum(ActiveMap(runs))
  }

  lemma DirtyPagesUpdate(chunks: map<nat, Chunk>, a: nat, c: Chunk)
    ensures DirtyPages(chunks[a := c]) == DirtyPages(chunks) - (if a in chunks then chunks[a].ndirty else 0) + c.ndirty
  {
    assert DirtyMap(chunks[a := c]) == DirtyMap(chunks)[a := c.ndirty];
    SumUpdate(DirtyMap(chunks), a, c.ndirty);
  }

  lemma DirtyPagesRemove(chunks: map<nat, Chunk>, a: nat)
    requires a in chunks
    ensures DirtyPages(chunks - {a}) == DirtyPages(chunks) - chunks[a].ndirty
  {
    assert DirtyMap(chunks - {a}) == DirtyMap(chunks) - {a};
    SumRemove(DirtyMap(chunks), a);
  }

  lemma ActivePagesUpdate(runs: map<nat, seq<Run>>, a: nat, rs: seq<Run>)
    ensures ActivePages(runs[a := rs]) == ActivePages(runs) - (if a in runs then NActive(runs[a]) else 0) + NActive(rs)
  {
    assert ActiveMap(runs[a := rs]) == ActiveMap(runs)[a := NActive(rs)];
    SumUpdate(ActiveMap(runs), a, NActive(rs));
  }

  lemma ActivePagesRemove(runs: map<nat, seq<Run>>, a: nat)
    requires a in runs
    ensures ActivePages(runs - {a}) == ActivePages(runs) - NActive(runs[a])
  {
    assert ActiveMap(runs - {a}) == ActiveMap(runs) - {a};
    SumRemove(ActiveMap(runs), a);
  }

  // ----- What the indexes hold

  /** chunks_dirty: the chunks with dirty pages, under their current keys. */
  ghost function DirtyIndex(chunks: map<nat, Chunk>): set<DirtyElm> {
    set a | a in chunks && chunks[a].ndirty != 0 :: DirtyElm(a, chunks[a].nrunsAvail, chunks[a].nrunsAdjac)
  }

  ghost function DirtyKey(a: nat, c: Chunk): set<DirtyElm> {
    if c.ndirty != 0 then {DirtyElm(a, c.nrunsAvail, c.nrunsAdjac)} else {}
  }

  lemma DirtyIndexUpdate(chunks: map<nat, Chunk>, a: nat, c: Chunk)
    ensures DirtyIndex(chunks[a := c])
        == DirtyIndex(chunks) - (if a in chunks then DirtyKey(a, chunks[a]) else {}) + DirtyKey(a, c)
  {
    InDirtyIndex(chunks);
    InDirtyIndex(chunks[a := c]);
  }

  lemma InDirtyIndex(chunks: map<nat, Chunk>)
    ensures forall e :: e in DirtyIndex(chunks) <==> e.addr in chunks && e in DirtyKey(e.addr, chunks[e.addr])
  {
  }

  lemma DirtyIndexRemove(chunks: map<nat, Chunk>, a: nat)
    requires a in chunks
    ensures DirtyIndex(chunks - {a}) == DirtyIndex(chunks) - DirtyKey(a, chunks[a])
  {
    InDirtyIndex(chunks);
    InDirtyIndex(chunks - {a});
  }

  /** The free runs of one chunk, as elements of runs_avail. */
  ghost function Elms(a: nat, rs: seq<Run>): set<Elm> {
    set r | r in rs && IsFree(r) :: Elm(a, r.start, r.npages)
  }

  /** The most recently freed chunk, kept for reuse. */
  datatype Spare = NoSpare | Spare(addr: nat)

  /** runs_avail: the free runs of all chunks but the spare, under their current sizes. */
  ghost function AvailIndex(runs: map<nat, seq<Run>>, spare: Spare): set<Elm> {
    set a, r | a in runs && spare != Spare(a) && r in runs[a] && IsFree(r) :: Elm(a, r.start, r.npages)
  }

  lemma AvailIndexUpdate(runs: map<nat, seq<Run>>, spare: Spare, a: nat, rs: seq<Run>)
    requires spare != Spare(a)
    ensures AvailIndex(runs[a := rs], spare)
        == AvailIndex(runs, spare) - (if a in runs then Elms(a, runs[a]) else {}) + Elms(a, rs)
  {
    var runs' := runs[a := rs];
    forall e | e in AvailIndex(runs', spare)
      ensures e in AvailIndex(runs, spare) - (if a in runs then Elms(a, runs[a]) else {}) + Elms(a, rs)
    {
      if e.addr != a {
        assert runs'[e.addr] == runs[e.addr];
      }
    }
    forall e | e in AvailIndex(runs, spare) && e.addr != a
      ensures e in AvailIndex(runs', spare)
    {
      assert runs'[e.addr] == runs[e.addr];
    }
    forall e | e in Elms(a, rs)
      ensures e in AvailIndex(runs', spare)
    {
      assert runs'[a] == rs;
    }
  }

  lemma ElmsConcat(a: nat, x: seq<Run>, y: seq<Run>)
    ensures Elms(a, x + y) == Elms(a, x) + Elms(a, y)
  {
  }

  /** Runs over disjoint pages have different heads. */
  lemma ElmsDisjoint(a: nat, x: seq<Run>, y: seq<Run>, lo: nat, mid: nat, hi: nat)
    requires Tiled(x, lo, mid) && Tiled(y, mid, hi)
    ensures Elms(a, x) !! Elms(a, y)
  {
    TiledBounds(x, lo, mid);
    TiledBounds(y, mid, hi);
  }
}
