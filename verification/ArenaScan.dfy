/**
 The scan that purging makes over a chunk (arena_chunk_stash_dirty): why taking dirty fragments out from
 left to right leaves no two free runs side by side.
 */
module ArenaScan {
  import opened ArenaRuns
  import opened Machine
  import opened ArenaIndex
  import opened ArenaState
  import opened ArenaEffects

  /** Of the runs already scanned no two neighbours are free, and the last can only be absorbed by a clean one. */
  ghost predicate Scanned(all: bool, done: seq<Run>, rest: seq<Run>) {
    && NAdjac(done) == 0 && (LastFree(done) && done[|done| - 1].dirty ==> !FirstFree(rest))
    && (all ==> NDirty(done) == 0)
  }

  /** Is the run to be purged? */
  ghost predicate Stashes(all: bool, done: seq<Run>, r: Run, rest: seq<Run>) {
    IsFree(r) && r.dirty && (all || LastFree(done) || FirstFree(rest))
  }

  lemma ScannedNext(all: bool, done: seq<Run>, r: Run, rest: seq<Run>, x: Run)
    requires Coalesced(done + [r] + rest) && Scanned(all, done, [r] + rest)
    requires if Stashes(all, done, r, rest) then !IsFree(x) else x == r
    ensures Scanned(all, done + [x], rest)
  {
    Coalesced3(done, [r], rest);
    CountConcat(done, [x]);
    assert [x][1..] == [];
  }

  /**
   The dirty pages that a scan of the runs rs takes out: of all free runs, or of those with a free neighbour; before
   tells whether the run before rs is free.
   */
  ghost function Picked(all: bool, before: bool, rs: seq<Run>): nat
    decreases rs
  {
    if rs == [] then 0
    else (if IsFree(rs[0]) && rs[0].dirty && (all || before || FirstFree(rs[1..])) then rs[0].npages else 0)
         + Picked(all, IsFree(rs[0]), rs[1..])
  }

  lemma {:induction false} PickedAll(before: bool, rs: seq<Run>)
    ensures Picked(true, before, rs) == NDirty(rs)
    decreases rs
  {
    if rs != [] {
      PickedAll(IsFree(rs[0]), rs[1..]);
    }
  }

  /** Without adjacent free runs only a scan for all dirty runs finds any. */
  lemma {:induction false} PickedFragments(before: bool, rs: seq<Run>)
    requires NAdjac(rs) == 0 && !(before && FirstFree(rs))
    ensures Picked(false, before, rs) == 0
    decreases rs
  {
    if rs != [] {
      PickedFragments(IsFree(rs[0]), rs[1..]);
    }
  }

  /** A run taken out no longer is a free neighbour, but then the next run is not dirty. */
  lemma PickedNext(all: bool, done: seq<Run>, r: Run, rest: seq<Run>, x: Run)
    requires Coalesced(done + [r] + rest) && (if Stashes(all, done, r, rest) then !IsFree(x) else x == r)
    ensures Picked(all, LastFree(done), [r] + rest)
        == (if Stashes(all, done, r, rest) then r.npages else 0) + Picked(all, LastFree(done + [x]), rest)
  {
    Coalesced3(done, [r], rest);
    assert ([r] + rest)[1..] == rest;
  }

  /** What the words at the next page to scan say. */
  lemma ScanLook(c: Chunk, done: seq<Run>, r: Run, rest: seq<Run>, lo: nat, hi: nat)
    requires ChunkInv(c, done + [r] + rest, lo, hi) && At(done + [r] + rest, done, r, rest, lo, hi)
    ensures Agrees(c.bits, r) && r.End() <= hi == |c.bits| && (!c.bits[r.start].alloc <==> IsFree(r))
    ensures IsFree(r) ==> c.bits[r.start].top == r.npages && c.bits[r.start].dirty == r.dirty
    ensures AdjacPred(c, r.start, lo) <==> LastFree(done)
    ensures AdjacSucc(c, r.start, r.npages, hi) <==> FirstFree(rest)
  {
    assert r in done + [r] + rest;
    assert forall x :: x in done ==> x in done + [r] + rest;
    assert forall x :: x in rest ==> x in done + [r] + rest;
    TiledBounds(done, lo, r.start);
    TiledBounds(rest, r.End(), hi);
    if lo < r.start {
      NeighbourFree(c.bits, done, lo, r.start);
    }
    if r.End() < hi {
      NeighbourFree(c.bits, rest, r.End(), hi);
    }
  }

  /** The next run to scan, between what is done and the rest. */
  lemma NextRun(done: seq<Run>, rest: seq<Run>, lo: nat, pageind: nat, hi: nat)
    requires Tiled(done, lo, pageind) && Tiled(rest, pageind, hi) && pageind < hi
    ensures rest != [] && rest[0].start == pageind && rest == [rest[0]] + rest[1..]
    ensures At(done + rest, done, rest[0], rest[1..], lo, hi)
  {
    assert done + rest == done + [rest[0]] + rest[1..];
  }

  /** The runs taken out by a scan and the pages where they start, in order of address. */
  ghost predicate Stashed(stash: seq<nat>, taken: seq<Run>) {
    && |stash| == |taken|
    && (forall i :: 0 <= i < |stash| ==> taken[i].start == stash[i] && taken[i].kind.Large? && 0 < taken[i].npages)
    && forall i, j :: 0 <= i < j < |taken| ==> taken[i].End() <= taken[j].start
  }

  lemma TakenMore(a: nat, stash: seq<nat>, taken: seq<Run>, x: Run)
    requires Stashed(stash, taken) && x.kind.Large? && 0 < x.npages && forall y :: y in taken ==> y.End() <= x.start
    ensures Stashed(stash + [x.start], taken + [x])
    ensures UsedIn(a, taken + [x]) == UsedIn(a, taken) + {(a, x)} && NActive(taken + [x]) == NActive(taken) + x.npages
  {
    UsedConcat(a, taken, [x]);
    assert UsedIn(a, [x]) == {(a, x)};
    CountConcat(taken, [x]);
    assert [x][1..] == [];
    forall i, j | 0 <= i < j < |taken + [x]|
      ensures (taken + [x])[i].End() <= (taken + [x])[j].start
    {
      assert j == |taken| ==> taken[i] in taken;
    }
  }

  lemma TakeOne(taken: seq<Run>, i: nat)
    requires i < |taken| && !IsFree(taken[i])
    ensures taken[..i + 1] == taken[..i] + [taken[i]]
    ensures NActive(taken[..i + 1]) == NActive(taken[..i]) + taken[i].npages
  {
    assert taken[..i + 1] == taken[..i] + [taken[i]];
    CountConcat(taken[..i], [taken[i]]);
    assert [taken[i]][1..] == [];
  }

  lemma TakeUsed(a: nat, stash: seq<nat>, taken: seq<Run>, i: nat)
    requires Stashed(stash, taken) && i < |taken|
    ensures UsedIn(a, taken[..i + 1]) == UsedIn(a, taken[..i]) + {(a, taken[i])}
    ensures (a, taken[i]) in UsedIn(a, taken) && (a, taken[i]) !in UsedIn(a, taken[..i])
  {
    assert taken[..i + 1] == taken[..i] + [taken[i]];
    UsedConcat(a, taken[..i], [taken[i]]);
    assert UsedIn(a, [taken[i]]) == {(a, taken[i])};
  }

  lemma UnstashOne(a: nat, stash: seq<nat>, taken: seq<Run>, i: nat, used: set<(nat, Run)>)
    requires Stashed(stash, taken) && i < |stash| && UsedIn(a, taken) <= used
    ensures i < |taken| && taken[i].start == stash[i]
    ensures NActive(taken[..i + 1]) == NActive(taken[..i]) + taken[i].npages
    ensures (a, taken[i]) in used - UsedIn(a, taken[..i])
    ensures used - UsedIn(a, taken[..i]) - {(a, taken[i])} == used - UsedIn(a, taken[..i + 1])
  {
    TakeOne(taken, i);
    TakeUsed(a, stash, taken, i);
    hide UsedIn;
    assert forall x :: x in used - UsedIn(a, taken[..i]) - {(a, taken[i])} <==> x in used - UsedIn(a, taken[..i + 1]);
  }

  lemma StashLength(stash: seq<nat>, taken: seq<Run>)
    requires Stashed(stash, taken)
    ensures |stash| == |taken|
  {
  }

  /** The run that starts where another ends is the next in the tiling. */
  lemma NextIs(rs: seq<Run>, pre: seq<Run>, r: Run, post: seq<Run>, f: Run, lo: nat, hi: nat)
    requires At(rs, pre, r, post, lo, hi) && f in rs && f.start == r.End()
    ensures r.End() < hi && post != [] && post[0] == f && Tiled(post[1..], f.End(), hi)
  {
    TiledBounds(pre, lo, r.start);
    assert f in post;
    TiledBounds(post[1..], post[0].End(), hi);
  }

  lemma Pair(a: nat, x: Run, y: Run)
    requires y.start == x.End() && 0 < x.npages && 0 < y.npages && !IsFree(x) && !IsFree(y)
    ensures Tiled([x, y], x.start, y.End()) && UsedIn(a, [x, y]) == {(a, x), (a, y)}
  {
    assert [x, y][1..] == [y] && [y][1..] == [];
    assert Tiled([y], y.start, y.End());
  }

  /**
   In the middle of scanning chunk a, which had the runs runs0[a]: the runs done are scanned, those listed taken out,
   and dirty and active pages have changed by as much as these are.
   */
  ghost predicate ScanState(a: nat, all: bool, lo: nat, pageind: nat, hi: nat, stash: seq<nat>, taken: seq<Run>,
      done: seq<Run>, rest: seq<Run>, runs0: map<nat, seq<Run>>, runs: map<nat, seq<Run>>, bits0: seq<Word>,
      bits: seq<Word>, moreDirty: int, moreActive: int) {
    && a in runs0 && a in runs && runs == runs0[a := runs[a]]
    && runs[a] == done + rest && Tiled(done, lo, pageind) && Tiled(rest, pageind, hi) && Scanned(all, done, rest)
    && Stashed(stash, taken) && (forall x :: x in taken ==> x.End() <= pageind)
    && UsedIn(a, taken) !! Used(runs0) && Used(runs) == Used(runs0) + UsedIn(a, taken)
    && 0 - moreDirty == moreActive == NActive(taken)
    && NDirty(runs[a]) == NDirty(runs0[a]) - NActive(taken) && (taken == [] ==> runs[a] == runs0[a])
    && NActive(taken) + Picked(all, LastFree(done), rest) == Picked(all, false, runs0[a])
    && (forall p :: FreeAt(runs[a], p, true) || Covered(taken, p) ==> FreeAt(runs0[a], p, true))
    && CleanKept(bits0, bits, runs0[a])
  }

  /** Is the page in one of the runs? */
  ghost predicate Covered(taken: seq<Run>, p: int) {
    exists x :: x in taken && x.start <= p < x.End()
  }

  lemma CoveredMore(taken: seq<Run>, x: Run, p: int)
    ensures Covered(taken + [x], p) <==> Covered(taken, p) || x.start <= p < x.End()
  {
    if Covered(taken, p) {
      var y :| y in taken && y.start <= p < y.End();
      assert y in taken + [x];
    }
    assert x in taken + [x];
  }

  /** A run that the scan takes out, where it has come to. */
  lemma TakeAt(a: nat, all: bool, lo: nat, hi: nat, stash: seq<nat>, taken: seq<Run>, done: seq<Run>, r: Run,
      post: seq<Run>, runs0: map<nat, seq<Run>>, runs: map<nat, seq<Run>>, bits0: seq<Word>, bits: seq<Word>,
      moreDirty: int, moreActive: int)
    requires Stashes(all, done, r, post) && r.start < hi
    requires ScanState(a, all, lo, r.start, hi, stash, taken, done, [r] + post, runs0, runs, bits0, bits, moreDirty,
        moreActive)
    ensures At(runs[a], done, r, post, lo, hi) && IsFree(r) && r.dirty
  {
    hide Used, UsedIn, Scanned, NActive, NDirty, Picked, FreeAt, Stashed;
    NextRun(done, [r] + post, lo, r.start, hi);
    assert ([r] + post)[1..] == post && ([r] + post)[0] == r;
  }

  /** The scan goes on behind a run that stays. */
  lemma SkipNext(a: nat, all: bool, lo: nat, hi: nat, stash: seq<nat>, taken: seq<Run>, done: seq<Run>, r: Run,
      post: seq<Run>, runs0: map<nat, seq<Run>>, runs: map<nat, seq<Run>>, bits0: seq<Word>, bits: seq<Word>,
      moreDirty: int, moreActive: int)
    requires !Stashes(all, done, r, post) && Coalesced(done + [r] + post)
    requires ScanState(a, all, lo, r.start, hi, stash, taken, done, [r] + post, runs0, runs, bits0, bits, moreDirty,
        moreActive)
    ensures ScanState(a, all, lo, r.End(), hi, stash, taken, done + [r], post, runs0, runs, bits0, bits, moreDirty,
        moreActive)
  {
    assert ([r] + post)[1..] == post && ([r] + post)[0] == r;
    assert Tiled([r] + post, r.start, hi);
    hide Used, UsedIn, Scanned, NActive, NDirty, Picked, FreeAt, Stashed, Coalesced, Covered, CleanKept;
    ScannedNext(all, done, r, post, r);
    PickedNext(all, done, r, post, r);
    TakenTiled(done, r, lo);
    assert done + [r] + post == done + ([r] + post);
  }

  /** The scan goes on behind a run taken out. */
  lemma TakeNext(a: nat, all: bool, lo: nat, hi: nat, stash: seq<nat>, taken: seq<Run>, done: seq<Run>, r: Run,
      post: seq<Run>, runs0: map<nat, seq<Run>>, runs: map<nat, seq<Run>>, runs': map<nat, seq<Run>>, bits0: seq<Word>,
      bits: seq<Word>, bits': seq<Word>, moreDirty: int, moreActive: int)
    requires Stashes(all, done, r, post) && a in runs && At(runs[a], done, r, post, lo, hi)
    requires Coalesced(done + [r] + post)
    requires ScanState(a, all, lo, r.start, hi, stash, taken, done, [r] + post, runs0, runs, bits0, bits, moreDirty,
        moreActive)
    requires CleanKept(bits, bits', runs[a])
    requires runs' == runs[a := done + [Taken(r)] + post]
    requires (a, Taken(r)) !in Used(runs) && Used(runs') == Used(runs) + {(a, Taken(r))}
    requires NDirty(runs'[a]) == NDirty(runs[a]) - r.npages
    requires forall p :: FreeAt(runs'[a], p, true) ==> FreeAt(runs[a], p, true)
    ensures ScanState(a, all, lo, r.End(), hi, stash + [r.start], taken + [Taken(r)], done + [Taken(r)], post, runs0,
        runs', bits0, bits', moreDirty - r.npages, moreActive + r.npages)
  {
    var x := Taken(r);
    hide Used, UsedIn, Scanned, NActive, NDirty, Picked, FreeAt, Stashed, Tiled, Coalesced, Covered, CleanKept;
    TakenPages(runs0[a], runs[a], taken, r);
    CleanKeptThen(bits0, bits, bits', runs0[a], runs[a]);
    TakenTiled(done, x, lo);
    ScannedNext(all, done, r, post, x);
    PickedNext(all, done, r, post, x);
    TakenMore(a, stash, taken, x);
    UsedMore(Used(runs0), UsedIn(a, taken), (a, x), UsedIn(a, taken + [x]), Used(runs'));
  }

  lemma TakenPages(rs0: seq<Run>, rs: seq<Run>, taken: seq<Run>, r: Run)
    requires r in rs && IsFree(r) && r.dirty
    requires forall p :: FreeAt(rs, p, true) || Covered(taken, p) ==> FreeAt(rs0, p, true)
    ensures forall p :: Covered(taken + [Taken(r)], p) ==> FreeAt(rs0, p, true)
  {
    forall p | Covered(taken + [Taken(r)], p)
      ensures FreeAt(rs0, p, true)
    {
      CoveredMore(taken, Taken(r), p);
      assert r.start <= p < r.End() ==> FreeAt(rs, p, true);
    }
  }

  /** Purging has changed nothing but the words of the runs taken out. */
  ghost predicate Untaken(m: seq<Word>, m': seq<Word>, taken: seq<Run>) {
    |m'| == |m| && forall p :: 0 <= p < |m| && !Covered(taken, p) ==> m'[p] == m[p]
  }

  lemma UntakenThen(m: seq<Word>, m1: seq<Word>, m': seq<Word>, taken: seq<Run>, r: Run)
    requires Untaken(m, m1, taken) && Outside(m1, m', r.start, r.End()) && r in taken
    ensures Untaken(m, m', taken)
  {
  }

  /** With runs that were free and dirty taken out, purged, and freed again as clean. */
  lemma PurgedKept(m: seq<Word>, m1: seq<Word>, m2: seq<Word>, m': seq<Word>, taken: seq<Run>, rs: seq<Run>)
    requires CleanKept(m, m1, rs) && Untaken(m1, m2, taken) && ZeroKept(m2, m', 0, 0, false)
    requires forall p :: Covered(taken, p) ==> FreeAt(rs, p, true)
    ensures CleanKept(m, m', rs)
  {
    hide FreeAt, Covered;
  }

  lemma UsedMore(s: set<(nat, Run)>, u: set<(nat, Run)>, x: (nat, Run), u': set<(nat, Run)>, s': set<(nat, Run)>)
    requires u !! s && x !in s + u && u' == u + {x} && s' == s + u + {x}
    ensures u' !! s && s' == s + u'
  {
  }

  lemma TakenTiled(done: seq<Run>, x: Run, lo: nat)
    requires Tiled(done, lo, x.start) && 0 < x.npages
    ensures Tiled(done + [x], lo, x.End())
  {
    assert [x][1..] == [];
    TiledConcat(done, [x], lo, x.start, x.End());
  }

  /** Two adjacent allocated runs and the one that takes their place. */
  lemma Merged(a: nat, pre: seq<Run>, r: Run, h: Run, post: seq<Run>, m: Run, bits: seq<Word>)
    requires post != [] && post[0] == h && h.start == r.End()
    requires !IsFree(r) && !IsFree(h) && 0 < r.npages && 0 < h.npages
    requires m == Run(r.start, r.npages + h.npages, Large, m.dirty) && Agrees(bits, m)
    ensures pre + [r, h] + post[1..] == pre + [r] + post
    ensures Tiled([r, h], r.start, h.End()) && Tiled([m], r.start, h.End())
    ensures NoneFree([r, h]) && NoneFree([m]) && AllAgree(bits, [m])
    ensures UsedIn(a, [r, h]) == {(a, r), (a, h)} && UsedIn(a, [m]) == {(a, m)}
  {
    hide Agrees;
    Pair(a, r, h);
    assert [m][1..] == [] && [r, h][1..] == [h] && [h][1..] == [];
  }

  lemma {:induction false} NActivePositive(taken: seq<Run>)
    requires forall x :: x in taken ==> !IsFree(x) && 0 < x.npages
    ensures 0 <= NActive(taken) && (taken != [] ==> 0 < NActive(taken))
  {
    if taken != [] {
      NActivePositive(taken[1..]);
    }
  }

  /** Allocated runs of a chunk are among its runs. */
  lemma UsedRuns(runs: map<nat, seq<Run>>, a: nat, taken: seq<Run>)
    requires UsedIn(a, taken) <= Used(runs) && a in runs && NoneFree(taken)
    ensures forall x :: x in taken ==> x in runs[a]
  {
    forall x | x in taken
      ensures x in runs[a]
    {
      assert (a, x) in UsedIn(a, taken);
    }
  }

  /** The pages of the first purged runs carry the flags that purging them gave. */
  ghost predicate Flagged(bits: seq<Word>, taken: seq<Run>, flags: seq<bool>) {
    && |flags| <= |taken|
    && forall i, p ::
      0 <= i < |flags| && taken[i].start <= p < taken[i].End() && p < |bits| ==> bits[p].unzeroed == flags[i]
  }

  lemma FlaggedMore(m: seq<Word>, m': seq<Word>, stash: seq<nat>, taken: seq<Run>, flags: seq<bool>, unzeroed: bool)
    requires Flagged(m, taken, flags) && Stashed(stash, taken) && |flags| < |taken|
    requires var r := taken[|flags|]; Outside(m, m', r.start, r.End()) && forall p ::
      r.start <= p < r.End() && p < |m| ==> m'[p].unzeroed == unzeroed
    ensures Flagged(m', taken, flags + [unzeroed])
  {
  }

  lemma FlaggedNone(bits: seq<Word>, taken: seq<Run>)
    ensures Flagged(bits, taken, [])
  {
  }

  lemma LargeWords(c: Chunk, rs: seq<Run>, r: Run, lo: nat, hi: nat)
    requires ChunkInv(c, rs, lo, hi) && r in rs && r.kind.Large?
    ensures r.End() <= |c.bits| && 0 < r.npages && c.bits[r.start].top == r.npages
  {
    assert Agrees(c.bits, r);
  }

  lemma {:induction false} DirtyAtMost(rs: seq<Run>, lo: nat, hi: nat)
    requires Tiled(rs, lo, hi)
    ensures NDirty(rs) <= hi - lo
  {
    if rs != [] {
      DirtyAtMost(rs[1..], rs[0].End(), hi);
    }
  }

  /** A chunk with dirty pages is comparable: it has more free runs than adjacencies. */
  lemma {:induction false} DirtyHasFree(rs: seq<Run>)
    ensures NDirty(rs) != 0 ==> 0 < NAvail(rs)
  {
    if rs != [] {
      DirtyHasFree(rs[1..]);
    }
  }

  lemma SpareClean(v: View, lo: nat, hi: nat)
    requires ArenaInv(v, lo, hi)
    ensures v.spare.Spare? ==> v.spare.addr in v.chunks && v.chunks[v.spare.addr].ndirty == 0
  {
    if v.spare.Spare? {
      assert SpareInv(v.chunks[v.spare.addr], v.runs[v.spare.addr], lo, hi);
    }
  }

  /** Elements of chunks_dirty are chunks in use, comparable, and the spare is not among them. */
  lemma DirtyChunk(v: View, e: DirtyElm, lo: nat, hi: nat)
    requires ArenaInv(v, lo, hi) && e in DirtyIndex(v.chunks)
    ensures Fragment(e) && e.addr in v.chunks && v.spare != Spare(e.addr)
    ensures 0 < v.chunks[e.addr].ndirty && v.chunks[e.addr].nrunsAdjac == e.adjac
  {
    InDirtyIndex(v.chunks);
    SpareClean(v, lo, hi);
    var rs := v.runs[e.addr];
    assert ChunkInv(v.chunks[e.addr], rs, lo, hi);
    DirtyHasFree(rs);
    AdjacLess(rs);
  }

  /** chunks_dirty has a first element, unless no page is dirty. */
  lemma DirtyFirst(v: View, lo: nat, hi: nat) returns (m: DirtyElm)
    requires ArenaInv(v, lo, hi)
    ensures DirtyIndex(v.chunks) == {} ==> DirtyPages(v.chunks) == 0
    ensures DirtyIndex(v.chunks) != {} ==>
      m in DirtyIndex(v.chunks) && forall x :: x in DirtyIndex(v.chunks) ==> DirtyComp(m, x) <= 0
  {
    InDirtyIndex(v.chunks);
    if DirtyIndex(v.chunks) == {} {
      m := DirtyElm(0, 0, 0);
      forall a | a in v.chunks
        ensures v.chunks[a].ndirty == 0
      {
        assert DirtyElm(a, v.chunks[a].nrunsAvail, v.chunks[a].nrunsAdjac) !in DirtyIndex(v.chunks);
      }
      SumNonNegative(DirtyMap(v.chunks));
    } else {
      forall x | x in DirtyIndex(v.chunks)
        ensures Fragment(x)
      {
        DirtyChunk(v, x, lo, hi);
      }
      m := DirtyMin(DirtyIndex(v.chunks));
    }
  }

  // ----- Counters of one machine word

  const SIZE: nat := 0x1_0000_0000_0000_0000

  /** The value of a counter of one word. */
  function Wrap(x: int): (w: int)
    ensures 0 <= w < SIZE
  {
    x % SIZE
  }

  /** Adding the same amount to two counters keeps their difference, also when both wrap. */
  lemma WrapTogether(n: int, x: int, y: int, d: int)
    requires x == Wrap(n + y)
    ensures Wrap(x + d) == Wrap(n + Wrap(y + d))
  {
  }

  /** Wrapping down only makes a counter larger. */
  lemma WrapAtLeast(x: int)
    requires x < SIZE
    ensures x <= Wrap(x)
    ensures 0 <= x ==> Wrap(x) == x
  {
  }

  lemma WrapTwice(x: int, a: int, b: int)
    ensures Wrap(Wrap(x - a) + b) == Wrap(x - a + b)
  {
  }

  lemma QuotientNonNegative(x: int, d: int)
    requires 0 <= x && 0 < d
    ensures 0 <= x / d
  {
  }
}
