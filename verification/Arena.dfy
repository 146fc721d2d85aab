/**
 The page-run allocator of arena.c: splitting, coalescing, trimming, growing and purging page runs of
 chunks, with the page maps, counters and indexes updated in place in the order of the source.  One
 operation under the arena lock is one method.
 */
module Arena {
  import opened ArenaRuns
  import opened ArenaIndex
  import opened ArenaState
  import opened ArenaEffects
  import opened ArenaPurge
  import opened ArenaScan
  import opened BinPages
  import opened Machine

  class Arena {
    /** map_bias and chunk_npages: the pages of a chunk that runs may use. */
    const lo: nat
    const hi: nat
    /** arena_bin_info[].run_size, in pages. */
    const binRunPages: seq<nat>
    /** opt_lg_dirty_mult: at most one dirty page per two to this many active pages; purging is off below zero. */
    const lgDirtyMult: int

    var chunks: map<nat, Chunk>
    var runsAvail: set<Elm>
    var chunksDirty: set<DirtyElm>
    var spare: Spare
    var nactive: int
    var ndirty: int
    var npurgatory: int

    /** The runs that each chunk's map describes. */
    ghost var runs: map<nat, seq<Run>>

    constructor (lo: nat, hi: nat, binRunPages: seq<nat>, lgDirtyMult: int)
      requires lo < hi < SIZE && forall i :: 0 <= i < |binRunPages| ==> 0 < binRunPages[i]
      ensures Valid() && runs == map[] && spare == NoSpare && nactive == ndirty == npurgatory == 0
      ensures this.lo == lo && this.hi == hi && this.binRunPages == binRunPages && this.lgDirtyMult == lgDirtyMult
    {
      this.lo, this.hi, this.binRunPages, this.lgDirtyMult := lo, hi, binRunPages, lgDirtyMult;
      chunks, runs, runsAvail, chunksDirty, spare := map[], map[], {}, {}, NoSpare;
      nactive, ndirty, npurgatory := 0, 0, 0;
      new;
      assert DirtyMap(chunks) == map[] && ActiveMap(runs) == map[];
    }

    /** chunks_dirty and the arena's ndirty agree with the chunk headers; true between any two statements below. */
    ghost predicate Light()
      reads this`chunks, this`chunksDirty, this`ndirty
    {
      chunksDirty == DirtyIndex(chunks) && ndirty == DirtyPages(chunks)
    }

    /** The header's counts of available and adjacent runs, as a free run enters runs_avail. */
    method CountInsert(c0: Chunk, pageind: nat, npages: nat, maybePred: bool, maybeSucc: bool, ghost pre: seq<Run>,
        ghost r: Run, ghost post: seq<Run>)
      returns (chunk: Chunk)
      requires r.start == pageind && r.npages == npages && Placed(c0, pre, r, post, maybePred, maybeSucc, lo, hi)
      requires Counted(c0, pre + [Taken(r)] + post)
      ensures var with := pre + [r] + post; chunk == c0.(nrunsAvail := NAvail(with), nrunsAdjac := NAdjac(with))
      ensures chunk.nrunsAdjac < chunk.nrunsAvail
    {
      chunk := c0;
      PlacedCounts(chunk, pre, r, post, maybePred, maybeSucc, lo, hi);
      if maybePred && AdjacPred(chunk, pageind, lo) {
        chunk := chunk.(nrunsAdjac := chunk.nrunsAdjac + 1);
      }
      if maybeSucc && AdjacSucc(chunk, pageind, npages, hi) {
        chunk := chunk.(nrunsAdjac := chunk.nrunsAdjac + 1);
      }
      chunk := chunk.(nrunsAvail := chunk.nrunsAvail + 1);
    }

    /** arena_avail_insert */
    method AvailInsert(a: nat, pageind: nat, npages: nat, maybePred: bool, maybeSucc: bool, ghost pre: seq<Run>,
        ghost r: Run, ghost post: seq<Run>)
      requires Light() && a in chunks && r.start == pageind && r.npages == npages
      requires Placed(chunks[a], pre, r, post, maybePred, maybeSucc, lo, hi)
      requires Counted(chunks[a], pre + [Taken(r)] + post) && Elm(a, pageind, npages) !in runsAvail
      modifies this`chunks, this`chunksDirty, this`ndirty, this`runsAvail
      ensures Light() && a in chunks && chunks == old(chunks)[a := chunks[a]] && chunks[a].bits == old(chunks)[a].bits
      ensures Counted(chunks[a], pre + [r] + post)
      ensures runsAvail == old(runsAvail) + {Elm(a, pageind, npages)}
    {
      var chunk := chunks[a];
      PlacedCounts(chunk, pre, r, post, maybePred, maybeSucc, lo, hi);
      assert chunk.bits[pageind].dirty == r.dirty;
      hide Placed, NAvail, NAdjac, NDirty, AdjacPred, AdjacSucc, DirtyIndex, DirtyPages, Taken;
      if chunk.ndirty != 0 {
        chunksDirty := chunksDirty - {DirtyElm(a, chunk.nrunsAvail, chunk.nrunsAdjac)};
      }
      chunk := CountInsert(chunk, pageind, npages, maybePred, maybeSucc, pre, r, post);
      if chunk.bits[pageind].dirty {
        ndirty := ndirty + npages;
        chunk := chunk.(ndirty := chunk.ndirty + npages);
      }
      if chunk.ndirty != 0 {
        chunksDirty := chunksDirty + {DirtyElm(a, chunk.nrunsAvail, chunk.nrunsAdjac)};
      }
      DirtyIndexUpdate(chunks, a, chunk);
      DirtyPagesUpdate(chunks, a, chunk);
      chunks := chunks[a := chunk];
      runsAvail := runsAvail + {Elm(a, pageind, npages)};
    }

    /** The header's counts of available and adjacent runs, as a free run leaves it. */
    method CountRemove(c0: Chunk, pageind: nat, npages: nat, maybePred: bool, maybeSucc: bool, ghost pre: seq<Run>,
        ghost r: Run, ghost post: seq<Run>)
      returns (chunk: Chunk)
      requires r.start == pageind && r.npages == npages && Placed(c0, pre, r, post, maybePred, maybeSucc, lo, hi)
      requires Counted(c0, pre + [r] + post)
      ensures var with := pre + [Taken(r)] + post; chunk == c0.(nrunsAvail := NAvail(with), nrunsAdjac := NAdjac(with))
      ensures chunk.nrunsAdjac < chunk.nrunsAvail || chunk.nrunsAdjac == chunk.nrunsAvail == 0
    {
      chunk := c0;
      PlacedCounts(chunk, pre, r, post, maybePred, maybeSucc, lo, hi);
      if maybePred && AdjacPred(chunk, pageind, lo) {
        chunk := chunk.(nrunsAdjac := chunk.nrunsAdjac - 1);
      }
      if maybeSucc && AdjacSucc(chunk, pageind, npages, hi) {
        chunk := chunk.(nrunsAdjac := chunk.nrunsAdjac - 1);
      }
      chunk := chunk.(nrunsAvail := chunk.nrunsAvail - 1);
    }

    /** arena_avail_remove */
    method AvailRemove(a: nat, pageind: nat, npages: nat, maybePred: bool, maybeSucc: bool, ghost pre: seq<Run>,
        ghost r: Run, ghost post: seq<Run>)
      requires Light() && a in chunks && r.start == pageind && r.npages == npages
      requires Placed(chunks[a], pre, r, post, maybePred, maybeSucc, lo, hi)
      requires Counted(chunks[a], pre + [r] + post) && Elm(a, pageind, npages) in runsAvail
      modifies this`chunks, this`chunksDirty, this`ndirty, this`runsAvail
      ensures Light() && a in chunks && chunks == old(chunks)[a := chunks[a]] && chunks[a].bits == old(chunks)[a].bits
      ensures Counted(chunks[a], pre + [Taken(r)] + post)
      ensures runsAvail == old(runsAvail) - {Elm(a, pageind, npages)}
    {
      var chunk := chunks[a];
      PlacedCounts(chunk, pre, r, post, maybePred, maybeSucc, lo, hi);
      assert chunk.bits[pageind].dirty == r.dirty;
      hide Placed, NAvail, NAdjac, NDirty, AdjacPred, AdjacSucc, DirtyIndex, DirtyPages, Taken;
      if chunk.ndirty != 0 {
        chunksDirty := chunksDirty - {DirtyElm(a, chunk.nrunsAvail, chunk.nrunsAdjac)};
      }
      chunk := CountRemove(chunk, pageind, npages, maybePred, maybeSucc, pre, r, post);
      if chunk.bits[pageind].dirty {
        ndirty := ndirty - npages;
        chunk := chunk.(ndirty := chunk.ndirty - npages);
      }
      if chunk.ndirty != 0 {
        chunksDirty := chunksDirty + {DirtyElm(a, chunk.nrunsAvail, chunk.nrunsAdjac)};
      }
      DirtyIndexUpdate(chunks, a, chunk);
      DirtyPagesUpdate(chunks, a, chunk);
      chunks := chunks[a := chunk];
      runsAvail := runsAvail - {Elm(a, pageind, npages)};
    }

    /** Writing words of a chunk's map leaves counters, and so the dirty index, alone. */
    method PutBits(a: nat, c: Chunk)
      requires Light() && a in chunks && c == chunks[a].(bits := c.bits)
      modifies this`chunks
      ensures Light() && chunks == old(chunks)[a := c]
    {
      DirtyIndexUpdate(chunks, a, c);
      DirtyPagesUpdate(chunks, a, c);
      chunks := chunks[a := c];
    }

    /** The outer words of a free run; the flags of clean pages that tell whether they are zero stay. */
    method WriteFree(c0: Chunk, ind: nat, npages: nat, dirty: bool) returns (c: Chunk)
      requires 0 < npages && ind + npages <= |c0.bits|
      ensures c == c0.(bits := c.bits) && Outside(c0.bits, c.bits, ind, ind + npages)
      ensures Agrees(c.bits, Run(ind, npages, Free, dirty)) && ZeroKept(c0.bits, c.bits, ind, ind + npages, dirty)
    {
      var unz1, unz2 := !dirty && c0.bits[ind].unzeroed, !dirty && c0.bits[ind + npages - 1].unzeroed;
      c := SetUnallocated(c0, ind, npages, dirty, unz1);
      c := SetUnallocated(c, ind + npages - 1, npages, dirty, unz2);
    }

    /** The outer words of a large run. */
    method WriteLarge(c0: Chunk, ind: nat, npages: nat, dirty: bool) returns (c: Chunk)
      requires 0 < npages && ind + npages <= |c0.bits|
      ensures c == c0.(bits := c.bits) && Outside(c0.bits, c.bits, ind, ind + npages)
      ensures Agrees(c.bits, Run(ind, npages, Large, dirty)) && ZeroKept(c0.bits, c.bits, 0, 0, false)
    {
      // The last element first, in case the run only contains one page.
      c := SetLarge(c0, ind + npages - 1, 0, dirty);
      c := SetLarge(c, ind, npages, dirty);
    }

    /** Put the pages that a split leaves over back into the map and the index. */
    method FreeTail(a: nat, runInd: nat, flagDirty: bool, needPages: nat, total: nat, ghost pre: seq<Run>, ghost r: Run,
        ghost post: seq<Run>)
      requires Light() && a in chunks && r.start == runInd && r.dirty == flagDirty
      requires r.npages == total && 0 < needPages < total
      requires Placed(chunks[a], pre, r, post, true, true, lo, hi) && Counted(chunks[a], pre + [Taken(r)] + post)
      requires Elm(a, runInd + needPages, total - needPages) !in runsAvail
      modifies this`chunks, this`chunksDirty, this`ndirty, this`runsAvail
      ensures Light() && a in chunks && chunks == old(chunks)[a := chunks[a]]
      ensures Outside(old(chunks)[a].bits, chunks[a].bits, runInd + needPages, r.End())
      ensures Agrees(chunks[a].bits, Run(runInd + needPages, total - needPages, Free, r.dirty))
      ensures Counted(chunks[a], pre + SplitMid(r, needPages, Large) + post)
      ensures runsAvail == old(runsAvail) + {Elm(a, runInd + needPages, total - needPages)}
      ensures ZeroKept(old(chunks)[a].bits, chunks[a].bits, r.start, r.End(), r.dirty)
    {
      var rem := total - needPages;
      var c := WriteFree(chunks[a], runInd + needPages, rem, flagDirty);
      PutBits(a, c);
      ghost var head, tail := Run(runInd, needPages, Large, r.dirty), Run(runInd + needPages, rem, Free, r.dirty);
      SplitPlaced(old(chunks)[a], c, pre, r, post, needPages, lo, hi);
      AvailInsert(a, runInd + needPages, rem, false, true, pre + [head], tail, post);
      assert pre + [head] + [tail] + post == pre + SplitMid(r, needPages, Large) + post;
    }

    /** arena_run_split_remove: take needPages from the front of a free run out of the index. */
    method SplitRemove(a: nat, runInd: nat, flagDirty: bool, needPages: nat, ghost pre: seq<Run>, ghost r: Run,
        ghost post: seq<Run>)
      requires Light() && a in chunks && r.start == runInd
      requires r.dirty == flagDirty && IsFree(r) && 0 < needPages <= r.npages
      requires ChunkInv(chunks[a], pre + [r] + post, lo, hi) && Tiled(pre, lo, r.start) && Tiled(post, r.End(), hi)
      requires Elm(a, runInd, r.npages) in runsAvail
      requires needPages < r.npages ==> Elm(a, runInd + needPages, r.npages - needPages) !in runsAvail
      modifies this`chunks, this`chunksDirty, this`ndirty, this`runsAvail, this`nactive
      ensures Light() && a in chunks && chunks == old(chunks)[a := chunks[a]]
      ensures Outside(old(chunks)[a].bits, chunks[a].bits, runInd + needPages, r.End())
      ensures AllAgree(chunks[a].bits, SplitMid(r, needPages, Large)[1..])
      ensures Counted(chunks[a], pre + SplitMid(r, needPages, Large) + post)
      ensures runsAvail == old(runsAvail) - {Elm(a, runInd, r.npages)} + Elms(a, SplitMid(r, needPages, Large))
      ensures nactive == old(nactive) + needPages
      ensures ZeroKept(old(chunks)[a].bits, chunks[a].bits, r.start, r.End(), r.dirty)
    {
      hide ChunkInv, Tiled, AllAgree, Agrees, Coalesced, Counted, Placed, Elms, SplitMid, Light, IsFree;
      SplitReady(chunks[a], pre, r, post, needPages, lo, hi);
      var total := chunks[a].bits[runInd].top;
      var rem := total - needPages;
      AvailRemove(a, runInd, total, true, true, pre, r, post);
      nactive := nactive + needPages;
      if rem > 0 {
        FreeTail(a, runInd, flagDirty, needPages, total, pre, r, post);
      }
      SplitParts(a, r, needPages, chunks[a].bits);
    }

    ghost function Now(): View
      reads this
    {
      View(chunks, runs, spare, runsAvail, nactive)
    }

    ghost predicate Valid()
      reads this
    {
      && Light() && ArenaInv(Now(), lo, hi) && lo < hi < SIZE && chunks.Keys == runs.Keys && 0 <= npurgatory < SIZE
      && (forall i :: 0 <= i < |binRunPages| ==> 0 < binRunPages[i])
      && forall a :: a in runs ==> BinSized(runs[a])
    }

    /** Small runs have the size their bin prescribes, which is how their size is found again. */
    ghost predicate BinSized(rs: seq<Run>) {
      forall r :: r in rs && r.kind.Small? ==> r.kind.binind < |binRunPages| && r.npages == binRunPages[r.kind.binind]
    }

    /** arena_run_split_large_helper, on the map, the counters and the indexes. */
    method SplitLargeMap(a: nat, runInd: nat, needPages: nat, ghost pre: seq<Run>, ghost r: Run, ghost post: seq<Run>)
      requires Light() && a in chunks && r.start == runInd && IsFree(r) && 0 < needPages <= r.npages
      requires ChunkInv(chunks[a], pre + [r] + post, lo, hi) && Tiled(pre, lo, r.start) && Tiled(post, r.End(), hi)
      requires Elm(a, runInd, r.npages) in runsAvail
      requires needPages < r.npages ==> Elm(a, runInd + needPages, r.npages - needPages) !in runsAvail
      modifies this`chunks, this`chunksDirty, this`ndirty, this`runsAvail, this`nactive
      ensures Light() && a in chunks && chunks == old(chunks)[a := chunks[a]]
      ensures ChunkInv(chunks[a], pre + SplitMid(r, needPages, Large) + post, lo, hi)
      ensures runsAvail == old(runsAvail) - {Elm(a, runInd, r.npages)} + Elms(a, SplitMid(r, needPages, Large))
      ensures nactive == old(nactive) + needPages
      ensures ZeroKept(old(chunks)[a].bits, chunks[a].bits, r.start, r.End(), r.dirty)
    {
      SplitReady(chunks[a], pre, r, post, needPages, lo, hi);
      var flagDirty := chunks[a].bits[runInd].dirty;
      assert flagDirty == r.dirty && r.End() <= |chunks[a].bits|;
      hide *;
      SplitRemove(a, runInd, flagDirty, needPages, pre, r, post);
      ghost var c1 := chunks[a];
      var c := WriteLarge(chunks[a], runInd, needPages, flagDirty);
      PutBits(a, c);
      SplitDone(old(chunks)[a], c1, c, pre, r, post, needPages, Large, lo, hi);
    }

    /** arena_run_split_large: allocate the front of a free run as a large run. */
    method SplitLarge(a: nat, runInd: nat, needPages: nat, ghost pre: seq<Run>, ghost r: Run, ghost post: seq<Run>)
      requires Valid() && a in chunks && spare != Spare(a) && runs[a] == pre + [r] + post && r.start == runInd
      requires IsFree(r) && 0 < needPages <= r.npages && Tiled(pre, lo, r.start) && Tiled(post, r.End(), hi)
      modifies this
      ensures Valid() && runs == old(runs)[a := pre + SplitMid(r, needPages, Large) + post]
      ensures spare == old(spare) && npurgatory == old(npurgatory)
      ensures a in chunks && chunks == old(chunks)[a := chunks[a]]
      ensures ZeroKept(old(chunks)[a].bits, chunks[a].bits, r.start, r.End(), r.dirty)
    {
      hide ArenaInv, ChunkInv, DirtyIndex, DirtyPages, Elms;
      ghost var v := Now();
      SplitFresh(v, a, pre, r, post, needPages, lo, hi);
      SplitLargeMap(a, runInd, needPages, pre, r, post);
      assert BinSized(runs[a]) && forall x :: x in SplitMid(r, needPages, Large) ==> !x.kind.Small?;
      runs := runs[a := pre + SplitMid(r, needPages, Large) + post];
      SplitCommit(v, Now(), a, pre, r, post, needPages, Large, lo, hi);
    }

    /** The words of a small run: each tells how far into the run its page is. */
    method FillSmall(c1: Chunk, runInd: nat, needPages: nat, binind: nat, flagDirty: bool) returns (c: Chunk)
      requires 0 < needPages && runInd + needPages <= |c1.bits|
      ensures c == c1.(bits := c.bits) && Outside(c1.bits, c.bits, runInd, runInd + needPages)
      ensures Agrees(c.bits, Run(runInd, needPages, Small(binind), flagDirty)) && ZeroKept(c1.bits, c.bits, 0, 0, false)
      ensures forall p :: runInd < p < runInd + needPages - 1 ==> !c.bits[p].dirty
    {
      c := SetSmall(c1, runInd, 0, binind, flagDirty);
      var i := 1;
      while i + 1 < needPages
        invariant 1 <= i && (i < needPages || i == 1) && c == c1.(bits := c.bits)
        invariant Outside(c1.bits, c.bits, runInd, runInd + needPages) && c.bits[runInd].dirty == flagDirty
        invariant ZeroKept(c1.bits, c.bits, 0, 0, false)
        invariant forall p :: runInd <= p < runInd + i ==>
          c.bits[p].alloc && !c.bits[p].large && c.bits[p].top == p - runInd && c.bits[p].binind == binind
          && (runInd < p ==> !c.bits[p].dirty)
      {
        c := SetSmall(c, runInd + i, i, binind, false);
        i := i + 1;
      }
      c := SetSmall(c, runInd + needPages - 1, needPages - 1, binind, flagDirty);
    }

    /** arena_run_split_small, on the map, the counters and the indexes. */
    method SplitSmallMap(a: nat, runInd: nat, needPages: nat, binind: nat, ghost pre: seq<Run>, ghost r: Run,
        ghost post: seq<Run>)
      requires Light() && a in chunks && r.start == runInd && IsFree(r) && 0 < needPages <= r.npages
      requires ChunkInv(chunks[a], pre + [r] + post, lo, hi) && Tiled(pre, lo, r.start) && Tiled(post, r.End(), hi)
      requires Elm(a, runInd, r.npages) in runsAvail
      requires needPages < r.npages ==> Elm(a, runInd + needPages, r.npages - needPages) !in runsAvail
      modifies this`chunks, this`chunksDirty, this`ndirty, this`runsAvail, this`nactive
      ensures Light() && a in chunks && chunks == old(chunks)[a := chunks[a]]
      ensures ChunkInv(chunks[a], pre + SplitMid(r, needPages, Small(binind)) + post, lo, hi)
      ensures runsAvail == old(runsAvail) - {Elm(a, runInd, r.npages)} + Elms(a, SplitMid(r, needPages, Large))
      ensures nactive == old(nactive) + needPages
      ensures ZeroKept(old(chunks)[a].bits, chunks[a].bits, r.start, r.End(), r.dirty)
    {
      SplitReady(chunks[a], pre, r, post, needPages, lo, hi);
      var flagDirty := chunks[a].bits[runInd].dirty;
      assert flagDirty == r.dirty && r.End() <= |chunks[a].bits|;
      hide *;
      SplitRemove(a, runInd, flagDirty, needPages, pre, r, post);
      ghost var c1 := chunks[a];
      var c := FillSmall(chunks[a], runInd, needPages, binind, flagDirty);
      PutBits(a, c);
      SplitDone(old(chunks)[a], c1, c, pre, r, post, needPages, Small(binind), lo, hi);
    }

    /** arena_run_split_small: allocate the front of a free run for a bin. */
    method SplitSmall(a: nat, runInd: nat, needPages: nat, binind: nat, ghost pre: seq<Run>, ghost r: Run,
        ghost post: seq<Run>)
      requires Valid() && a in chunks && spare != Spare(a) && runs[a] == pre + [r] + post && r.start == runInd
      requires IsFree(r) && 0 < needPages <= r.npages && Tiled(pre, lo, r.start) && Tiled(post, r.End(), hi)
      requires binind < |binRunPages| && needPages == binRunPages[binind]
      modifies this
      ensures Valid() && runs == old(runs)[a := pre + SplitMid(r, needPages, Small(binind)) + post]
      ensures spare == old(spare) && npurgatory == old(npurgatory)
      ensures a in chunks && chunks == old(chunks)[a := chunks[a]]
      ensures ZeroKept(old(chunks)[a].bits, chunks[a].bits, r.start, r.End(), r.dirty)
    {
      hide ArenaInv, ChunkInv, DirtyIndex, DirtyPages, Elms;
      ghost var v := Now();
      SplitFresh(v, a, pre, r, post, needPages, lo, hi);
      SplitSmallMap(a, runInd, needPages, binind, pre, r, post);
      assert BinSized(runs[a]);
      assert forall x ::
        x in SplitMid(r, needPages, Small(binind)) && x.kind.Small? ==>
          x.npages == needPages && x.kind.binind == binind;
      runs := runs[a := pre + SplitMid(r, needPages, Small(binind)) + post];
      SplitCommit(v, Now(), a, pre, r, post, needPages, Small(binind), lo, hi);
    }

    /** arena_run_coalesce, forward: absorb the free run that follows, if it has the same dirty flag. */
    method CoalesceForward(a: nat, size: nat, runInd: nat, flagDirty: bool, ghost others: set<Elm>, ghost pre: seq<Run>,
        ghost f: Run, ghost post: seq<Run>)
      returns (newSize: nat)
      requires Light() && a in chunks && Loose(chunks[a], pre, f, post, lo, hi)
      requires f == Run(runInd, size, Free, flagDirty)
      requires Indexed(runsAvail, others, a, pre, post)
      modifies this`chunks, this`chunksDirty, this`ndirty, this`runsAvail
      ensures Light() && a in chunks && chunks == old(chunks)[a := chunks[a]] && newSize == Forward(f, post).npages
      ensures Loose(chunks[a], pre, Forward(f, post), ForwardRest(f, post), lo, hi)
      ensures Indexed(runsAvail, others, a, pre, ForwardRest(f, post))
      ensures ZeroKept(old(chunks)[a].bits, chunks[a].bits, 0, 0, false)
    {
      hide Light, Indexed, Placed, Counted, Coalesced, Tiled, NAvail, NAdjac, NDirty, AllAgree, Elms, Outside;
      newSize := size;
      var c := chunks[a];
      TiledBounds(post, f.End(), hi);
      if f.End() < hi {
        NeighbourFree(c.bits, post, f.End(), hi);
      }
      if runInd + size < hi && !c.bits[runInd + size].alloc && c.bits[runInd + size].dirty == flagDirty {
        newSize := JoinNext(a, size, runInd, others, pre, f, post);
      }
    }

    /** The branch in which the run after f joins it. */
    method JoinNext(a: nat, size: nat, runInd: nat, ghost others: set<Elm>, ghost pre: seq<Run>, ghost f: Run,
        ghost post: seq<Run>)
      returns (newSize: nat)
      requires Light() && a in chunks && Loose(chunks[a], pre, f, post, lo, hi) && JoinsNext(f, post)
      requires f == Run(runInd, size, Free, f.dirty)
      requires Indexed(runsAvail, others, a, pre, post)
      modifies this`chunks, this`chunksDirty, this`ndirty, this`runsAvail
      ensures Light() && a in chunks && chunks == old(chunks)[a := chunks[a]] && newSize == Forward(f, post).npages
      ensures Loose(chunks[a], pre, Forward(f, post), post[1..], lo, hi)
      ensures Indexed(runsAvail, others, a, pre, post[1..])
      ensures ZeroKept(old(chunks)[a].bits, chunks[a].bits, 0, 0, false)
    {
      hide Light, Indexed, Placed, Coalesced, Tiled, NAvail, NAdjac, NDirty, AllAgree, Elms, Outside;
      var c := chunks[a];
      ForwardPlaced(c, pre, f, post, lo, hi);
      var nrun := c.bits[runInd + size].top;
      assert c.bits[runInd + size + nrun - 1].top == nrun && c.bits[runInd + size + nrun - 1].dirty == f.dirty;
      JoinedAgrees(c, f, post[0]);
      IndexedNext(runsAvail, others, a, pre, f, post, lo, hi);
      AvailRemove(a, runInd + size, nrun, false, true, pre + [Taken(f)], post[0], post[1..]);
      newSize := size + nrun;
      c := SetUnallocatedSize(chunks[a], runInd, newSize);
      c := SetUnallocatedSize(c, runInd + newSize - 1, newSize);
      PutBits(a, c);
      ForwardLoose(old(chunks)[a], c, pre, f, post, lo, hi);
    }

    /** arena_run_coalesce, backward: be absorbed by the free run before, if it has the same dirty flag. */
    method CoalesceBackward(a: nat, size: nat, runInd: nat, flagDirty: bool, ghost others: set<Elm>,
        ghost pre: seq<Run>, ghost f: Run, ghost post: seq<Run>)
      returns (newSize: nat, newInd: nat)
      requires Light() && a in chunks && Loose(chunks[a], pre, f, post, lo, hi)
      requires f == Run(runInd, size, Free, flagDirty)
      requires Indexed(runsAvail, others, a, pre, post)
      modifies this`chunks, this`chunksDirty, this`ndirty, this`runsAvail
      ensures Light() && a in chunks && chunks == old(chunks)[a := chunks[a]]
      ensures newSize == Backward(pre, f).npages && newInd == Backward(pre, f).start
      ensures Loose(chunks[a], BackwardRest(pre, f), Backward(pre, f), post, lo, hi)
      ensures Indexed(runsAvail, others, a, BackwardRest(pre, f), post)
      ensures ZeroKept(old(chunks)[a].bits, chunks[a].bits, 0, 0, false)
    {
      hide Light, Indexed, Placed, Counted, Coalesced, Tiled, NAvail, NAdjac, NDirty, AllAgree, Elms, Outside;
      newSize, newInd := size, runInd;
      var c := chunks[a];
      TiledBounds(pre, lo, f.start);
      TiledBounds(post, f.End(), hi);
      if lo < runInd {
        NeighbourFree(c.bits, pre, lo, runInd);
      }
      if runInd > lo && !c.bits[runInd - 1].alloc && c.bits[runInd - 1].dirty == flagDirty {
        newSize, newInd := JoinPrev(a, size, runInd, others, pre, f, post);
      }
    }

    /** The branch in which f joins the run before it. */
    method JoinPrev(a: nat, size: nat, runInd: nat, ghost others: set<Elm>, ghost pre: seq<Run>, ghost f: Run,
        ghost post: seq<Run>)
      returns (newSize: nat, newInd: nat)
      requires Light() && a in chunks && Loose(chunks[a], pre, f, post, lo, hi) && JoinsPrev(pre, f)
      requires f == Run(runInd, size, Free, f.dirty)
      requires Indexed(runsAvail, others, a, pre, post)
      modifies this`chunks, this`chunksDirty, this`ndirty, this`runsAvail
      ensures Light() && a in chunks && chunks == old(chunks)[a := chunks[a]]
      ensures newSize == Backward(pre, f).npages && newInd == Backward(pre, f).start
      ensures Loose(chunks[a], pre[..|pre| - 1], Backward(pre, f), post, lo, hi)
      ensures Indexed(runsAvail, others, a, pre[..|pre| - 1], post)
      ensures ZeroKept(old(chunks)[a].bits, chunks[a].bits, 0, 0, false)
    {
      hide Light, Indexed, Placed, Coalesced, Tiled, NAvail, NAdjac, NDirty, AllAgree, Elms, Outside;
      var c := chunks[a];
      BackwardTiled(pre, f, lo);
      BackwardPlaced(c, pre, f, post, lo, hi);
      var prun := c.bits[runInd - 1].top;
      newInd := runInd - prun;
      assert c.bits[newInd].top == prun && c.bits[newInd].dirty == f.dirty;
      JoinedAgrees(c, pre[|pre| - 1], f);
      IndexedPrev(runsAvail, others, a, pre, f, post, lo, hi);
      AvailRemove(a, newInd, prun, true, false, pre[..|pre| - 1], pre[|pre| - 1], [Taken(f)] + post);
      newSize := size + prun;
      c := SetUnallocatedSize(chunks[a], newInd, newSize);
      c := SetUnallocatedSize(c, newInd + newSize - 1, newSize);
      PutBits(a, c);
      BackwardLoose(old(chunks)[a], c, pre, f, post, lo, hi);
    }

    /** The size in pages of the allocated run at a page. */
    function RunPages(c: Chunk, pageind: nat): nat
      requires pageind < |c.bits| && (c.bits[pageind].large || c.bits[pageind].binind < |binRunPages|)
    {
      if c.bits[pageind].large then c.bits[pageind].top else binRunPages[c.bits[pageind].binind]
    }

    /** Mark the pages of a run unallocated in the chunk map. */
    method MarkFree(a: nat, runInd: nat, size: nat, dirty: bool, ghost pre: seq<Run>, ghost r: Run,
        ghost post: seq<Run>)
      requires Light() && a in chunks && ChunkInv(chunks[a], pre + [r] + post, lo, hi) && !IsFree(r)
      requires r.start == runInd && r.npages == size && Agrees(chunks[a].bits, r)
      requires Tiled(pre, lo, r.start) && Tiled(post, r.End(), hi)
      modifies this`chunks
      ensures Light() && a in chunks && chunks == old(chunks)[a := chunks[a]]
      ensures Loose(chunks[a], pre, Run(runInd, size, Free, dirty), post, lo, hi)
      ensures ZeroKept(old(chunks)[a].bits, chunks[a].bits, r.start, r.End(), dirty)
    {
      var c := WriteFree(chunks[a], runInd, size, dirty);
      PutBits(a, c);
      FreeLoose(old(chunks)[a], c, pre, r, post, dirty, lo, hi);
    }

    /** The first half of arena_run_dalloc: the pages of the run are marked free, and dirty if they are. */
    method Release(a: nat, runInd: nat, dirty0: bool, cleaned: bool, ghost pre: seq<Run>, ghost r: Run,
        ghost post: seq<Run>)
      returns (dirty: bool, size: nat)
      requires Light() && a in chunks && ChunkInv(chunks[a], pre + [r] + post, lo, hi)
      requires r.start == runInd && !IsFree(r)
      requires Tiled(pre, lo, r.start) && Tiled(post, r.End(), hi) && BinSized([r])
      modifies this`chunks, this`chunksDirty, this`ndirty, this`nactive
      ensures Light() && a in chunks && chunks == old(chunks)[a := chunks[a]] && nactive == old(nactive) - r.npages
      ensures dirty == (dirty0 || (!cleaned && r.dirty)) && size == r.npages
      ensures Loose(chunks[a], pre, Run(runInd, size, Free, dirty), post, lo, hi)
      ensures Coalesced(pre + [Taken(Run(runInd, size, Free, dirty))] + post)
      ensures ZeroKept(old(chunks)[a].bits, chunks[a].bits, r.start, r.End(), dirty)
    {
      hide Light, ChunkInv, AllAgree, Indexed, Placed, Counted, NAvail, NAdjac, NDirty, Tiled, Elms;
      RunWords(chunks[a], pre, r, post, lo, hi);
      size := RunPages(chunks[a], runInd);
      nactive := nactive - size;
      dirty := dirty0;
      assert chunks[a].bits[runInd].dirty == chunks[a].bits[runInd + size - 1].dirty;
      if !cleaned && chunks[a].bits[runInd].dirty {
        dirty := true;
      }
      MarkFree(a, runInd, size, dirty, pre, r, post);
    }

    /** arena_run_dalloc, up to the decision whether the chunk is now unused. */
    method RunDallocMap(a: nat, runInd: nat, dirty0: bool, cleaned: bool, ghost others: set<Elm>, ghost pre: seq<Run>,
        ghost r: Run, ghost post: seq<Run>)
      returns (dirty: bool, size: nat)
      requires Light() && a in chunks && ChunkInv(chunks[a], pre + [r] + post, lo, hi)
      requires r.start == runInd && !IsFree(r)
      requires Tiled(pre, lo, r.start) && Tiled(post, r.End(), hi)
      requires BinSized([r]) && Indexed(runsAvail, others, a, pre, post)
      modifies this`chunks, this`chunksDirty, this`ndirty, this`runsAvail, this`nactive
      ensures Light() && a in chunks && chunks == old(chunks)[a := chunks[a]] && nactive == old(nactive) - r.npages
      ensures dirty == (dirty0 || (!cleaned && r.dirty))
      ensures ChunkInv(chunks[a], Freed(pre, r, dirty, post), lo, hi)
      ensures runsAvail == others + Elms(a, Freed(pre, r, dirty, post))
      ensures size == Backward(pre, Forward(Run(runInd, r.npages, Free, dirty), post)).npages
      ensures ZeroKept(old(chunks)[a].bits, chunks[a].bits, r.start, r.End(), dirty)
    {
      hide Light, ChunkInv, AllAgree, Indexed, Placed, Counted, NAvail, NAdjac, NDirty, Tiled, Elms, Loose;
      dirty, size := Release(a, runInd, dirty0, cleaned, pre, r, post);
      ghost var f := Run(runInd, size, Free, dirty);
      size := CoalesceForward(a, size, runInd, dirty, others, pre, f, post);
      ghost var g, post' := Forward(f, post), ForwardRest(f, post);
      var ind;
      size, ind := CoalesceBackward(a, size, runInd, dirty, others, pre, g, post');
      ghost var h, pre' := Backward(pre, g), BackwardRest(pre, g);
      FreeInsert(a, ind, size, others, pre', h, post', pre, f, post);
    }

    /** Insert into runs_avail, now that coalescing is complete. */
    method FreeInsert(a: nat, ind: nat, size: nat, ghost others: set<Elm>, ghost pre': seq<Run>, ghost h: Run,
        ghost post': seq<Run>, ghost pre: seq<Run>, ghost f: Run, ghost post: seq<Run>)
      requires Light() && a in chunks && Loose(chunks[a], pre', h, post', lo, hi) && h.start == ind && h.npages == size
      requires Indexed(runsAvail, others, a, pre', post')
      requires IsFree(f) && Coalesced(pre + [Taken(f)] + post)
      requires h == Backward(pre, Forward(f, post))
      requires pre' == BackwardRest(pre, Forward(f, post)) && post' == ForwardRest(f, post)
      modifies this`chunks, this`chunksDirty, this`ndirty, this`runsAvail
      ensures Light() && a in chunks && chunks == old(chunks)[a := chunks[a]]
      ensures ChunkInv(chunks[a], pre' + [h] + post', lo, hi)
      ensures runsAvail == others + Elms(a, pre' + [h] + post') && chunks[a].bits == old(chunks)[a].bits
    {
      FreedCoalesced(pre, f, post);
      FreedPlaced(chunks[a], pre', h, post', lo, hi);
      IndexedNot(runsAvail, others, a, pre', h, post', lo, hi);
      IndexedAll(runsAvail, others, a, pre', h, post');
      assert chunks[a].bits[ind].top == chunks[a].bits[ind + size - 1].top;
      assert chunks[a].bits[ind].dirty == chunks[a].bits[ind + size - 1].dirty;
      AvailInsert(a, ind, size, true, true, pre', h, post');
      FreedInv(old(chunks)[a], chunks[a], pre', h, post', lo, hi);
    }

    /** arena_chunk_dealloc: a chunk that is one free run becomes the spare; the old spare is given back. */
    method ChunkDealloc(a: nat)
      requires Valid() && a in chunks && spare != Spare(a) && |runs[a]| == 1 && IsFree(runs[a][0])
      modifies this
      ensures Valid() && spare == Spare(a) && runs == old(runs) - (if old(spare).Spare? then {old(spare).addr} else {})
      ensures npurgatory == old(npurgatory) && a in chunks && chunks[a].bits == old(chunks)[a].bits
      ensures forall b :: b in chunks && b != a ==> b in old(chunks) && chunks[b] == old(chunks)[b]
    {
      hide ArenaInv, DirtyIndex, DirtyPages, Placed, Counted, SpareInv;
      ghost var v, f := Now(), runs[a][0];
      SpareReady(v, a, lo, hi);
      AvailRemove(a, lo, hi - lo, false, false, [], f, []);
      SpareDone(v.chunks[a], chunks[a], f, lo, hi);
      if spare.Spare? {
        ghost var chunks0 := chunks;
        DirtyIndexRemove(chunks, spare.addr);
        DirtyPagesRemove(chunks, spare.addr);
        chunks, runs := chunks - {spare.addr}, runs - {spare.addr};
      }
      spare := Spare(a);
      SpareCommit(v, Now(), a, lo, hi);
    }

    /** arena_run_dalloc, without the purge that a newly dirty run may trigger. */
    method RunDallocQuiet(a: nat, runInd: nat, dirty0: bool, cleaned: bool, ghost pre: seq<Run>, ghost r: Run,
        ghost post: seq<Run>)
      returns (dirty: bool)
      requires Valid() && a in chunks && spare != Spare(a)
      requires runs[a] == pre + [r] + post && !IsFree(r) && r.start == runInd
      requires Tiled(pre, lo, r.start) && Tiled(post, r.End(), hi)
      modifies this
      ensures Valid() && dirty == (dirty0 || (!cleaned && r.dirty)) && npurgatory == old(npurgatory)
      ensures FreedIn(old(runs), old(spare), runs, spare, a, Freed(pre, r, dirty, post))
      ensures a in chunks && ZeroKept(old(chunks)[a].bits, chunks[a].bits, r.start, r.End(), dirty)
      ensures forall b :: b in chunks && b != a ==> b in old(chunks) && chunks[b] == old(chunks)[b]
    {
      hide ArenaInv, ChunkInv, Freed, Forward, Backward, Elms, Others, Indexed, Tiled, DirtyIndex, DirtyPages;
      ghost var v := Now();
      OthersIndexed(v, a, pre, r, post, lo, hi);
      assert r in runs[a];
      var size;
      dirty, size := RunDallocMap(a, runInd, dirty0, cleaned, Others(runsAvail, a), pre, r, post);
      ghost var rs := Freed(pre, r, dirty, post);
      assert BinSized(runs[a]);
      FreedCounts(pre, r, dirty, post);
      FreedWhole(pre, r, dirty, post, lo, hi);
      runs := runs[a := rs];
      WholeCommit(v, Now(), a, rs, r.npages, lo, hi);
      if size == hi - lo {
        ChunkDealloc(a);
      }
    }

    /** Over memory that is not zeroed all pages are marked so; zeroed memory holds a map without such marks. */
    ghost predicate ZeroTold(bits: seq<Word>, memory: seq<Word>, zero: bool) {
      (!zero || forall w :: w in memory ==> !w.unzeroed) ==>
        forall p :: lo <= p < hi && p < |bits| ==> bits[p].unzeroed == !zero
    }

    /** arena_chunk_init_hard: the map of a new chunk, over memory that is zeroed or not. */
    method ChunkInitHard(memory: seq<Word>, zero: bool) returns (c: Chunk)
      requires |memory| == hi && lo < hi
      ensures SpareInv(c, [Run(lo, hi - lo, Free, false)], lo, hi) && ZeroTold(c.bits, memory, zero)
    {
      c := SetUnallocated(Chunk(memory, 0, 0, 0), lo, hi - lo, false, !zero);
      if !zero {
        var i := lo + 1;
        while i < hi - 1
          invariant lo < i && c == Chunk(c.bits, 0, 0, 0) && |c.bits| == hi
          invariant c.bits[lo] == Word(hi - lo, BININD_INVALID, false, !zero, false, false)
          invariant forall p :: lo <= p < i && p < hi ==> p == lo || (p < hi - 1 && c.bits[p].unzeroed) || p == hi - 1
        {
          c := SetUnzeroed(c, i, true);
          i := i + 1;
        }
      }
      c := SetUnallocated(c, hi - 1, hi - lo, false, !zero);
    }

    /**
     arena_chunk_alloc: put the spare to use, or a new chunk at the address given.  Without memory for a new one the
     null chunk is not tested for, but written through by arena_avail_insert: a crash.
     */
    method ChunkAlloc(addr: nat, memory: seq<Word>, zero: bool, oom: bool) returns (crash: bool, a: nat)
      requires Valid() && addr !in chunks && |memory| == hi
      modifies this
      ensures crash <==> oom && old(spare) == NoSpare
      ensures crash ==> unchanged(this)
      ensures !crash
          ==> Valid() && a in chunks && spare == NoSpare && npurgatory == old(npurgatory)
              && (if old(spare).Spare? then a == old(spare).addr && runs == old(runs)
                  else a == addr && runs == old(runs)[addr := [Run(lo, hi - lo, Free, false)]])
              && |runs[a]| == 1 && IsFree(runs[a][0]) && runs[a][0].start == lo && runs[a][0].End() == hi
      ensures !crash
          ==> chunks == old(chunks)[a := chunks[a]]
              && if old(spare).Spare? then a in old(chunks) && chunks[a].bits == old(chunks)[a].bits
                 else ZeroTold(chunks[a].bits, memory, zero)
    {
      hide ArenaInv, DirtyIndex, DirtyPages, ChunkInv, Placed, AvailIndex;
      crash := false;
      if spare.Spare? {
        a := spare.addr;
      } else if oom {
        return true, 0;
      } else {
        a := addr;
        var c := ChunkInitHard(memory, zero);
        FreshSpare(Now(), a, c, Run(lo, hi - lo, Free, false), lo, hi);
        DirtyIndexUpdate(chunks, a, c);
        DirtyPagesUpdate(chunks, a, c);
        chunks, runs := chunks[a := c], runs[a := [Run(lo, hi - lo, Free, false)]];
      }
      ghost var v := View(chunks, runs, Spare(a), runsAvail, nactive);
      SpareOut(v, a, lo, hi);
      spare := NoSpare;
      AvailInsert(a, lo, hi - lo, false, false, [], runs[a][0], []);
      SpareTaken(v, Now(), a, lo, hi);
    }

    /** The lowest best fit in runs_avail, as nsearch on the tree finds it. */
    method NSearch(size: nat) returns (found: bool, e: Elm)
      ensures found == exists x :: x in runsAvail && size <= x.size
      ensures found ==> BestFit(runsAvail, size, e)
    {
      found := exists x :: x in runsAvail && size <= x.size;
      e := Elm(0, 0, 0);
      if found {
        ghost var m := BestFitExists(runsAvail, size);
        e :| e in runsAvail && size <= e.size
          && forall x :: x in runsAvail && size <= x.size ==> x == e || AvailLess(e, x);
      }
    }

    /** What a caller of arena_run_alloc_large or arena_run_alloc_small gets. */
    ghost predicate KindFits(kind: Kind, need: nat) {
      kind.Large? || (kind.Small? && kind.binind < |binRunPages| && binRunPages[kind.binind] == need)
    }

    lemma Keys()
      requires Valid()
      ensures chunks.Keys == runs.Keys
    {
    }

    /** The helpers: allocate from the lowest best fit, if any run fits. */
    method RunAllocHelper(need: nat, kind: Kind) returns (found: bool, a: nat, runInd: nat, ghost r: Run)
      requires Valid() && 0 < need && KindFits(kind, need)
      modifies this
      ensures Valid() && npurgatory == old(npurgatory) && found == exists x :: x in old(runsAvail) && need <= x.size
      ensures !found ==> unchanged(this)
      ensures found
          ==> r == Run(runInd, need, kind, r.dirty) && (a, r) !in old(Used(runs))
              && Used(runs) == old(Used(runs)) + {(a, r)}
      ensures found ==> exists size :: BestFit(old(runsAvail), need, Elm(a, runInd, size))
      ensures found ==> nactive == old(nactive) + need && ndirty == old(ndirty) - (if r.dirty then need else 0)
      ensures found ==> spare == old(spare) && Took(old(runs), runs, a, r)
      ensures found
          ==> a in old(chunks) && a in chunks && chunks == old(chunks)[a := chunks[a]]
              && CleanKept(old(chunks)[a].bits, chunks[a].bits, old(runs)[a])
    {
      hide ArenaInv, DirtyIndex, DirtyPages, Took, CleanKept;
      a, runInd, r := 0, 0, Run(0, 0, kind, false);
      var e;
      found, e := NSearch(need);
      if found {
        a, runInd := e.addr, e.pageind;
        ghost var f := IndexedRun(Now(), e, lo, hi);
        assert BestFit(runsAvail, need, Elm(a, runInd, e.size));
        r := RunSplit(a, runInd, need, kind, f);
      }
    }

    /** Split a free run for a large or small allocation. */
    method RunSplit(a: nat, runInd: nat, need: nat, kind: Kind, ghost f: Run) returns (ghost r: Run)
      requires Valid() && 0 < need <= f.npages && KindFits(kind, need) && a in chunks && spare != Spare(a)
      requires f in runs[a] && IsFree(f) && f.start == runInd && Tiled(runs[a], lo, hi)
      modifies this
      ensures Valid() && npurgatory == old(npurgatory) && spare == old(spare)
      ensures r == Run(runInd, need, kind, f.dirty) && (a, r) !in old(Used(runs))
      ensures Used(runs) == old(Used(runs)) + {(a, r)}
      ensures nactive == old(nactive) + need && ndirty == old(ndirty) - (if r.dirty then need else 0)
      ensures Took(old(runs), runs, a, r) && a in chunks && chunks == old(chunks)[a := chunks[a]]
      ensures CleanKept(old(chunks)[a].bits, chunks[a].bits, old(runs)[a])
    {
      hide ArenaInv, DirtyIndex, DirtyPages, Used, Took, Dirt, ActivePages, SplitMid, BinSized, Light,
          CleanKept, ZeroKept;
      ghost var pre, post := Locate(runs[a], f, lo, hi);
      SplitEffect(runs, spare, a, pre, f, post, need, kind, lo, hi);
      SplitTook(runs, a, pre, f, post, need, kind, lo, hi);
      Totals();
      if kind.Large? {
        SplitLarge(a, runInd, need, pre, f, post);
      } else {
        SplitSmall(a, runInd, need, kind.binind, pre, f, post);
      }
      Totals();
      r := Run(runInd, need, kind, f.dirty);
      CleanKeptIn(old(chunks)[a].bits, chunks[a].bits, old(runs)[a], f);
    }

    /** The counters are determined by the runs. */
    lemma Totals()
      requires Valid()
      ensures ndirty == Dirt(runs, spare) && nactive == ActivePages(runs) && SpareRuns(runs, spare)
    {
      DirtAgrees(Now(), lo, hi);
      SpareRunsHold(Now(), lo, hi);
    }

    /** No run fits: the allocation is made in a chunk that is one free run, the spare or a new one. */
    method FromChunk(need: nat, kind: Kind, addr: nat, memory: seq<Word>, zero: bool, oom: bool)
      returns (crash: bool, a: nat, ghost r: Run)
      requires Valid() && 0 < need <= hi - lo && KindFits(kind, need) && addr !in chunks && |memory| == hi
      modifies this
      ensures crash <==> oom && old(spare) == NoSpare
      ensures Valid() && npurgatory == old(npurgatory) && (crash ==> unchanged(this))
      ensures !crash
          ==> nactive == old(nactive) + need && r == Run(lo, need, kind, r.dirty)
              && (a, r) !in old(Used(runs)) && Used(runs) == old(Used(runs)) + {(a, r)}
              && a == if old(spare).Spare? then old(spare).addr else addr
      ensures !crash ==> TookChunk(old(runs), old(spare), a, r) && ndirty == old(ndirty) + AddsDirty(r)
      ensures !crash ==> a in chunks && ZeroAfter(old(chunks), old(runs), a, memory, zero)
    {
      Totals();
      ghost var f0 := Run(lo, hi - lo, Free, false);
      NoneUsed(runs, addr, f0);
      FreshDirt(runs, addr, f0);
      r := Run(lo, need, kind, false);
      crash, a := ChunkAlloc(addr, memory, zero, oom);
      if !crash {
        assert addr !in old(chunks);
        Whole(a);
        hide ArenaInv, DirtyIndex, DirtyPages, SpareInv, Used, ActivePages, Dirt, Took, Tiled, SpareRuns, Light,
            BinSized, CleanKept, ZeroTold, ZeroAfter;
        ghost var m, rs := chunks[a].bits, runs[a];
        r := RunSplit(a, lo, need, kind, runs[a][0]);
        ZeroAfterSplit(old(chunks), old(runs), a, m, rs, memory, zero);
      }
    }

    lemma ZeroAfterSplit(chunks0: map<nat, Chunk>, runs0: map<nat, seq<Run>>, a: nat, m: seq<Word>, rs: seq<Run>,
        memory: seq<Word>, zero: bool)
      requires a in chunks && CleanKept(m, chunks[a].bits, rs) && |rs| == 1
      requires if a in chunks0 && a in runs0 then m == chunks0[a].bits && rs == runs0[a]
               else !rs[0].dirty && ZeroTold(m, memory, zero)
      ensures ZeroAfter(chunks0, runs0, a, memory, zero)
    {
    }

    /** A chunk in use that is one free run. */
    lemma Whole(a: nat)
      requires Valid() && a in runs && spare == NoSpare && |runs[a]| == 1
      requires IsFree(runs[a][0]) && runs[a][0].start == lo && runs[a][0].End() == hi
      ensures runs[a] == [runs[a][0]] && Tiled(runs[a], lo, hi) && nactive == ActivePages(runs)
      ensures ndirty == Dirt(runs, NoSpare) == Dirt(runs, Spare(a)) + (if runs[a][0].dirty then hi - lo else 0)
    {
      Totals();
      assert runs[a] == [runs[a][0]] && runs[a][1..] == [];
      SpareDirt(runs, a, runs[a][0]);
    }

    /** A run taken from the front of a chunk that was one free run: the spare, which it no longer is, or a new one. */
    ghost predicate TookChunk(runs0: map<nat, seq<Run>>, spare0: Spare, a: nat, r: Run)
      reads this
    {
      && lo <= hi && spare == NoSpare
      && Took(if a in runs0 then runs0 else runs0[a := [Run(lo, hi - lo, Free, false)]], runs, a, r)
      && (r.dirty <==> spare0 == Spare(a) && a in runs0 && |runs0[a]| == 1 && runs0[a][0].dirty)
    }

    /** What is known to be zero of the chunk a from which a run was taken, be it a new one or not. */
    ghost predicate ZeroAfter(chunks0: map<nat, Chunk>, runs0: map<nat, seq<Run>>, a: nat, memory: seq<Word>,
        zero: bool)
      requires a in chunks
      reads this
    {
      if a in chunks0 && a in runs0 then CleanKept(chunks0[a].bits, chunks[a].bits, runs0[a])
      else ZeroTold(chunks[a].bits, memory, zero)
    }

    /** The spare's pages do not count as dirty; what is left of a dirty one that is put to use does. */
    ghost function AddsDirty(r: Run): int {
      if r.dirty then hi - r.End() else 0
    }

    /** arena_run_alloc_large and arena_run_alloc_small, which differ in how the run found is split. */
    method RunAlloc(need: nat, kind: Kind, addr: nat, memory: seq<Word>, zero: bool, oom: bool)
      returns (crash: bool, a: nat, runInd: nat, ghost r: Run)
      requires Valid() && 0 < need <= hi - lo && KindFits(kind, need) && addr !in chunks && |memory| == hi
      modifies this
      // Null is promised when there is no memory; instead the null chunk is used before the search that comes then.
      ensures crash <==> oom && old(spare) == NoSpare && !exists x :: x in old(runsAvail) && need <= x.size
      ensures Valid() && npurgatory == old(npurgatory) && (crash ==> unchanged(this))
      ensures !crash
          ==> nactive == old(nactive) + need && r == Run(runInd, need, kind, r.dirty)
              && (a, r) !in old(Used(runs)) && Used(runs) == old(Used(runs)) + {(a, r)}
      ensures (exists x :: x in old(runsAvail) && need <= x.size)
          ==> exists size :: BestFit(old(runsAvail), need, Elm(a, runInd, size))
      ensures !crash && !(exists x :: x in old(runsAvail) && need <= x.size)
          ==> runInd == lo && a == if old(spare).Spare? then old(spare).addr else addr
      ensures (exists x :: x in old(runsAvail) && need <= x.size)
          ==> spare == old(spare) && Took(old(runs), runs, a, r)
              && ndirty == old(ndirty) - (if r.dirty then need else 0)
      ensures !crash && !(exists x :: x in old(runsAvail) && need <= x.size)
          ==> TookChunk(old(runs), old(spare), a, r) && ndirty == old(ndirty) + AddsDirty(r)
      ensures !crash ==> a in chunks && ZeroAfter(old(chunks), old(runs), a, memory, zero)
    {
      hide ArenaInv, Valid, Used, Took, TookChunk, AddsDirty, CleanKept, ZeroTold, BestFit, KindFits, DirtyIndex,
          DirtyPages;
      assert chunks.Keys == runs.Keys by {
        Keys();
      }
      crash := false;
      var found;
      found, a, runInd, r := RunAllocHelper(need, kind);
      if !found {
        runInd := lo;
        crash, a, r := FromChunk(need, kind, addr, memory, zero, oom);
      }
    }

    /** A chunk other than the spare. */
    lemma InUse(a: nat)
      requires Valid() && a in chunks && spare != Spare(a)
      ensures ChunkInv(chunks[a], runs[a], lo, hi) && Tiled(runs[a], lo, hi)
    {
    }

    /** arena_run_dalloc of a run named by its first page, again without the purge. */
    method RunDallocAt(a: nat, runInd: nat, dirty0: bool, cleaned: bool, ghost r: Run) returns (dirty: bool)
      requires Valid() && (a, r) in Used(runs) && r.start == runInd
      modifies this
      ensures Valid() && npurgatory == old(npurgatory) && dirty == (dirty0 || (!cleaned && r.dirty))
      ensures Used(runs) == old(Used(runs)) - {(a, r)} && nactive == old(nactive) - r.npages
      ensures Released(old(runs), old(spare), runs, spare, a, runInd, r.End(), dirty)
      ensures ndirty == old(ndirty) + Dirtied(old(runs), a, r.npages, dirty, spare)
      ensures !dirty ==> ndirty == old(ndirty)
      ensures NDirty(runs[a]) == NDirty(old(runs)[a]) + (if dirty then r.npages else 0)
      ensures a in old(chunks) && a in chunks && ZeroKept(old(chunks)[a].bits, chunks[a].bits, runInd, r.End(), dirty)
      ensures forall b :: b in chunks && b != a ==> b in old(chunks) && chunks[b] == old(chunks)[b]
    {
      hide ArenaInv, DirtyIndex, DirtyPages, FreedIn, Freed, ChunkInv, Released;
      Totals();
      UsedNotSpare(runs, spare, a, r);
      hide Used;
      InUse(a);
      ghost var pre, post := Locate(runs[a], r, lo, hi);
      dirty := RunDallocQuiet(a, runInd, dirty0, cleaned, pre, r, post);
      FreedEffect(old(runs), old(spare), runs, spare, a, pre, r, dirty, post, lo, hi);
      FreedReleases(old(runs), old(spare), runs, spare, a, pre, r, dirty, post, lo, hi);
      Totals();
    }

    // ----- Purging

    /** Temporarily allocate one free dirty run. */
    method StashRun(a: nat, pageind: nat, npages: nat, ghost pre: seq<Run>, ghost r: Run, ghost post: seq<Run>)
      requires Valid() && a in chunks && spare != Spare(a) && At(runs[a], pre, r, post, lo, hi)
      requires IsFree(r) && r.dirty && r.start == pageind && r.npages == npages
      modifies this
      ensures Valid() && spare == old(spare) && npurgatory == old(npurgatory)
      ensures runs == old(runs)[a := pre + [Taken(r)] + post]
      ensures (a, Taken(r)) !in old(Used(runs)) && Used(runs) == old(Used(runs)) + {(a, Taken(r))}
      ensures ndirty == old(ndirty) - npages && nactive == old(nactive) + npages
      ensures NDirty(runs[a]) == NDirty(old(runs[a])) - npages
      ensures forall p :: FreeAt(runs[a], p, true) ==> FreeAt(old(runs)[a], p, true)
      ensures a in chunks && CleanKept(old(chunks)[a].bits, chunks[a].bits, old(runs)[a])
    {
      hide ArenaInv, DirtyIndex, DirtyPages, CleanKept;
      Totals();
      SplitPages(pre, r, post, npages, Large, lo, hi);
      SplitEffect(runs, spare, a, pre, r, post, npages, Large, lo, hi);
      SplitEffectCounts(pre, r, post, npages, Large);
      SplitLarge(a, pageind, npages, pre, r, post);
      assert SplitMid(r, npages, Large) == [Taken(r)];
      CleanKeptIn(old(chunks)[a].bits, chunks[a].bits, old(runs)[a], r);
      Totals();
    }

    /** In the middle of scanning chunk a: what was done to a state with the given runs and counters. */
    ghost predicate Scanning(a: nat, all: bool, pageind: nat, stash: seq<nat>, taken: seq<Run>, done: seq<Run>,
        rest: seq<Run>, v: View)
      reads this
    {
      && Valid() && a in chunks && spare != Spare(a) && a in v.chunks
      && ScanState(a, all, lo, pageind, hi, stash, taken, done, rest, v.runs, runs, v.chunks[a].bits, chunks[a].bits,
          ndirty - DirtyPages(v.chunks), nactive - v.nactive)
    }

    /** One step of the scan. */
    method StashNext(a: nat, all: bool, pageind: nat, stash: seq<nat>, ghost taken: seq<Run>, ghost done: seq<Run>,
        ghost rest: seq<Run>, ghost v: View)
      returns (npages: nat, stash': seq<nat>, ghost taken': seq<Run>, ghost x: Run)
      requires Scanning(a, all, pageind, stash, taken, done, rest, v) && pageind < hi
      modifies this
      ensures rest != [] && 0 < npages && spare == old(spare) && npurgatory == old(npurgatory)
      ensures Scanning(a, all, pageind + npages, stash', taken', done + [x], rest[1..], v)
    {
      hide Scanning, ScanState, Valid, Stashes, AdjacPred, AdjacSucc, RunPages, IsFree;
      ghost var r, post := ScanHere(a, all, pageind, stash, taken, done, rest, v);
      var c := chunks[a];
      x, stash', taken' := r, stash, taken;
      if !c.bits[pageind].alloc {
        npages := c.bits[pageind].top;
        if c.bits[pageind].dirty && (all || AdjacPred(c, pageind, lo) || AdjacSucc(c, pageind, npages, hi)) {
          x := Taken(r);
          StashTake(a, all, pageind, npages, stash, taken, done, r, post, v);
          stash', taken' := stash + [pageind], taken + [x];
          return;
        }
      } else {
        npages := RunPages(c, pageind);
      }
      ScanSkip(a, all, stash, taken, done, r, post, v);
    }

    /** The run at the page that the scan has come to, as its words describe it. */
    lemma ScanHere(a: nat, all: bool, pageind: nat, stash: seq<nat>, taken: seq<Run>, done: seq<Run>, rest: seq<Run>,
        v: View)
      returns (r: Run, post: seq<Run>)
      requires Scanning(a, all, pageind, stash, taken, done, rest, v) && pageind < hi
      ensures rest != [] && r == rest[0] && post == rest[1..] && r.start == pageind && 0 < r.npages
      ensures Scanning(a, all, r.start, stash, taken, done, [r] + post, v)
      ensures a in chunks && r.End() <= hi == |chunks[a].bits|
      ensures var c := chunks[a];
        && (!c.bits[pageind].alloc ==> c.bits[pageind].top == r.npages)
        && (Stashes(all, done, r, post) <==>
            !c.bits[pageind].alloc && c.bits[pageind].dirty
                && (all || AdjacPred(c, pageind, lo) || AdjacSucc(c, pageind, r.npages, hi)))
        && (c.bits[pageind].alloc ==>
            (c.bits[pageind].large || c.bits[pageind].binind < |binRunPages|) && RunPages(c, pageind) == r.npages)
    {
      hide ArenaInv, DirtyIndex, DirtyPages, Used, UsedIn, Scanned, ChunkInv, Stashed, NActive, NDirty, AdjacPred,
          AdjacSucc, Coalesced, LastFree, FirstFree, Picked, FreeAt;
      r, post := rest[0], rest[1..];
      NextRun(done, rest, lo, pageind, hi);
      InUse(a);
      Spread(a, done, rest);
      ScanLook(chunks[a], done, r, post, lo, hi);
    }

    lemma ScanSkip(a: nat, all: bool, stash: seq<nat>, taken: seq<Run>, done: seq<Run>, r: Run, post: seq<Run>,
        v: View)
      requires Scanning(a, all, r.start, stash, taken, done, [r] + post, v)
      requires !Stashes(all, done, r, post)
      ensures Scanning(a, all, r.End(), stash, taken, done + [r], post, v)
    {
      hide Used, UsedIn, Scanned, NActive, NDirty, Picked, FreeAt, Stashed, ArenaInv, Light, DirtyIndex, DirtyPages,
          BinSized, Tiled, Coalesced, Stashes;
      SpreadOne(a, done, r, post);
      hide Valid, ScanState;
      SkipNext(a, all, lo, hi, stash, taken, done, r, post, v.runs, runs, v.chunks[a].bits, chunks[a].bits,
          ndirty - DirtyPages(v.chunks), nactive - v.nactive);
    }

    /** Take a run out of the free ones and append it to the list. */
    method StashTake(a: nat, all: bool, pageind: nat, npages: nat, ghost stash: seq<nat>, ghost taken: seq<Run>,
        ghost done: seq<Run>, ghost r: Run, ghost post: seq<Run>, ghost v: View)
      requires Scanning(a, all, r.start, stash, taken, done, [r] + post, v)
      requires Stashes(all, done, r, post) && pageind == r.start < hi && npages == r.npages
      modifies this
      ensures spare == old(spare) && npurgatory == old(npurgatory)
      ensures Scanning(a, all, r.End(), stash + [r.start], taken + [Taken(r)], done + [Taken(r)], post, v)
    {
      hide Used, UsedIn, Scanned, NActive, NDirty, Picked, FreeAt, Stashed, ArenaInv, Light, DirtyIndex, DirtyPages,
          BinSized, Tiled, Coalesced;
      SpreadOne(a, done, r, post);
      hide Valid;
      ghost var bits0, d, n := v.chunks[a].bits, DirtyPages(v.chunks), v.nactive;
      TakeAt(a, all, lo, hi, stash, taken, done, r, post, v.runs, runs, bits0, chunks[a].bits, ndirty - d, nactive - n);
      hide ScanState, Stashes, At, Used, FreeAt, NDirty;
      StashRun(a, pageind, npages, done, r, post);
      TakeNext(a, all, lo, hi, stash, taken, done, r, post, v.runs, old(runs), runs, bits0, old(chunks)[a].bits,
          chunks[a].bits, old(ndirty) - d, old(nactive) - n);
    }

    lemma SpreadOne(a: nat, done: seq<Run>, r: Run, post: seq<Run>)
      requires Valid() && a in chunks && spare != Spare(a) && runs[a] == done + ([r] + post)
      ensures done + [r] + post == runs[a] && Coalesced(done + [r] + post)
    {
      assert ([r] + post)[1..] == post && ([r] + post)[0] == r;
      Spread(a, done, [r] + post);
    }

    /** What the invariant says of the runs that a chunk's runs are split into. */
    lemma Spread(a: nat, done: seq<Run>, rest: seq<Run>)
      requires Valid() && a in chunks && spare != Spare(a) && runs[a] == done + rest && rest != []
      ensures done + [rest[0]] + rest[1..] == done + rest && Coalesced(done + [rest[0]] + rest[1..])
      ensures BinSized([rest[0]])
    {
      assert done + [rest[0]] + rest[1..] == done + rest;
      assert rest[0] in runs[a];
      InUse(a);
    }

    lemma ScanStart(a: nat, all: bool)
      requires Valid() && a in chunks && spare != Spare(a)
      ensures Scanning(a, all, lo, [], [], [], runs[a], Now())
      ensures chunks[a].ndirty == NDirty(runs[a]) && chunks[a].nrunsAdjac == NAdjac(runs[a])
    {
      hide ArenaInv, DirtyIndex, DirtyPages, Used;
      InUse(a);
      assert [] + runs[a] == runs[a];
    }

    lemma ScanEnd(a: nat, all: bool, pageind: nat, stash: seq<nat>, taken: seq<Run>, done: seq<Run>, rest: seq<Run>,
        v: View)
      requires Scanning(a, all, pageind, stash, taken, done, rest, v) && hi <= pageind
      ensures Valid() && a in chunks && Stashed(stash, taken) && UsedIn(a, taken) !! Used(v.runs)
      ensures a in v.runs && a in v.chunks && runs == v.runs[a := runs[a]]
      ensures Used(runs) == Used(v.runs) + UsedIn(a, taken) && NActive(taken) == Picked(all, false, v.runs[a])
      ensures ndirty == DirtyPages(v.chunks) - NActive(taken) && nactive == v.nactive + NActive(taken)
      ensures chunks[a].ndirty == NDirty(v.runs[a]) - NActive(taken) && chunks[a].nrunsAdjac == 0
      ensures (all ==> chunks[a].ndirty == 0) && (taken == [] ==> NAdjac(v.runs[a]) == 0)
      ensures forall p :: FreeAt(runs[a], p, true) || Covered(taken, p) ==> FreeAt(v.runs[a], p, true)
      ensures CleanKept(v.chunks[a].bits, chunks[a].bits, v.runs[a])
    {
      hide ArenaInv, DirtyIndex, DirtyPages, Used, UsedIn, Stashed, NActive, Covered, CleanKept, FreeAt;
      TiledBounds(rest, pageind, hi);
      assert done + [] == done;
      InUse(a);
    }

    /** arena_chunk_stash_dirty: allocate the dirty runs that are to be purged, and list them. */
    method StashDirty(a: nat, all: bool) returns (stash: seq<nat>, ghost taken: seq<Run>)
      requires Valid() && a in chunks && spare != Spare(a)
      modifies this
      ensures Valid() && spare == old(spare) && npurgatory == old(npurgatory) && a in chunks
      ensures Stashed(stash, taken) && UsedIn(a, taken) !! old(Used(runs))
      ensures Used(runs) == old(Used(runs)) + UsedIn(a, taken)
      ensures ndirty == old(ndirty) - NActive(taken) && nactive == old(nactive) + NActive(taken)
      ensures chunks[a].ndirty == old(chunks[a].ndirty) - NActive(taken)
      ensures chunks[a].nrunsAdjac == 0 && (all ==> chunks[a].ndirty == 0)
      ensures taken == [] ==> chunks[a].nrunsAdjac == old(chunks[a].nrunsAdjac)
      ensures runs == old(runs)[a := runs[a]] && NActive(taken) == Picked(all, false, old(runs)[a])
      ensures forall p :: FreeAt(runs[a], p, true) || Covered(taken, p) ==> FreeAt(old(runs)[a], p, true)
      ensures CleanKept(old(chunks)[a].bits, chunks[a].bits, old(runs)[a])
    {
      hide Scanning, ArenaInv, DirtyIndex, DirtyPages, Used, UsedIn, NActive, NDirty, NAdjac, Stashed, Picked, FreeAt,
          Covered, CleanKept;
      NonNegative();
      ScanStart(a, all);
      stash, taken := [], [];
      var pageind := lo;
      ghost var done, rest := [], runs[a];
      while pageind < hi
        invariant Scanning(a, all, pageind, stash, taken, done, rest, old(Now()))
        invariant spare == old(spare) && npurgatory == old(npurgatory)
      {
        var npages;
        ghost var x;
        npages, stash, taken, x := StashNext(a, all, pageind, stash, taken, done, rest, old(Now()));
        done, rest, pageind := done + [x], rest[1..], pageind + npages;
      }
      ScanEnd(a, all, pageind, stash, taken, done, rest, old(Now()));
    }

    /** arena_chunk_purge_stashed: give the pages back; flags tells for each run what pages_purge answered. */
    method PurgeStashed(a: nat, stash: seq<nat>, ghost taken: seq<Run>) returns (npurged: nat, flags: seq<bool>)
      requires Valid() && a in chunks && spare != Spare(a)
      requires Stashed(stash, taken) && forall r :: r in taken ==> r in runs[a]
      modifies this`chunks
      ensures Valid() && chunks == old(chunks)[a := chunks[a]] && chunks[a] == old(chunks[a]).(bits := chunks[a].bits)
      ensures npurged == NActive(taken) && |flags| == |stash| && Flagged(chunks[a].bits, taken, flags)
      ensures Untaken(old(chunks[a].bits), chunks[a].bits, taken)
    {
      hide ArenaInv, DirtyIndex, DirtyPages, NActive, ChunkInv, Flagged, Untaken;
      InUse(a);
      ghost var v := Now();
      var c;
      c, npurged, flags := PurgeRuns(chunks[a], stash, taken, runs[a]);
      PutBits(a, c);
      UnzeroedInv(v, a, c, lo, hi);
    }

    /** Purge the runs listed of one chunk, and note in the map whether their pages are zero now. */
    method PurgeRuns(c0: Chunk, stash: seq<nat>, ghost taken: seq<Run>, ghost rs: seq<Run>)
      returns (c: Chunk, npurged: nat, flags: seq<bool>)
      requires ChunkInv(c0, rs, lo, hi) && Stashed(stash, taken) && forall r :: r in taken ==> r in rs
      ensures c == c0.(bits := c.bits) && SameButUnzeroed(c0.bits, c.bits)
      ensures npurged == NActive(taken) && |flags| == |stash| && Flagged(c.bits, taken, flags)
      ensures Untaken(c0.bits, c.bits, taken)
    {
      assert taken[..0] == [] && NActive([]) == 0 && Untaken(c0.bits, c0.bits, taken);
      hide NActive, ChunkInv, Flagged, Agrees, Untaken;
      c, npurged, flags := c0, 0, [];
      assert Flagged(c.bits, taken, flags) by {
        FlaggedNone(c.bits, taken);
      }
      while |flags| < |stash|
        invariant |flags| <= |stash| && npurged == NActive(taken[..|flags|])
        invariant SameButUnzeroed(c0.bits, c.bits) && c == c0.(bits := c.bits) && Flagged(c.bits, taken, flags)
        invariant Untaken(c0.bits, c.bits, taken)
      {
        ghost var r := taken[|flags|];
        LargeWords(c0, rs, r, lo, hi);
        var pageind := stash[|flags|];
        var npages := c.bits[pageind].top;
        var unzeroed: bool := *;
        ghost var c1 := c;
        c := MarkPurged(c, pageind, npages, unzeroed);
        FlaggedMore(c1.bits, c.bits, stash, taken, flags, unzeroed);
        UntakenThen(c0.bits, c1.bits, c.bits, taken, r);
        TakeOne(taken, |flags|);
        npurged, flags := npurged + npages, flags + [unzeroed];
      }
      assert taken[..|flags|] == taken;
    }

    /** Set the unzeroed flag of all pages of a purged run. */
    method MarkPurged(c0: Chunk, pageind: nat, npages: nat, unzeroed: bool) returns (c: Chunk)
      requires pageind + npages <= |c0.bits|
      ensures c == c0.(bits := c.bits) && SameButUnzeroed(c0.bits, c.bits)
      ensures Outside(c0.bits, c.bits, pageind, pageind + npages)
      ensures forall p :: pageind <= p < pageind + npages ==> c.bits[p].unzeroed == unzeroed
    {
      c := c0;
      for i := 0 to npages
        invariant c == c0.(bits := c.bits) && SameButUnzeroed(c0.bits, c.bits)
        invariant Outside(c0.bits, c.bits, pageind, pageind + i)
        invariant forall p :: pageind <= p < pageind + i ==> c.bits[p].unzeroed == unzeroed
      {
        c := SetUnzeroed(c, pageind + i, unzeroed);
      }
    }

    /** Free the next of the runs, now clean. */
    method UnstashNext(a: nat, pageind: nat, ghost stash0: seq<nat>, ghost taken: seq<Run>, ghost i: nat,
        ghost used0: set<(nat, Run)>, ghost v: View)
      requires Valid() && Stashed(stash0, taken) && i < |stash0| && stash0[i] == pageind && UsedIn(a, taken) <= used0
      requires Used(runs) == used0 - UsedIn(a, taken[..i]) && SameDirty(v, Now(), a)
      modifies this
      ensures Valid() && npurgatory == old(npurgatory) && ndirty == old(ndirty) && i < |taken|
      ensures Used(runs) == used0 - UsedIn(a, taken[..i + 1]) && SameDirty(v, Now(), a)
      ensures nactive == old(nactive) + NActive(taken[..i]) - NActive(taken[..i + 1])
    {
      hide Valid, Used, UsedIn, SameDirty, Stashed, NActive, Released, ZeroKept;
      UnstashOne(a, stash0, taken, i, used0);
      ghost var r := taken[i];
      UsedWords(a, r);
      ghost var v1 := Now();
      var dirty := RunDallocAt(a, pageind, false, true, r);
      SameDirtyThen(v, v1, Now(), a, pageind, r.End());
    }

    /** arena_chunk_unstash_purged: free the runs again, now clean.  None of these frees starts another purge. */
    method UnstashPurged(a: nat, stash0: seq<nat>, ghost taken: seq<Run>)
      requires Valid() && Stashed(stash0, taken) && UsedIn(a, taken) <= Used(runs) && a in runs && a in chunks
      requires spare != Spare(a)
      modifies this
      ensures Valid() && npurgatory == old(npurgatory) && ndirty == old(ndirty)
      ensures Used(runs) == old(Used(runs)) - UsedIn(a, taken) && nactive == old(nactive) - NActive(taken)
      ensures SameDirty(old(Now()), Now(), a)
    {
      assert taken[..0] == [] && NActive([]) == 0 && UsedIn(a, []) == {};
      hide *;
      SameDirtyNow(Now(), a);
      StashLength(stash0, taken);
      var stash := stash0;
      ghost var i := 0;
      while stash != []
        invariant i <= |stash0| == |taken| && stash == stash0[i..] && Valid()
        invariant npurgatory == old(npurgatory) && ndirty == old(ndirty)
        invariant Used(runs) == old(Used(runs)) - UsedIn(a, taken[..i]) && nactive == old(nactive) - NActive(taken[..i])
        invariant SameDirty(old(Now()), Now(), a)
        decreases |stash|
      {
        var pageind := stash[0];
        stash := stash[1..];
        UnstashNext(a, pageind, stash0, taken, i, old(Used(runs)), old(Now()));
        i := i + 1;
      }
      assert taken[..i] == taken;
    }

    /** arena_chunk_purge */
    method ChunkPurge(a: nat, all0: bool) returns (npurged: nat)
      requires Valid() && a in chunks && spare != Spare(a) && 0 < chunks[a].ndirty
      modifies this
      ensures Valid() && npurgatory == old(npurgatory) && Used(runs) == old(Used(runs)) && nactive == old(nactive)
      ensures ndirty == old(ndirty) - npurged && 0 < npurged <= old(chunks[a].ndirty)
      ensures all0 || old(chunks[a].nrunsAdjac) == 0 ==> npurged == old(chunks[a].ndirty)
      ensures npurged == Picked(all0 || old(chunks[a].nrunsAdjac) == 0, false, old(runs)[a])
      ensures OnlyChunk(old(runs), old(spare), runs, spare, a)
      ensures forall p :: FreeAt(runs[a], p, true) ==> FreeAt(old(runs)[a], p, true)
      ensures a in chunks && CleanKept(old(chunks)[a].bits, chunks[a].bits, old(runs)[a])
    {
      hide ArenaInv, DirtyIndex, DirtyPages, Used, NActive, Picked, FreeAt, OnlyChunk, CleanKept, Covered, Untaken;
      var all := all0;
      if chunks[a].nrunsAdjac == 0 {
        all := true;
      }
      var stash;
      ghost var taken;
      stash, taken := StashDirty(a, all);
      NActivePositive(taken);
      UsedRuns(runs, a, taken);
      InUse(a);
      ghost var v1 := Now();
      var flags;
      npurged, flags := PurgeStashed(a, stash, taken);
      ghost var v2 := Now();
      UnstashPurged(a, stash, taken);
      PurgedOnly(old(Now()), v1, v2, Now(), a, taken);
    }

    /** nactive >> opt_lg_dirty_mult */
    function Threshold(): int
      requires 0 <= lgDirtyMult
      reads this`nactive
    {
      nactive / Pow2(lgDirtyMult)
    }

    /** arena_compute_npurgatory, in words that wrap. */
    function ComputeNpurgatory(all: bool): (n: int)
      requires all || 0 <= lgDirtyMult
      reads this`nactive, this`ndirty, this`npurgatory
      ensures 0 <= n < SIZE
      ensures ndirty < SIZE && 0 <= Allowed(all) && 0 <= npurgatory && (!all ==> npurgatory <= ndirty)
          ==> ndirty <= Allowed(all) + n
    {
      var npurgeable := Wrap(ndirty - npurgatory);
      if all then npurgeable else Wrap(npurgeable - Threshold())
    }

    /** The dirty pages that a purge may leave behind: those other threads purge, and the threshold. */
    ghost function Allowed(all: bool): int
      requires all || 0 <= lgDirtyMult
      reads this`nactive, this`npurgatory
    {
      npurgatory + if all then 0 else Threshold()
    }

    /**
     arena_purge: purge chunks, most compact first, until enough pages are clean.  If a round makes more pages clean
     than were still wanted, without having set out to, the count wraps and all that is dirty is purged.
     */
    method Purge(all: bool) returns (ghost t: Trace)
      requires Valid() && (all || 0 <= lgDirtyMult) && (!all ==> Allowed(all) < ndirty)
      modifies this
      ensures Valid() && npurgatory == old(npurgatory) && Used(runs) == old(Used(runs)) && nactive == old(nactive)
      ensures ndirty <= old(ndirty) && (old(ndirty) < SIZE ==> ndirty <= old(Allowed(all)))
      ensures Purged(t, old(Now()), Now(), all, old(Allowed(all)))
    {
      hide ArenaInv, DirtyIndex, DirtyPages, Used, Wrap, DirtyComp, Purged, Going, Rounds, Stops, Round, More;
      ghost var n := npurgatory;
      NonNegative();
      AllowedNonNegative(all);
      ghost var allowed := Allowed(all);
      var local := ComputeNpurgatory(all);
      t := PurgeStart(all, local);
      hide Allowed, Threshold;
      npurgatory := Wrap(npurgatory + local);
      while local > 0
        invariant Valid() && Used(runs) == old(Used(runs)) && nactive == old(nactive) && ndirty <= old(ndirty)
        invariant npurgatory == Wrap(n + local) && 0 <= local < SIZE
        invariant old(ndirty) < SIZE ==> ndirty <= old(Allowed(all)) + local
        invariant Purging(t, old(Now()), all, local, allowed)
        decreases ndirty
      {
        NonNegative();
        ghost var first := DirtyFirst(Now(), lo, hi);
        if chunksDirty == {} {
          WrapTogether(n, npurgatory, local, 0 - local);
          WrapAtLeast(0);
          WrapAtLeast(n);
          npurgatory := Wrap(npurgatory - local);
          PurgeEnds(t, old(Now()), all, local, allowed);
          return;
        }
        var e :| e in chunksDirty && forall x :: x in chunksDirty ==> DirtyComp(e, x) <= 0;
        local, t := PurgeRound(e, all, local, n, t, old(Now()), allowed);
      }
      PurgeEnds(t, old(Now()), all, local, allowed);
      WrapAtLeast(n);
    }

    /** Between two rounds: the rounds so far, and how many pages are still to be purged. */
    ghost predicate Purging(t: Trace, v: View, all: bool, local: int, allowed: int)
      reads this
    {
      && Rounds(t, all) && t.views[0] == v && Last(t) == Now() && 0 <= allowed
      && (DirtyPages(v.chunks) + allowed < SIZE ==> Going(t, local, allowed))
    }

    lemma PurgeStart(all: bool, local: int) returns (t: Trace)
      requires Valid() && (all || 0 <= lgDirtyMult) && local == ComputeNpurgatory(all)
      ensures Purging(t, Now(), all, local, Allowed(all))
    {
      hide DirtyPages, ArenaInv, DirtyIndex, Wrap, Going, Valid, Threshold, Allowed, ComputeNpurgatory;
      NonNegative();
      AllowedNonNegative(all);
      WantedIs(all);
      t := Trace([Now()], []);
      if DirtyPages(chunks) + Allowed(all) < SIZE {
        GoingStart(Now(), Allowed(all));
      }
    }

    lemma WantedIs(all: bool)
      requires all || 0 <= lgDirtyMult
      ensures ComputeNpurgatory(all) == Wrap(ndirty - Allowed(all))
    {
      hide Wrap, Threshold;
      if !all {
        WrapTwice(ndirty, npurgatory, 0 - Threshold());
      }
    }

    lemma PurgeEnds(t: Trace, v: View, all: bool, local: int, allowed: int)
      requires Valid() && Purging(t, v, all, local, allowed) && (local <= 0 || ndirty == 0)
      ensures Purged(t, v, Now(), all, allowed)
    {
      if DirtyPages(v.chunks) + allowed < SIZE {
        GoingEnds(t, local, allowed);
      }
    }

    /** One round of arena_purge, on the chunk that comes first. */
    method PurgeRound(e: DirtyElm, all: bool, local0: int, ghost n: int, ghost t0: Trace, ghost v: View,
        ghost allowed: int)
      returns (local: int, ghost t: Trace)
      requires Valid() && IsFirst(e, chunks) && 0 < local0 < SIZE && npurgatory == Wrap(n + local0)
      requires Purging(t0, v, all, local0, allowed)
      modifies this
      ensures Valid() && Used(runs) == old(Used(runs)) && nactive == old(nactive) && ndirty < old(ndirty)
      ensures npurgatory == Wrap(n + local) && 0 <= local < SIZE && local0 - local <= old(ndirty) - ndirty
      ensures t == More(t0, Now(), e) && Purging(t, v, all, local, allowed)
    {
      hide ArenaInv, DirtyIndex, DirtyPages, Used, Wrap, Picked, FreeAt, OnlyChunk, Going, More, Rounds, Valid,
          CleanKept;
      DirtyReady(e);
      ghost var v0 := Now();
      local := PurgeChunk(e.addr, all, local0, n);
      t := More(t0, Now(), e);
      RoundDone(t0, v, v0, e, all, local0, local, allowed);
    }

    lemma DirtyReady(e: DirtyElm)
      requires Valid() && IsFirst(e, chunks)
      ensures e.addr in chunks && e.addr in runs && spare != Spare(e.addr) && ndirty == DirtyPages(chunks)
      ensures 0 < chunks[e.addr].ndirty <= ndirty && chunks[e.addr].nrunsAdjac == e.adjac >= 0
    {
      hide ArenaInv, DirtyIndex, DirtyPages, DirtyComp;
      DirtyChunk(Now(), e, lo, hi);
      DirtyParts();
      DirtyPart(chunks, e.addr);
    }

    lemma DirtyParts()
      requires Valid()
      ensures forall b :: b in chunks ==> 0 <= chunks[b].ndirty
    {
      hide DirtyPages, DirtyIndex, AvailIndex, ActivePages, Tiled, AllAgree, Coalesced, NAvail, NAdjac, NDirty;
    }

    /** What one round does to chunk a, which is dirty, and to the count of pages to purge. */
    method PurgeChunk(a: nat, all: bool, local0: int, ghost n: int) returns (local: int)
      requires Valid() && a in chunks && spare != Spare(a) && 0 < chunks[a].ndirty && 0 < local0 < SIZE
      requires npurgatory == Wrap(n + local0)
      modifies this
      ensures Valid() && Used(runs) == old(Used(runs)) && nactive == old(nactive) && ndirty < old(ndirty)
      ensures npurgatory == Wrap(n + local) && 0 <= local < SIZE && local0 - local <= old(ndirty) - ndirty
      ensures var npurgeable, adjac, npurged := old(chunks[a].ndirty), old(chunks[a].nrunsAdjac), old(ndirty) - ndirty;
        && npurged == Picked(all || adjac == 0, false, old(runs)[a]) && npurged <= npurgeable
        && (adjac == 0 ==> npurged == npurgeable)
        && local == if npurgeable > local0 && adjac == 0 then 0 else Wrap(local0 - npurged)
      ensures OnlyChunk(old(runs), old(spare), runs, spare, a)
      ensures forall p :: FreeAt(runs[a], p, true) ==> FreeAt(old(runs)[a], p, true)
      ensures a in chunks && CleanKept(old(chunks)[a].bits, chunks[a].bits, old(runs)[a])
    {
      hide ArenaInv, DirtyIndex, DirtyPages, Used, Wrap, Picked, FreeAt, OnlyChunk, CleanKept;
      InUse(a);
      DirtyAtMost(runs[a], lo, hi);
      local := local0;
      var npurgeable := chunks[a].ndirty;
      if npurgeable > local && chunks[a].nrunsAdjac == 0 {
        WrapTogether(n, npurgatory, local, npurgeable - local);
        WrapAtLeast(npurgeable);
        npurgatory := Wrap(npurgatory + (npurgeable - local));
        local := npurgeable;
      }
      ghost var local1 := local;
      WrapTogether(n, npurgatory, local, 0 - npurgeable);
      npurgatory, local := Wrap(npurgatory - npurgeable), Wrap(local - npurgeable);
      var npurged := ChunkPurge(a, all);
      var nunpurged := npurgeable - npurged;
      WrapTogether(n, npurgatory, local, nunpurged);
      WrapTwice(local1, npurgeable, nunpurged);
      WrapAtLeast(local1 - npurgeable + nunpurged);
      npurgatory, local := Wrap(npurgatory + nunpurged), Wrap(local + nunpurged);
    }

    lemma RoundDone(t0: Trace, v: View, v0: View, e: DirtyElm, all: bool, local0: int, local: int, allowed: int)
      requires Valid() && Rounds(t0, all) && t0.views[0] == v && Last(t0) == v0 && 0 <= allowed && 0 < local0
      requires DirtyPages(v.chunks) + allowed < SIZE ==> Going(t0, local0, allowed)
      requires IsFirst(e, v0.chunks) && e.addr in v0.chunks && e.addr in v0.runs
      requires v0.chunks[e.addr].nrunsAdjac == e.adjac >= 0
      requires OnlyChunk(v0.runs, v0.spare, runs, spare, e.addr) && Used(runs) == Used(v0.runs)
      requires forall p :: FreeAt(runs[e.addr], p, true) ==> FreeAt(v0.runs[e.addr], p, true)
      requires e.addr in chunks && CleanKept(v0.chunks[e.addr].bits, chunks[e.addr].bits, v0.runs[e.addr])
      requires var npurgeable, npurged := v0.chunks[e.addr].ndirty, DirtyPages(v0.chunks) - ndirty;
        && npurged == Picked(all || e.adjac == 0, false, v0.runs[e.addr])
        && 0 < npurged <= npurgeable <= DirtyPages(v0.chunks) && (e.adjac == 0 ==> npurged == npurgeable)
        && local == if npurgeable > local0 && e.adjac == 0 then 0 else Wrap(local0 - npurged)
      ensures Purging(More(t0, Now(), e), v, all, local, allowed)
    {
      hide ArenaInv, DirtyIndex, DirtyPages, Used, Wrap, Picked, FreeAt, OnlyChunk, Going, More, Rounds, IsFirst,
          CleanKept;
      RoundsMore(t0, Now(), e, all);
      if DirtyPages(v.chunks) + allowed < SIZE {
        GoingMore(t0, Now(), e, v0.chunks[e.addr].ndirty, local0, local, allowed);
      }
    }

    lemma NonNegative()
      requires Valid()
      ensures 0 <= ndirty && 0 <= nactive && 0 <= npurgatory
      ensures chunksDirty == DirtyIndex(chunks) && ndirty == DirtyPages(chunks)
    {
      Totals();
      TotalsNonNegative(runs, spare);
    }

    lemma AllowedNonNegative(all: bool)
      requires 0 <= nactive && 0 <= npurgatory && (all || 0 <= lgDirtyMult)
      ensures 0 <= Allowed(all) && (!all ==> 0 <= Threshold())
    {
      if !all {
        QuotientNonNegative(nactive, Pow2(lgDirtyMult));
      }
    }

    /** Of n dirty pages more are left to this thread than the share of the active pages that is tolerated. */
    ghost predicate MustPurge(n: int)
      reads this`nactive, this`npurgatory
    {
      0 <= lgDirtyMult && nactive / Pow2(lgDirtyMult) < n - npurgatory
    }

    /** arena_maybe_purge */
    method MaybePurge() returns (ghost t: Trace)
      requires Valid()
      modifies this
      ensures Valid() && npurgatory == old(npurgatory) && Used(runs) == old(Used(runs)) && nactive == old(nactive)
      ensures ndirty <= old(ndirty) && (0 <= lgDirtyMult && old(ndirty) < SIZE ==> ndirty <= Allowed(false))
      ensures t.views != [] && t.views[0] == old(Now())
      ensures if MustPurge(old(ndirty)) then Purged(t, old(Now()), Now(), false, Allowed(false))
              else t == Trace([Now()], []) && unchanged(this)
    {
      hide ArenaInv, DirtyIndex, DirtyPages, Used, Round, Stops;
      t := Trace([Now()], []);
      NonNegative();
      if lgDirtyMult < 0 {
        return;
      }
      AllowedNonNegative(false);
      if ndirty <= npurgatory {
        return;
      }
      var npurgeable := ndirty - npurgatory;
      if npurgeable <= Threshold() {
        return;
      }
      t := Purge(false);
    }

    /** arena_purge_all: no more stays dirty than other threads are about to purge; with none of them, nothing. */
    method PurgeAll() returns (ghost t: Trace)
      requires Valid()
      modifies this
      ensures Valid() && npurgatory == old(npurgatory) && Used(runs) == old(Used(runs)) && nactive == old(nactive)
      ensures 0 <= ndirty <= old(ndirty) && (old(ndirty) < SIZE ==> ndirty <= old(npurgatory))
      ensures Purged(t, old(Now()), Now(), true, npurgatory)
    {
      hide ArenaInv, DirtyIndex, DirtyPages, Used, Purged;
      t := Purge(true);
      NonNegative();
    }

    /**
     Seven pages are dirty and six are tolerated, so one is to be purged.  The four beside a free run are, which is
     three more than were wanted; the count wraps, and the other three go as well.
     */
    method PurgesAll(a: nat) returns (ghost t: Trace)
      requires Valid() && runs == map[a := Fragments(lo)] && spare == NoSpare && npurgatory == 0 && lgDirtyMult == 0
      modifies this
      ensures old(ndirty) == 7 && Allowed(false) == 6 && ndirty == 0
      ensures Purged(t, old(Now()), Now(), false, 6) && |t.firsts| > 0 && DirtyPages(t.views[1].chunks) == 3
    {
      FragmentedCounts(a);
      hide ArenaInv, DirtyIndex, ActivePages, DirtyComp, Used, OnlyChunk, DirtyPages;
      t := Purge(false);
      assert Round(t.views[0], t.views[1], t.firsts[0], false);
      assert Over(t, 0, 6);
    }

    lemma FragmentedCounts(a: nat)
      requires Valid() && runs == map[a := Fragments(lo)] && spare == NoSpare && npurgatory == 0 && lgDirtyMult == 0
      ensures ndirty == 7 && nactive == 6 && Allowed(false) == 6 && Picked(false, false, runs[a]) == 4
      ensures DirtyPages(chunks) == 7
      ensures forall e :: e in DirtyIndex(chunks) ==> e.addr == a && e.adjac == 1
    {
      NonNegative();
      Totals();
      FragmentsCounts(lo);
      OneChunk(runs, a, Fragments(lo));
      hide Fragments, NDirty, NActive, Picked, DirtyPages, Sum, ActivePages, Dirt, Light;
      InUse(a);
      InDirtyIndex(chunks);
    }

    /**
     The pages [s, e) of chunk a are given up: t begins with the state in which they are free, and goes on with the
     purge of which there is need then.
     */
    ghost predicate GivenUp(t: Trace, v0: View, a: nat, s: nat, e: nat, dirty: bool)
      requires s <= e
      reads this
    {
      && t.views != []
      && var v := t.views[0];
        && Released(v0.runs, v0.spare, v.runs, v.spare, a, s, e, dirty) && Used(v.runs) == Used(runs)
        && a in v0.chunks && a in v.chunks && ZeroKept(v0.chunks[a].bits, v.chunks[a].bits, s, e, dirty)
        && DirtyPages(v.chunks) == DirtyPages(v0.chunks) + Dirtied(v0.runs, a, e - s, dirty, v.spare)
        && if dirty && MustPurge(DirtyPages(v.chunks)) then Purged(t, v, Now(), false, Allowed(false))
           else t == Trace([Now()], [])
    }

    /** arena_run_dalloc */
    method RunDalloc(a: nat, runInd: nat, dirty0: bool, cleaned: bool, ghost r: Run) returns (ghost t: Trace)
      requires Valid() && (a, r) in Used(runs) && r.start == runInd
      modifies this
      ensures Valid() && npurgatory == old(npurgatory)
      ensures Used(runs) == old(Used(runs)) - {(a, r)} && nactive == old(nactive) - r.npages
      ensures var dirty := dirty0 || (!cleaned && r.dirty);
        && ndirty <= old(ndirty) + (if dirty then r.npages else 0)
        && (dirty && 0 <= lgDirtyMult && old(ndirty) + r.npages < SIZE ==> ndirty <= Allowed(false))
        && GivenUp(t, old(Now()), a, runInd, r.End(), dirty)
    {
      hide ArenaInv, DirtyIndex, DirtyPages, Used, Purged, Released, NDirty;
      var dirty := RunDallocAt(a, runInd, dirty0, cleaned, r);
      t := Trace([Now()], []);
      if dirty {
        t := MaybePurge();
      }
    }

    // ----- Resizing

    /** Describe allocated runs anew, in words c already written. */
    method Relabel(a: nat, c: Chunk, ghost pre: seq<Run>, ghost mid: seq<Run>, ghost mid': seq<Run>,
        ghost post: seq<Run>, ghost s: nat, ghost e: nat)
      requires Valid() && a in chunks && spare != Spare(a) && runs[a] == pre + mid + post && BinSized(mid')
      requires Tiled(pre, lo, s) && Tiled(mid, s, e) && Tiled(mid', s, e) && Tiled(post, e, hi)
      requires mid != [] && mid' != [] && NoneFree(mid) && NoneFree(mid')
      requires Outside(chunks[a].bits, c.bits, s, e) && AllAgree(c.bits, mid') && c == chunks[a].(bits := c.bits)
      modifies this
      ensures Valid() && npurgatory == old(npurgatory) && ndirty == old(ndirty) && nactive == old(nactive)
      ensures Used(runs) == old(Used(runs)) - UsedIn(a, mid) + UsedIn(a, mid')
      ensures spare == old(spare) && SameFree(old(runs), runs, a) && chunks == old(chunks)[a := c]
    {
      hide ArenaInv, DirtyIndex, DirtyPages, AllAgree, Tiled, Used, UsedIn, NoneFree, Outside, SameFree;
      ghost var v, rs := Now(), runs[a];
      RelabelInv(v, a, c, pre, mid, mid', post, lo, s, e, hi);
      RelabelUsed(runs, a, pre, mid, mid', post, lo, s, e, hi);
      RelabelFree(runs, a, pre, mid, mid', post);
      PutBits(a, c);
      assert BinSized(rs) && forall x :: x in pre + mid' + post ==> x in rs || x in mid';
      runs := runs[a := pre + mid' + post];
    }

    method RelabelOne(a: nat, c: Chunk, ghost r: Run, ghost mid: seq<Run>)
      requires Valid() && (a, r) in Used(runs) && a in chunks && BinSized(mid)
      requires mid != [] && NoneFree(mid) && Tiled(mid, r.start, r.End())
      requires Outside(chunks[a].bits, c.bits, r.start, r.End())
      requires AllAgree(c.bits, mid) && c == chunks[a].(bits := c.bits)
      modifies this
      ensures Valid() && npurgatory == old(npurgatory) && ndirty == old(ndirty) && nactive == old(nactive)
      ensures Used(runs) == old(Used(runs)) - {(a, r)} + UsedIn(a, mid)
      ensures spare == old(spare) && SameFree(old(runs), runs, a) && chunks == old(chunks)[a := c]
    {
      hide ArenaInv, DirtyIndex, DirtyPages, ChunkInv, AllAgree, SameFree;
      UsedWords(a, r);
      InUse(a);
      ghost var pre, post := Locate(runs[a], r, lo, hi);
      assert [r][1..] == [] && Tiled([r], r.start, r.End()) && UsedIn(a, [r]) == {(a, r)};
      Relabel(a, c, pre, [r], mid, post, r.start, r.End());
    }

    /** Set the words of a large run that is being cut in two. */
    method CutLarge(a: nat, pageind: nat, head: nat, tail: nat, ghost r: Run)
      requires Valid() && (a, r) in Used(runs) && r.kind.Large? && r.start == pageind
      requires r.npages == head + tail && 0 < head && 0 < tail
      modifies this
      ensures Valid() && npurgatory == old(npurgatory) && ndirty == old(ndirty) && nactive == old(nactive)
      ensures var x, y := Run(pageind, head, Large, r.dirty), Run(pageind + head, tail, Large, r.dirty);
        Used(runs) == old(Used(runs)) - {(a, r)} + {(a, x), (a, y)} && (a, x) !in old(Used(runs))
            && (a, y) !in old(Used(runs))
      ensures Redrawn(old(Now()), Now(), a)
    {
      hide ArenaInv, DirtyIndex, DirtyPages, ChunkInv, SameFree, Agrees, Outside, ZeroKept, Tiled;
      ghost var x, y := Run(pageind, head, Large, r.dirty), Run(pageind + head, tail, Large, r.dirty);
      UsedWords(a, r);
      Overlap(a, r, x);
      Overlap(a, r, y);
      var c := WriteCut(chunks[a], pageind, head, tail, r);
      Pair(a, x, y);
      RelabelOne(a, c, r, [x, y]);
    }

    /** The words of a large run become those of two. */
    method WriteCut(c0: Chunk, pageind: nat, head: nat, tail: nat, ghost r: Run) returns (c: Chunk)
      requires Agrees(c0.bits, r) && r.kind.Large? && r.start == pageind && r.npages == head + tail
      requires 0 < head && 0 < tail
      ensures c == c0.(bits := c.bits) && Outside(c0.bits, c.bits, pageind, r.End())
      ensures Agrees(c.bits, Run(pageind, head, Large, r.dirty))
      ensures Agrees(c.bits, Run(pageind + head, tail, Large, r.dirty)) && ZeroKept(c0.bits, c.bits, 0, 0, false)
    {
      var flagDirty := c0.bits[pageind].dirty;
      // The last element of each run first, in case of single-page runs.
      c := SetLarge(c0, pageind + head - 1, 0, flagDirty);
      c := SetLarge(c, pageind, head, flagDirty);
      assert tail == 1 || (c.bits[pageind + head + tail - 1].top == 0
          && c.bits[pageind + head + tail - 1].dirty == flagDirty);
      c := SetLarge(c, pageind + head, tail, flagDirty);
    }

    lemma UsedWords(a: nat, r: Run)
      requires Valid() && (a, r) in Used(runs)
      ensures a in chunks && spare != Spare(a) && Agrees(chunks[a].bits, r)
      ensures |chunks[a].bits| == hi && r in runs[a] && BinSized([r])
    {
      Totals();
      UsedNotSpare(runs, spare, a, r);
      InUse(a);
    }

    /** No allocated run overlaps another. */
    lemma Overlap(a: nat, r: Run, x: Run)
      requires Valid() && (a, r) in Used(runs) && x != r && x.start < r.End() && r.start < x.End()
      ensures (a, x) !in Used(runs)
    {
      if (a, x) in Used(runs) {
        UsedDisjoint(Now(), (a, r), (a, x), lo, hi);
        assert false;
      }
    }

    /** The same, of the runs before they were described anew. */
    lemma GivenUpOf(t: Trace, v0: View, v1: View, a: nat, s: nat, e: nat, dirty: bool)
      requires s <= e && Redrawn(v0, v1, a) && GivenUp(t, v1, a, s, e, dirty)
      ensures GivenUp(t, v0, a, s, e, dirty)
    {
      assert NDirty(v0.runs[a]) == NDirty(v1.runs[a]);
      hide Purged, SameFree, Released, Used, DirtyPages;
      SameFreeThen(v0.runs, v1.runs, t.views[0].runs, v0.spare, t.views[0].spare, a, s, e, dirty);
    }

    /** A chunk in which something is still in use does not become the spare. */
    lemma StaysInUse(t: Trace, v0: View, a: nat, s: nat, e: nat, dirty: bool, x: Run)
      requires s <= e && GivenUp(t, v0, a, s, e, dirty) && (a, x) in Used(runs) && v0.spare != Spare(a)
      ensures t.views != [] && t.views[0].spare == v0.spare
      ensures DirtyPages(t.views[0].chunks) == DirtyPages(v0.chunks) + (if dirty then e - s else 0)
      ensures Frees(v0.runs, t.views[0].runs, a, s, e, dirty)
    {
      hide Purged, PagesFreed, DirtyPages, ZeroKept;
      assert x in t.views[0].runs[a];
    }

    /** What trimming does, be it followed by a purge or not. */
    lemma Trimmed(t: Trace, v0: View, v1: View, a: nat, s: nat, e: nat, dirty: bool, x: Run)
      requires Valid() && s <= e && Redrawn(v0, v1, a) && v0.spare != Spare(a)
      requires GivenUp(t, v1, a, s, e, dirty) && (a, x) in Used(runs)
      ensures GivenUp(t, v0, a, s, e, dirty) && t.views != [] && t.views[0].spare == v0.spare
      ensures !dirty || !MustPurge(DirtyPages(v0.chunks) + (e - s))
          ==> ndirty == DirtyPages(v0.chunks) + (if dirty then e - s else 0) && spare == v0.spare
              && Frees(v0.runs, runs, a, s, e, dirty)
    {
      GivenUpOf(t, v0, v1, a, s, e, dirty);
      StaysInUse(t, v0, a, s, e, dirty, x);
      hide ArenaInv, DirtyIndex, DirtyPages, Used, Redrawn, Released, Purged, Frees, ZeroKept;
    }

    /** arena_run_trim_head: free the leading pages of a large run. */
    method TrimHead(a: nat, pageind: nat, oldPages: nat, newPages: nat, ghost r: Run) returns (ghost t: Trace)
      requires Valid() && (a, r) in Used(runs) && r.kind.Large? && r.start == pageind
      requires r.npages == oldPages && 0 < newPages < oldPages
      modifies this
      ensures Valid() && npurgatory == old(npurgatory) && nactive == old(nactive) - (oldPages - newPages)
      ensures Used(runs) == old(Used(runs)) - {(a, r)}
          + {(a, Run(pageind + (oldPages - newPages), newPages, Large, r.dirty))}
      ensures GivenUp(t, old(Now()), a, pageind, pageind + (oldPages - newPages), r.dirty)
      ensures t.views != [] && t.views[0].spare == old(spare)
      ensures !r.dirty || !MustPurge(old(ndirty) + (oldPages - newPages))
          ==> ndirty == old(ndirty) + (if r.dirty then oldPages - newPages else 0) && spare == old(spare)
              && Frees(old(runs), runs, a, pageind, pageind + (oldPages - newPages), r.dirty)
    {
      hide ArenaInv, DirtyIndex, DirtyPages, Used, Redrawn, GivenUp, Frees;
      var headPages := oldPages - newPages;
      UsedWords(a, r);
      CutLarge(a, pageind, headPages, newPages, r);
      ghost var v1 := Now();
      t := RunDalloc(a, pageind, false, false, Run(pageind, headPages, Large, r.dirty));
      Trimmed(t, old(Now()), v1, a, pageind, pageind + headPages, r.dirty,
          Run(pageind + headPages, newPages, Large, r.dirty));
    }

    /** arena_run_trim_tail: free the trailing pages of a large run. */
    method TrimTail(a: nat, pageind: nat, oldPages: nat, newPages: nat, dirty: bool, ghost r: Run)
      returns (ghost t: Trace)
      requires Valid() && (a, r) in Used(runs) && r.kind.Large? && r.start == pageind
      requires r.npages == oldPages && 0 < newPages < oldPages
      modifies this
      ensures Valid() && npurgatory == old(npurgatory) && nactive == old(nactive) - (oldPages - newPages)
      ensures Used(runs) == old(Used(runs)) - {(a, r)} + {(a, Run(pageind, newPages, Large, r.dirty))}
      ensures ndirty <= old(ndirty) + (if dirty || r.dirty then oldPages - newPages else 0)
      ensures (dirty || r.dirty) && 0 <= lgDirtyMult && old(ndirty) + oldPages < SIZE ==> ndirty <= Allowed(false)
      ensures GivenUp(t, old(Now()), a, pageind + newPages, pageind + oldPages,
                  dirty || r.dirty)
      ensures t.views != [] && t.views[0].spare == old(spare)
      ensures !(dirty || r.dirty) || !MustPurge(old(ndirty) + (oldPages - newPages))
          ==> ndirty == old(ndirty) + (if dirty || r.dirty then oldPages - newPages else 0) && spare == old(spare)
              && Frees(old(runs), runs, a, pageind + newPages, pageind + oldPages, dirty || r.dirty)
    {
      hide ArenaInv, DirtyIndex, DirtyPages, Used, Redrawn, GivenUp, Frees;
      UsedWords(a, r);
      CutLarge(a, pageind, newPages, oldPages - newPages, r);
      ghost var v1 := Now();
      t := RunDalloc(a, pageind + newPages, dirty, false, Run(pageind + newPages, oldPages - newPages, Large, r.dirty));
      Trimmed(t, old(Now()), v1, a, pageind + newPages, pageind + oldPages, dirty || r.dirty,
          Run(pageind, newPages, Large, r.dirty));
    }

    /** arena_ralloc_large_shrink: the pages cut off have been written to, so they become free and dirty. */
    method RallocShrink(a: nat, pageind: nat, oldPages: nat, pages: nat, ghost r: Run) returns (ghost t: Trace)
      requires Valid() && (a, r) in Used(runs) && r.kind.Large?
      requires r.start == pageind && r.npages == oldPages && 0 < pages < oldPages
      modifies this
      ensures Valid() && npurgatory == old(npurgatory) && nactive == old(nactive) - (oldPages - pages)
      ensures Used(runs) == old(Used(runs)) - {(a, r)} + {(a, Run(pageind, pages, Large, r.dirty))}
      ensures GivenUp(t, old(Now()), a, pageind + pages, pageind + oldPages, true)
      ensures t.views != [] && t.views[0].spare == old(spare)
      ensures ndirty <= old(ndirty) + (oldPages - pages)
      ensures 0 <= lgDirtyMult && old(ndirty) + oldPages < SIZE ==> ndirty <= Allowed(false)
      ensures !MustPurge(old(ndirty) + (oldPages - pages))
          ==> ndirty == old(ndirty) + (oldPages - pages) && spare == old(spare)
              && Frees(old(runs), runs, a, pageind + pages, pageind + oldPages, true)
    {
      hide ArenaInv, DirtyIndex, DirtyPages, Used, GivenUp, Frees;
      t := TrimTail(a, pageind, oldPages, pages, true, r);
    }

    /** Make the run of a bin a large run, so that it can be trimmed. */
    method SmallToLarge(a: nat, runInd: nat, npages: nat, ghost r: Run)
      requires Valid() && (a, r) in Used(runs) && r.kind.Small? && !r.dirty
      requires r.start == runInd && r.npages == npages && 1 < npages
      modifies this
      ensures Valid() && npurgatory == old(npurgatory) && ndirty == old(ndirty) && nactive == old(nactive)
      ensures var l := Run(runInd, npages, Large, false);
        (a, l) !in old(Used(runs)) && Used(runs) == old(Used(runs)) - {(a, r)} + {(a, l)}
      ensures Redrawn(old(Now()), Now(), a)
    {
      hide ArenaInv, DirtyIndex, DirtyPages, ChunkInv, SameFree;
      UsedWords(a, r);
      ghost var l := Run(runInd, npages, Large, false);
      Overlap(a, r, l);
      var c := SetLarge(chunks[a], runInd, npages, false);
      c := SetLarge(c, runInd + npages - 1, 0, false);
      assert [l][1..] == [] && UsedIn(a, [l]) == {(a, l)};
      RelabelOne(a, c, r, [l]);
    }

    /** arena_dalloc_bin_run: free the run of a bin; the pages behind all regions ever handed out go as clean ones. */
    method DallocBinRun(a: nat, runInd: nat, info: BinInfo, page: nat, nextind: nat, ghost r: Run)
      returns (ghost t: Trace, ghost v1: View)
      requires Valid() && (a, r) in Used(runs) && r.kind.Small? && r.start == runInd
      requires LayoutOk(info, page) && info.runPages == r.npages && nextind <= info.nregs
      modifies this
      ensures Valid() && npurgatory == old(npurgatory)
      ensures Used(runs) == old(Used(runs)) - {(a, r)} && nactive == old(nactive) - r.npages
      ensures var past := Past(info, page, runInd, nextind);
        && Untouched(info, page, runInd, nextind, past) && runInd < past <= r.End()
        && ndirty <= old(ndirty) + (if r.dirty then r.npages else past - runInd)
        && (if r.dirty || past == r.End() then GivenUp(t, old(Now()), a, runInd, r.End(), true)
            else
              && v1.spare == old(spare) && Frees(old(runs), v1.runs, a, past, r.End(), false)
              && GivenUp(t, v1, a, runInd, past, true))
      ensures 0 <= lgDirtyMult && old(ndirty) + r.npages < SIZE ==> ndirty <= Allowed(false)
    {
      hide ArenaInv, DirtyIndex, DirtyPages, Used, ChunkInv, Past, Untouched, LayoutOk, GivenUp, Frees, SameFree;
      hide ZeroKept;
      var past := PastPage(info, page, runInd, nextind);
      v1 := Now();
      UsedWords(a, r);
      var npages := binRunPages[chunks[a].bits[runInd].binind];
      if !chunks[a].bits[runInd].dirty && past - runInd < npages {
        Overlap(a, r, Run(runInd, past - runInd, Large, false));
        SmallToLarge(a, runInd, npages, r);
        ghost var l := Run(runInd, npages, Large, false);
        ghost var runs2 := runs;
        t := TrimTail(a, runInd, npages, past - runInd, false, l);
        v1 := Now();
        FreesOf(old(runs), runs2, runs, a, past, r.End(), false);
        t := RunDalloc(a, runInd, true, false, Run(runInd, past - runInd, Large, false));
      } else {
        t := RunDalloc(a, runInd, true, false, r);
      }
    }

    method PastPage(info: BinInfo, page: nat, runInd: nat, nextind: nat) returns (past: nat)
      requires LayoutOk(info, page) && nextind <= info.nregs
      ensures past == Past(info, page, runInd, nextind) && Untouched(info, page, runInd, nextind, past)
      ensures runInd < past <= runInd + info.runPages
    {
      hide Untouched;
      PastUntouched(info, page, runInd, nextind);
      PastWithin(info, page, runInd, nextind);
      past := Past(info, page, runInd, nextind);
    }

    /** The word after an allocated run tells whether the run that follows is free, and its size. */
    lemma GrowLook(a: nat, r: Run)
      requires Valid() && (a, r) in Used(runs)
      ensures a in chunks && spare != Spare(a) && |chunks[a].bits| == hi && r.End() <= hi && Tiled(runs[a], lo, hi)
      ensures r.End() < hi ==> exists f :: f in runs[a] && f.start == r.End()
      ensures forall f :: f in runs[a] && f.start == r.End() ==>
        r.End() < hi && (IsFree(f) <==> !chunks[a].bits[r.End()].alloc)
            && (IsFree(f) ==> chunks[a].bits[r.End()].top == f.npages > 0)
    {
      UsedWords(a, r);
      InUse(a);
      var pre, post := Locate(runs[a], r, lo, hi);
      TiledBounds(post, r.End(), hi);
      if r.End() < hi {
        assert post[0] in runs[a];
        assert forall x :: x in post ==> x in runs[a];
        NeighbourFree(chunks[a].bits, post, r.End(), hi);
      }
      forall f | f in runs[a] && f.start == r.End()
        ensures r.End() < hi && f == post[0]
      {
        NextIs(runs[a], pre, r, post, f, lo, hi);
      }
    }

    /**
     arena_ralloc_large_grow: extend a large run into the free run after it, to between size and size + extra pages.
     */
    method RallocGrow(a: nat, pageind: nat, oldPages: nat, size: nat, extra: nat, ghost r: Run)
      returns (failed: bool, newPages: nat)
      requires Valid() && (a, r) in Used(runs) && r.kind.Large? && r.start == pageind
      requires r.npages == oldPages && oldPages < size + extra
      modifies this
      ensures Valid() && npurgatory == old(npurgatory)
      ensures failed
          <==> !exists f ::
            f in old(runs[a]) && f.start == r.End() && IsFree(f) && oldPages <= size <= oldPages + f.npages
      ensures failed ==> unchanged(this)
      ensures !failed
          ==> oldPages < newPages && size <= newPages <= size + extra && nactive == old(nactive) + (newPages - oldPages)
      ensures !failed
          ==> spare == old(spare) && exists f ::
            f in old(runs[a]) && f.start == r.End() && Grew(old(Now()), a, r, f, size + extra, newPages)
    {
      hide ArenaInv, DirtyIndex, DirtyPages, ChunkInv, Used, UsedIn, Took, SameFree, Light, BinSized, Tiled, Grew;
      GrowLook(a, r);
      var c := chunks[a];
      failed, newPages := true, oldPages;
      // A size below the old one wraps around in the last comparison, and is larger than any run.
      if pageind + oldPages < hi && !c.bits[pageind + oldPages].alloc && oldPages <= size
          && c.bits[pageind + oldPages].top >= size - oldPages {
        var follow := c.bits[pageind + oldPages].top;
        var splitSize := if oldPages + follow <= size + extra then follow else size + extra - oldPages;
        ghost var f :| f in runs[a] && f.start == r.End();
        failed, newPages := false, oldPages + splitSize;
        GrowInto(a, pageind, oldPages, splitSize, r, f, size + extra);
      }
    }

    /** Take the first pages of the free run that follows a large one. */
    method GrowInto(a: nat, pageind: nat, oldPages: nat, splitSize: nat, ghost r: Run, ghost f: Run, ghost most: nat)
      requires Valid() && (a, r) in Used(runs) && r.kind.Large? && r.start == pageind && r.npages == oldPages
      requires a in chunks && spare != Spare(a) && f in runs[a] && IsFree(f) && f.start == r.End()
      requires Tiled(runs[a], lo, hi) && 0 < splitSize
      requires splitSize == if oldPages + f.npages <= most then f.npages else most - oldPages
      modifies this
      ensures Valid() && npurgatory == old(npurgatory) && spare == old(spare) && nactive == old(nactive) + splitSize
      ensures Grew(old(Now()), a, r, f, most, oldPages + splitSize)
    {
      hide ArenaInv, DirtyIndex, DirtyPages, ChunkInv, Used, UsedIn, Took, SameFree, Light, BinSized, Tiled, CleanKept,
          ZeroKept;
      NonNegative();
      ghost var h := RunSplit(a, pageind + oldPages, splitSize, Large, f);
      ghost var v1 := Now();
      ghost var d := Merge(a, pageind, oldPages, splitSize, r, h);
      TookSame(old(Now()), v1, Now(), a, h);
    }

    /** The run r has taken pages from the front of f, all of them or as many as make it most pages long. */
    ghost predicate Grew(v0: View, a: nat, r: Run, f: Run, most: nat, newPages: nat)
      reads this
    {
      && newPages == (if r.npages + f.npages <= most then r.npages + f.npages else most) && r.npages <= newPages
      && Took(v0.runs, runs, a, Run(r.End(), newPages - r.npages, Large, f.dirty))
      && ndirty == DirtyPages(v0.chunks) - (if f.dirty then newPages - r.npages else 0)
      && Used(runs) == Used(v0.runs) - {(a, r)} + {(a, Run(r.start, newPages, Large, r.dirty || f.dirty))}
      && a in v0.chunks && a in chunks && CleanKept(v0.chunks[a].bits, chunks[a].bits, v0.runs[a])
    }

    /** The words of two adjacent large runs become those of one. */
    method MergeWords(c0: Chunk, pageind: nat, x: nat, y: nat, ghost r: Run, ghost h: Run)
      returns (c: Chunk, ghost m: Run)
      requires Agrees(c0.bits, r) && Agrees(c0.bits, h) && r.kind.Large? && h.kind.Large?
      requires r.start == pageind && r.npages == x && h.start == r.End() && h.npages == y
      ensures c == c0.(bits := c.bits) && Outside(c0.bits, c.bits, pageind, h.End())
      ensures ZeroKept(c0.bits, c.bits, 0, 0, false)
      ensures m == Run(pageind, x + y, Large, r.dirty || h.dirty) && Agrees(c.bits, m)
    {
      var flagDirty := c0.bits[pageind].dirty || c0.bits[pageind + x + y - 1].dirty;
      c := SetLarge(c0, pageind, x + y, flagDirty);
      c := SetLarge(c, pageind + x + y - 1, 0, flagDirty);
      m := Run(pageind, x + y, Large, flagDirty);
    }

    /** Make two adjacent large runs one. */
    method Merge(a: nat, pageind: nat, x: nat, y: nat, ghost r: Run, ghost h: Run) returns (ghost d: bool)
      requires Valid() && (a, r) in Used(runs) && (a, h) in Used(runs) && r.kind.Large? && h.kind.Large?
      requires r.start == pageind && r.npages == x && h.start == r.End() && h.npages == y
      modifies this
      ensures Valid() && npurgatory == old(npurgatory) && ndirty == old(ndirty) && nactive == old(nactive)
      ensures d == (r.dirty || h.dirty)
      ensures Used(runs) == old(Used(runs)) - {(a, r), (a, h)} + {(a, Run(pageind, x + y, Large, d))}
      ensures Redrawn(old(Now()), Now(), a)
    {
      UsedWords(a, r);
      UsedWords(a, h);
      InUse(a);
      assert !IsFree(r) && !IsFree(h) && 0 < r.npages && 0 < h.npages;
      ghost var pre, post := Locate(runs[a], r, lo, hi);
      assert runs[a] == pre + [r] + post && Tiled(pre, lo, r.start);
      hide ArenaInv, ChunkInv, DirtyIndex, DirtyPages, Used, UsedIn, Tiled, Agrees, AllAgree, Outside, NoneFree, At,
          IsFree, SameFree;
      NextIs(runs[a], pre, r, post, h, lo, hi);
      ghost var m;
      var c;
      c, m := MergeWords(chunks[a], pageind, x, y, r, h);
      d := m.dirty;
      Merged(a, pre, r, h, post, m, c.bits);
      assert BinSized([m]);
      Relabel(a, c, pre, [r, h], [m], post[1..], pageind, h.End());
    }
  }
}
