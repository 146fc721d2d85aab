/**
 What must hold of an arena's maps, counters and indexes together, and why splitting and freeing runs
 keeps it: the arguments behind the methods of module Arena, on values.
 */
module ArenaState {
  import opened ArenaRuns
  import opened ArenaIndex

  /** arena_avail_adjac_pred: is the page before a run free? */
  predicate AdjacPred(c: Chunk, pageind: nat, lo: nat)
    requires pageind <= |c.bits|
  {
    lo < pageind && !c.bits[pageind - 1].alloc
  }

  /** arena_avail_adjac_succ: is the page after a run free? */
  predicate AdjacSucc(c: Chunk, pageind: nat, npages: nat, hi: nat)
    requires pageind + npages <= hi == |c.bits|
  {
    pageind + npages != hi && !c.bits[pageind + npages].alloc
  }

  ghost predicate FreeWord(w: Word, r: Run) {
    !w.alloc && !w.large && w.top == r.npages && w.dirty == r.dirty
  }

  /**
   The free run r, whose words are set, lies between pre and post; only sides that are asked about need be in the map.
   */
  ghost predicate Placed(c: Chunk, pre: seq<Run>, r: Run, post: seq<Run>, maybePred: bool, maybeSucc: bool, lo: nat,
      hi: nat) {
    && IsFree(r) && 0 < r.npages && |c.bits| == hi && Tiled(pre, lo, r.start) && Tiled(post, r.End(), hi)
    && r.End() <= hi && FreeWord(c.bits[r.start], r)
    && Coalesced(pre + [r] + post)
    && (if maybePred then AllAgree(c.bits, pre) else !LastFree(pre))
    && (if maybeSucc then AllAgree(c.bits, post) else !FirstFree(post))
  }

  ghost function Taken(r: Run): Run {
    r.(kind := Large)
  }

  /** The words beside a placed run tell whether its neighbours are free. */
  lemma PlacedNeighbours(c: Chunk, pre: seq<Run>, r: Run, post: seq<Run>, maybePred: bool, maybeSucc: bool, lo: nat,
      hi: nat)
    requires Placed(c, pre, r, post, maybePred, maybeSucc, lo, hi)
    ensures (maybePred && AdjacPred(c, r.start, lo)) <==> LastFree(pre)
    ensures (maybeSucc && AdjacSucc(c, r.start, r.npages, hi)) <==> FirstFree(post)
    ensures LastFree(pre) ==> maybePred && c.bits[r.start - 1].dirty == pre[|pre| - 1].dirty
    ensures FirstFree(post) ==> maybeSucc && c.bits[r.End()].dirty == post[0].dirty
  {
    TiledBounds(pre, lo, r.start);
    TiledBounds(post, r.End(), hi);
    if maybePred && lo < r.start {
      NeighbourFree(c.bits, pre, lo, r.start);
    }
    if maybeSucc && r.End() < hi {
      NeighbourFree(c.bits, post, r.End(), hi);
    }
  }

  /** What a free run adds to the counters, as insert and remove compute it from the map. */
  lemma PlacedCounts(c: Chunk, pre: seq<Run>, r: Run, post: seq<Run>, maybePred: bool, maybeSucc: bool, lo: nat,
      hi: nat)
    requires Placed(c, pre, r, post, maybePred, maybeSucc, lo, hi)
    ensures var without, with := pre + [Taken(r)] + post, pre + [r] + post;
      && NAvail(with) == NAvail(without) + 1
      && NAdjac(with) == NAdjac(without) + B(maybePred && AdjacPred(c, r.start, lo))
          + B(maybeSucc && AdjacSucc(c, r.start, r.npages, hi))
      && NDirty(with) == NDirty(without) + (if r.dirty then r.npages else 0)
      && NAdjac(with) < NAvail(with) && (NAdjac(without) < NAvail(without) || NAdjac(without) == NAvail(without) == 0)
    ensures maybePred && AdjacPred(c, r.start, lo) ==> c.bits[r.start - 1].dirty != c.bits[r.start].dirty
    ensures maybeSucc && AdjacSucc(c, r.start, r.npages, hi) ==> c.bits[r.start].dirty != c.bits[r.End()].dirty
  {
    Count3(pre, [r], post);
    Count3(pre, [Taken(r)], post);
    Coalesced3(pre, [r], post);
    AdjacLess(pre + [r] + post);
    AdjacLess(pre + [Taken(r)] + post);
    PlacedNeighbours(c, pre, r, post, maybePred, maybeSucc, lo, hi);
    hide AdjacPred, AdjacSucc, Tiled, AllAgree, Coalesced;
    assert [Taken(r)][1..] == [] && [r][1..] == [];
  }

  lemma SplitReady(c: Chunk, pre: seq<Run>, r: Run, post: seq<Run>, need: nat, lo: nat, hi: nat)
    requires ChunkInv(c, pre + [r] + post, lo, hi) && Tiled(pre, lo, r.start) && Tiled(post, r.End(), hi)
    requires IsFree(r) && need <= r.npages
    ensures Placed(c, pre, r, post, true, true, lo, hi) && Agrees(c.bits, r) && Counted(c, pre + [r] + post)
    ensures 0 < r.npages && r.End() <= |c.bits| && c.bits[r.start].top == r.npages && c.bits[r.start].dirty == r.dirty
    ensures c.bits[r.End() - 1].dirty == r.dirty
  {
    TiledBounds(post, r.End(), hi);
    assert r in pre + [r] + post;
    assert forall x :: x in pre ==> x in pre + [r] + post;
    assert forall x :: x in post ==> x in pre + [r] + post;
  }

  /** What a split puts in the place of a free run. */
  lemma SplitParts(a: nat, r: Run, need: nat, bits: seq<Word>)
    requires IsFree(r) && 0 < need <= r.npages
    ensures var mid, tail := SplitMid(r, need, Large), Run(r.start + need, r.npages - need, Free, r.dirty);
      if need == r.npages then mid == [Taken(r)] && Elms(a, mid) == {} && AllAgree(bits, mid[1..])
      else
        && Elms(a, mid) == {Elm(a, r.start + need, r.npages - need)}
        && (Agrees(bits, tail) ==> AllAgree(bits, mid[1..]))
  {
    hide Agrees;
  }

  lemma SplitPlaced(c: Chunk, c': Chunk, pre: seq<Run>, r: Run, post: seq<Run>, need: nat, lo: nat, hi: nat)
    requires Placed(c, pre, r, post, true, true, lo, hi) && 0 < need < r.npages
    requires Outside(c.bits, c'.bits, r.start + need, r.End())
    requires var tail := Run(r.start + need, r.npages - need, Free, r.dirty); FreeWord(c'.bits[tail.start], tail)
    requires Counted(c', pre + [Taken(r)] + post)
    ensures var head, tail := Run(r.start, need, Large, r.dirty), Run(r.start + need, r.npages - need, Free, r.dirty);
      Placed(c', pre + [head], tail, post, false, true, lo, hi) && Counted(c', pre + [head] + [Taken(tail)] + post)
  {
    var head, tail := Run(r.start, need, Large, r.dirty), Run(r.start + need, r.npages - need, Free, r.dirty);
    TiledBounds(post, r.End(), hi);
    AgreeOutside(c.bits, c'.bits, post, r.End(), hi, r.start + need, r.End());
    TiledConcat(pre, [head], lo, r.start, tail.start);
    TakenSame(pre, [Taken(r)], [head, Taken(tail)], post);
    assert pre + [head] + [Taken(tail)] + post == pre + [head, Taken(tail)] + post;
    SplitCoalesced(pre, r, post, need, Large);
    assert pre + [head] + [tail] + post == pre + SplitMid(r, need, Large) + post;
  }

  /** Marking the front of a split run as taken completes the split. */
  lemma SplitDone(c: Chunk, c1: Chunk, c2: Chunk, pre: seq<Run>, r: Run, post: seq<Run>, need: nat, kind: Kind, lo: nat,
      hi: nat)
    requires ChunkInv(c, pre + [r] + post, lo, hi) && Tiled(pre, lo, r.start) && Tiled(post, r.End(), hi)
    requires IsFree(r) && 0 < need <= r.npages && !kind.Free?
    requires Outside(c.bits, c1.bits, r.start + need, r.End()) && AllAgree(c1.bits, SplitMid(r, need, Large)[1..])
    requires Counted(c1, pre + SplitMid(r, need, Large) + post)
    requires Outside(c1.bits, c2.bits, r.start, r.start + need) && Agrees(c2.bits, Run(r.start, need, kind, r.dirty))
    requires c2 == c1.(bits := c2.bits)
    ensures ChunkInv(c2, pre + SplitMid(r, need, kind) + post, lo, hi)
  {
    var mid, head, rest := SplitMid(r, need, kind), Run(r.start, need, kind, r.dirty), SplitMid(r, need, kind)[1..];
    SplitTiled(r, need, kind);
    SplitCoalesced(pre, r, post, need, kind);
    AgreeOutside(c1.bits, c2.bits, rest, r.start + need, r.End(), r.start, r.start + need);
    assert mid == [head] + rest && SplitMid(r, need, Large) == [Taken(head)] + rest;
    TakenSame(pre, [Taken(head)], [head], rest + post);
    assert pre + mid + post == pre + [head] + (rest + post);
    assert pre + SplitMid(r, need, Large) + post == pre + [Taken(head)] + (rest + post);
    ReplaceInv(c, c2, pre, [r], mid, post, lo, r.start, r.End(), hi);
  }

  // ----- The whole arena

  /** The spare chunk: one free run over all its pages, which the counters and indexes leave out. */
  ghost predicate SpareInv(c: Chunk, rs: seq<Run>, lo: nat, hi: nat) {
    && |c.bits| == hi && c.ndirty == c.nrunsAvail == c.nrunsAdjac == 0
    && |rs| == 1 && rs[0].start == lo && rs[0].End() == hi && IsFree(rs[0]) && Agrees(c.bits, rs[0])
  }

  /** The arena's state that an operation on one chunk changes. */
  datatype View = View(chunks: map<nat, Chunk>, runs: map<nat, seq<Run>>, spare: Spare, avail: set<Elm>, nactive: int)

  ghost predicate ChunksInv(v: View, lo: nat, hi: nat) {
    && v.chunks.Keys == v.runs.Keys
    && forall a :: a in v.chunks ==>
         if v.spare == Spare(a) then SpareInv(v.chunks[a], v.runs[a], lo, hi)
         else ChunkInv(v.chunks[a], v.runs[a], lo, hi)
  }

  /** Every chunk's map, tiling and counters agree; runs_avail and nactive agree with the maps. */
  ghost predicate ArenaInv(v: View, lo: nat, hi: nat) {
    && ChunksInv(v, lo, hi) && (v.spare.Spare? ==> v.spare.addr in v.chunks)
    && v.avail == AvailIndex(v.runs, v.spare) && v.nactive == ActivePages(v.runs)
  }

  lemma InUseInv(v: View, a: nat, lo: nat, hi: nat)
    requires ArenaInv(v, lo, hi) && a in v.chunks && v.spare != Spare(a)
    ensures a in v.runs && ChunkInv(v.chunks[a], v.runs[a], lo, hi)
  {
    hide ChunkInv, SpareInv;
  }

  /** Exchanging some runs of one chunk for others over the same pages. */
  ghost function Exchange(v: View, a: nat, c: Chunk, pre: seq<Run>, mid: seq<Run>, mid': seq<Run>, post: seq<Run>)
    : View
  {
    View(v.chunks[a := c], v.runs[a := pre + mid' + post], v.spare, v.avail - Elms(a, mid) + Elms(a, mid'),
         v.nactive - NActive(mid) + NActive(mid'))
  }

  lemma ExchangeInv(v: View, a: nat, c: Chunk, pre: seq<Run>, mid: seq<Run>, mid': seq<Run>, post: seq<Run>, lo: nat,
      s: nat, e: nat, hi: nat)
    requires ArenaInv(v, lo, hi) && a in v.chunks && v.spare != Spare(a)
    requires v.runs[a] == pre + mid + post && ChunkInv(c, pre + mid' + post, lo, hi)
    requires Tiled(pre, lo, s) && Tiled(mid, s, e) && Tiled(post, e, hi)
    ensures ArenaInv(Exchange(v, a, c, pre, mid, mid', post), lo, hi)
  {
    hide AvailIndex, ActivePages, NActive, Elms, ChunksInv, Tiled, ChunkInv;
    InUseInv(v, a, lo, hi);
    ExchangeAvail(v.runs, v.spare, a, pre, mid, mid', post, lo, s, e, hi);
    ExchangeActive(v.runs, a, pre, mid, mid', post);
    ChunksUpdate(v, Exchange(v, a, c, pre, mid, mid', post), a, c, pre + mid' + post, lo, hi);
  }

  lemma ExchangeActive(runs: map<nat, seq<Run>>, a: nat, pre: seq<Run>, mid: seq<Run>, mid': seq<Run>, post: seq<Run>)
    requires a in runs && runs[a] == pre + mid + post
    ensures ActivePages(runs[a := pre + mid' + post]) == ActivePages(runs) - NActive(mid) + NActive(mid')
  {
    ActivePagesUpdate(runs, a, pre + mid' + post);
    CountConcat(pre, mid);
    CountConcat(pre + mid, post);
    CountConcat(pre, mid');
    CountConcat(pre + mid', post);
  }

  lemma ChunksUpdate(v: View, v': View, a: nat, c: Chunk, rs: seq<Run>, lo: nat, hi: nat)
    requires ChunksInv(v, lo, hi) && v.spare != Spare(a) && ChunkInv(c, rs, lo, hi)
    requires v'.chunks == v.chunks[a := c] && v'.runs == v.runs[a := rs] && v'.spare == v.spare
    ensures ChunksInv(v', lo, hi)
  {
    hide ChunkInv, SpareInv;
  }

  lemma ExchangeAvail(runs: map<nat, seq<Run>>, spare: Spare, a: nat, pre: seq<Run>, mid: seq<Run>, mid': seq<Run>,
      post: seq<Run>, lo: nat, s: nat, e: nat, hi: nat)
    requires a in runs && spare != Spare(a) && runs[a] == pre + mid + post
    requires Tiled(pre, lo, s) && Tiled(mid, s, e) && Tiled(post, e, hi)
    ensures AvailIndex(runs[a := pre + mid' + post], spare) == AvailIndex(runs, spare) - Elms(a, mid) + Elms(a, mid')
  {
    AvailIndexUpdate(runs, spare, a, pre + mid' + post);
    ElmsConcat(a, pre, mid);
    ElmsConcat(a, pre + mid, post);
    ElmsConcat(a, pre, mid');
    ElmsConcat(a, pre + mid', post);
    ElmsDisjoint(a, pre, mid, lo, s, e);
    ElmsDisjoint(a, mid, post, s, e, hi);
    assert Elms(a, runs[a]) <= AvailIndex(runs, spare);
    SetExchange(AvailIndex(runs, spare), Elms(a, pre), Elms(a, mid), Elms(a, mid'), Elms(a, post));
  }

  lemma SetExchange<T>(all: set<T>, x: set<T>, m: set<T>, m': set<T>, y: set<T>)
    requires x !! m && m !! y && x <= all && y <= all
    ensures all - (x + m + y) + (x + m' + y) == all - m + m'
  {
  }

  /** A free run of a chunk is in the index; the remainder of a split of it is not yet. */
  lemma SplitFresh(v: View, a: nat, pre: seq<Run>, r: Run, post: seq<Run>, need: nat, lo: nat, hi: nat)
    requires ArenaInv(v, lo, hi) && a in v.chunks && v.spare != Spare(a)
    requires v.runs[a] == pre + [r] + post && IsFree(r) && 0 < need <= r.npages
    requires Tiled(pre, lo, r.start) && Tiled(post, r.End(), hi)
    ensures Elm(a, r.start, r.npages) in v.avail && ChunkInv(v.chunks[a], pre + [r] + post, lo, hi)
    ensures need < r.npages ==> Elm(a, r.start + need, r.npages - need) !in v.avail
  {
    assert r in v.runs[a];
    TiledBounds(pre, lo, r.start);
    TiledBounds(post, r.End(), hi);
    forall x | x in v.runs[a] && need < r.npages
      ensures x.start != r.start + need
    {
      assert x in pre || x == r || x in post;
    }
  }

  lemma SplitCounts(a: nat, r: Run, need: nat, kind: Kind)
    requires IsFree(r) && 0 < need <= r.npages && !kind.Free?
    ensures NActive(SplitMid(r, need, kind)) == need && NActive([r]) == 0
    ensures Elms(a, [r]) == {Elm(a, r.start, r.npages)}
    ensures Elms(a, SplitMid(r, need, kind)) == Elms(a, SplitMid(r, need, Large))
    ensures Tiled([r], r.start, r.End())
  {
    var mid := SplitMid(r, need, kind);
    assert [r][1..] == [];
    if need < r.npages {
      assert mid[1..] == [mid[1]] && [mid[1]][1..] == [] && NActive([mid[1]]) == 0;
    } else {
      assert mid[1..] == [];
    }
  }

  /** A split of a free run, seen from the whole arena. */
  lemma SplitCommit(v: View, v': View, a: nat, pre: seq<Run>, r: Run, post: seq<Run>, need: nat, kind: Kind, lo: nat,
      hi: nat)
    requires ArenaInv(v, lo, hi) && a in v.chunks && v.spare != Spare(a)
    requires v.runs[a] == pre + [r] + post && IsFree(r) && 0 < need <= r.npages && !kind.Free?
    requires Tiled(pre, lo, r.start) && Tiled(post, r.End(), hi)
    requires a in v'.chunks && ChunkInv(v'.chunks[a], pre + SplitMid(r, need, kind) + post, lo, hi)
    requires v' == View(v.chunks[a := v'.chunks[a]], v.runs[a := pre + SplitMid(r, need, kind) + post], v.spare,
                        v.avail - {Elm(a, r.start, r.npages)} + Elms(a, SplitMid(r, need, Large)), v.nactive + need)
    ensures ArenaInv(v', lo, hi)
  {
    SplitCounts(a, r, need, kind);
    ExchangeInv(v, a, v'.chunks[a], pre, [r], SplitMid(r, need, kind), post, lo, r.start, r.End(), hi);
  }

  // ----- Coalescing

  /** Writing the total size into the outer words of two adjacent free runs makes them one. */
  lemma JoinedAgrees(c: Chunk, f: Run, g: Run)
    requires IsFree(f) && IsFree(g) && f.dirty == g.dirty
    requires f.End() == g.start && Agrees(c.bits, f) && Agrees(c.bits, g)
    ensures var h := Run(f.start, f.npages + g.npages, Free, f.dirty);
      var c' := SetUnallocatedSize(SetUnallocatedSize(c, h.start, h.npages), h.End() - 1, h.npages);
      Agrees(c'.bits, h) && Outside(c.bits, c'.bits, h.start, h.End()) && c' == c.(bits := c'.bits)
  {
  }

  /** The run after a freed one, ready to be taken out of the index. */
  lemma ForwardPlaced(c: Chunk, pre: seq<Run>, f: Run, post: seq<Run>, lo: nat, hi: nat)
    requires Loose(c, pre, f, post, lo, hi) && JoinsNext(f, post)
    ensures Placed(c, pre + [Taken(f)], post[0], post[1..], false, true, lo, hi)
    ensures Counted(c, pre + [Taken(f)] + [post[0]] + post[1..])
    ensures post[0].start == f.End() && post[0].End() <= hi && Agrees(c.bits, post[0])
  {
    ForwardTiled(f, post, hi);
    TiledConcat(pre, [Taken(f)], lo, f.start, f.End());
    TiledBounds(post, f.End(), hi);
    assert pre + [Taken(f)] + [post[0]] + post[1..] == pre + [Taken(f)] + post;
    assert Agrees(c.bits, post[0]) && Agrees(c.bits, f);
    assert [Taken(f)][1..] == [];
  }

  lemma ForwardLoose(c: Chunk, c': Chunk, pre: seq<Run>, f: Run, post: seq<Run>, lo: nat, hi: nat)
    requires Loose(c, pre, f, post, lo, hi) && JoinsNext(f, post)
    requires Outside(c.bits, c'.bits, f.start, Forward(f, post).End()) && Agrees(c'.bits, Forward(f, post))
    requires Counted(c', pre + [Taken(f)] + [Taken(post[0])] + post[1..])
    ensures Loose(c', pre, Forward(f, post), post[1..], lo, hi)
  {
    var g := Forward(f, post);
    ForwardTiled(f, post, hi);
    assert forall x :: x in post[1..] ==> x in post;
    AgreeOutside(c.bits, c'.bits, pre, lo, f.start, f.start, g.End());
    AgreeOutside(c.bits, c'.bits, post[1..], g.End(), hi, f.start, g.End());
    TakenSame(pre, [Taken(f), Taken(post[0])], [Taken(g)], post[1..]);
    assert pre + [Taken(f)] + [Taken(post[0])] + post[1..] == pre + [Taken(f), Taken(post[0])] + post[1..];
    NoneFreeCounts([Taken(g)]);
    Coalesced3(pre, [Taken(f)], post);
    Coalesced3(pre, [Taken(g)], post[1..]);
  }

  lemma BackwardPlaced(c: Chunk, pre: seq<Run>, f: Run, post: seq<Run>, lo: nat, hi: nat)
    requires Loose(c, pre, f, post, lo, hi) && JoinsPrev(pre, f)
    ensures var init, last := pre[..|pre| - 1], pre[|pre| - 1];
      Placed(c, init, last, [Taken(f)] + post, true, false, lo, hi) && Counted(c, init + [last] + ([Taken(f)] + post))
    ensures lo <= pre[|pre| - 1].start && pre[|pre| - 1].End() == f.start && Agrees(c.bits, pre[|pre| - 1])
  {
    var init, last := pre[..|pre| - 1], pre[|pre| - 1];
    BackwardTiled(pre, f, lo);
    TiledConcat([Taken(f)], post, f.start, f.End(), hi);
    TiledBounds(pre, lo, f.start);
    assert init + [last] + ([Taken(f)] + post) == pre + [Taken(f)] + post;
    assert Agrees(c.bits, last) && Agrees(c.bits, f);
    assert forall x :: x in init ==> x in pre;
    assert [Taken(f)][1..] == [];
  }

  lemma BackwardLoose(c: Chunk, c': Chunk, pre: seq<Run>, f: Run, post: seq<Run>, lo: nat, hi: nat)
    requires Loose(c, pre, f, post, lo, hi) && JoinsPrev(pre, f)
    requires Outside(c.bits, c'.bits, Backward(pre, f).start, f.End()) && Agrees(c'.bits, Backward(pre, f))
    requires var init, last := pre[..|pre| - 1], pre[|pre| - 1]; Counted(c', init + [Taken(last)] + ([Taken(f)] + post))
    ensures Loose(c', pre[..|pre| - 1], Backward(pre, f), post, lo, hi)
  {
    var init, last, g := pre[..|pre| - 1], pre[|pre| - 1], Backward(pre, f);
    BackwardTiled(pre, f, lo);
    assert forall x :: x in init ==> x in pre;
    AgreeOutside(c.bits, c'.bits, init, lo, g.start, g.start, g.End());
    AgreeOutside(c.bits, c'.bits, post, g.End(), hi, g.start, g.End());
    TakenSame(init, [Taken(last), Taken(f)], [Taken(g)], post);
    assert init + [Taken(last)] + ([Taken(f)] + post) == init + [Taken(last), Taken(f)] + post;
    NoneFreeCounts([Taken(g)]);
    Coalesced3(pre, [Taken(f)], post);
    CoalescedConcat(init, [last]);
    assert init + [last] == pre;
    Coalesced3(init, [Taken(g)], post);
  }

  /** A freed run that has absorbed its neighbours, ready to be put into the index. */
  lemma FreedPlaced(c: Chunk, pre: seq<Run>, f: Run, post: seq<Run>, lo: nat, hi: nat)
    requires Loose(c, pre, f, post, lo, hi) && Coalesced(pre + [f] + post)
    ensures Placed(c, pre, f, post, true, true, lo, hi)
  {
    TiledBounds(post, f.End(), hi);
  }

  lemma FreedInv(c: Chunk, c': Chunk, pre: seq<Run>, f: Run, post: seq<Run>, lo: nat, hi: nat)
    requires Loose(c, pre, f, post, lo, hi) && Coalesced(pre + [f] + post)
    requires c'.bits == c.bits && Counted(c', pre + [f] + post)
    ensures ChunkInv(c', pre + [f] + post, lo, hi)
  {
    assert [f][1..] == [];
    TiledConcat(pre, [f], lo, f.start, f.End());
    TiledConcat(pre + [f], post, lo, f.End(), hi);
  }

  /** The index, split into the elements of other chunks and those of two stretches of chunk a. */
  ghost predicate Indexed(avail: set<Elm>, others: set<Elm>, a: nat, pre: seq<Run>, post: seq<Run>) {
    avail == others + Elms(a, pre) + Elms(a, post) && forall e :: e in others ==> e.addr != a
  }

  lemma IndexedNot(avail: set<Elm>, others: set<Elm>, a: nat, pre: seq<Run>, f: Run, post: seq<Run>, lo: nat, hi: nat)
    requires Indexed(avail, others, a, pre, post) && Tiled(pre, lo, f.start) && Tiled(post, f.End(), hi) && 0 < f.npages
    ensures Elm(a, f.start, f.npages) !in avail
  {
    TiledBounds(pre, lo, f.start);
    TiledBounds(post, f.End(), hi);
  }

  lemma IndexedNext(avail: set<Elm>, others: set<Elm>, a: nat, pre: seq<Run>, f: Run, post: seq<Run>, lo: nat, hi: nat)
    requires Indexed(avail, others, a, pre, post) && Tiled(pre, lo, f.start)
    requires Tiled(post, f.End(), hi) && FirstFree(post)
    ensures Elm(a, post[0].start, post[0].npages) in avail
    ensures Indexed(avail - {Elm(a, post[0].start, post[0].npages)}, others, a, pre, post[1..])
  {
    TiledBounds(pre, lo, f.start);
    TiledBounds(post[1..], post[0].End(), hi);
    assert post == [post[0]] + post[1..];
    ElmsConcat(a, [post[0]], post[1..]);
    assert Elms(a, [post[0]]) == {Elm(a, post[0].start, post[0].npages)};
  }

  lemma IndexedPrev(avail: set<Elm>, others: set<Elm>, a: nat, pre: seq<Run>, f: Run, post: seq<Run>, lo: nat, hi: nat)
    requires Indexed(avail, others, a, pre, post) && Tiled(pre, lo, f.start)
    requires Tiled(post, f.End(), hi) && LastFree(pre)
    ensures Elm(a, pre[|pre| - 1].start, pre[|pre| - 1].npages) in avail
    ensures Indexed(avail - {Elm(a, pre[|pre| - 1].start, pre[|pre| - 1].npages)}, others, a, pre[..|pre| - 1], post)
  {
    var init, last := pre[..|pre| - 1], pre[|pre| - 1];
    var e := Elm(a, last.start, last.npages);
    assert pre == init + [last];
    var mid := TiledSplit(init, [last], lo, f.start);
    ElmsConcat(a, init, [last]);
    assert Elms(a, [last]) == {e};
    assert e !in Elms(a, init) by {
      TiledBounds(init, lo, mid);
    }
    assert e !in Elms(a, post) by {
      TiledBounds(post, f.End(), hi);
    }
    OneLess(avail, others, Elms(a, init), e, Elms(a, post));
  }

  lemma OneLess(avail: set<Elm>, others: set<Elm>, p: set<Elm>, e: Elm, q: set<Elm>)
    requires avail == others + (p + {e}) + q && e !in p && e !in q && e !in others
    ensures e in avail && avail - {e} == others + p + q
  {
  }

  // ----- Freeing, seen from the whole arena

  ghost function Others(avail: set<Elm>, a: nat): set<Elm> {
    set e | e in avail && e.addr != a
  }

  lemma OthersIndexed(v: View, a: nat, pre: seq<Run>, r: Run, post: seq<Run>, lo: nat, hi: nat)
    requires ArenaInv(v, lo, hi) && a in v.chunks && v.spare != Spare(a) && v.runs[a] == pre + [r] + post && !IsFree(r)
    ensures Indexed(v.avail, Others(v.avail, a), a, pre, post)
    ensures ChunkInv(v.chunks[a], pre + [r] + post, lo, hi) && 0 < r.npages
  {
    assert r in v.runs[a] && Agrees(v.chunks[a].bits, r);
    ElmsConcat(a, pre, [r]);
    ElmsConcat(a, pre + [r], post);
    assert Elms(a, [r]) == {};
    OwnElms(v.runs, v.spare, a);
  }

  lemma OwnElms(runs: map<nat, seq<Run>>, spare: Spare, a: nat)
    requires a in runs && spare != Spare(a)
    ensures AvailIndex(runs, spare) == Others(AvailIndex(runs, spare), a) + Elms(a, runs[a])
  {
  }

  /** All of one chunk's runs exchanged, with the same pages in use but for npages freed. */
  lemma WholeCommit(v: View, v': View, a: nat, rs: seq<Run>, npages: nat, lo: nat, hi: nat)
    requires ArenaInv(v, lo, hi) && a in v.chunks && v.spare != Spare(a)
    requires a in v'.chunks && ChunkInv(v'.chunks[a], rs, lo, hi) && NActive(rs) + npages == NActive(v.runs[a])
    requires v' == View(v.chunks[a := v'.chunks[a]], v.runs[a := rs], v.spare, Others(v.avail, a) + Elms(a, rs),
        v.nactive - npages)
    ensures ArenaInv(v', lo, hi)
  {
    var was := v.runs[a];
    OwnElms(v.runs, v.spare, a);
    assert [] + was + [] == was && [] + rs + [] == rs;
    assert ChunkInv(v.chunks[a], was, lo, hi);
    ExchangeInv(v, a, v'.chunks[a], [], was, rs, [], lo, lo, hi, hi);
    assert v.avail - Elms(a, was) + Elms(a, rs) == v'.avail;
  }

  lemma FreedCounts(pre: seq<Run>, r: Run, dirty: bool, post: seq<Run>)
    requires !IsFree(r)
    ensures NActive(Freed(pre, r, dirty, post)) + r.npages == NActive(pre + [r] + post)
  {
    var f := Run(r.start, r.npages, Free, dirty);
    var g := Forward(f, post);
    var pre', h, post' := BackwardRest(pre, g), Backward(pre, g), ForwardRest(f, post);
    Count3(pre, [r], post);
    Count3(pre', [h], post');
    assert [r][1..] == [] && [h][1..] == [];
    if JoinsPrev(pre, g) {
      assert pre == pre' + [pre[|pre| - 1]];
      CountConcat(pre', [pre[|pre| - 1]]);
    }
  }

  /** A chunk that consists of one free run becomes the spare, in place of the old one. */
  lemma SpareCommit(v: View, v': View, a: nat, lo: nat, hi: nat)
    requires ArenaInv(v, lo, hi) && a in v.chunks && v.spare != Spare(a) && |v.runs[a]| == 1 && IsFree(v.runs[a][0])
    requires a in v'.chunks && SpareInv(v'.chunks[a], v.runs[a], lo, hi)
    requires var gone := if v.spare.Spare? then {v.spare.addr} else {};
      v' == View(v.chunks[a := v'.chunks[a]] - gone, v.runs - gone, Spare(a), v.avail - {Elm(a, lo, hi - lo)},
          v.nactive)
    ensures ArenaInv(v', lo, hi)
  {
    var gone := if v.spare.Spare? then {v.spare.addr} else {};
    SpareAvail(v, a, lo, hi);
    if v.spare.Spare? {
      ActivePagesRemove(v.runs, v.spare.addr);
      assert SpareInv(v.chunks[v.spare.addr], v.runs[v.spare.addr], lo, hi);
      assert v.runs[v.spare.addr][1..] == [];
    } else {
      assert v.runs - gone == v.runs;
    }
  }

  lemma SpareAvail(v: View, a: nat, lo: nat, hi: nat)
    requires a in v.runs && v.spare != Spare(a) && v.avail == AvailIndex(v.runs, v.spare)
    requires |v.runs[a]| == 1 && IsFree(v.runs[a][0]) && v.runs[a][0].start == lo && v.runs[a][0].End() == hi
    ensures var gone := if v.spare.Spare? then {v.spare.addr} else {};
      AvailIndex(v.runs - gone, Spare(a)) == v.avail - {Elm(a, lo, hi - lo)}
  {
    var gone := if v.spare.Spare? then {v.spare.addr} else {};
    OwnElms(v.runs, v.spare, a);
    assert Elms(a, v.runs[a]) == {Elm(a, lo, hi - lo)};
    forall e | e in v.avail && e.addr != a
      ensures e in AvailIndex(v.runs - gone, Spare(a))
    {
      assert e.addr in v.runs - gone;
    }
  }

  lemma IndexedAll(avail: set<Elm>, others: set<Elm>, a: nat, pre: seq<Run>, f: Run, post: seq<Run>)
    requires Indexed(avail, others, a, pre, post) && IsFree(f)
    ensures avail + {Elm(a, f.start, f.npages)} == others + Elms(a, pre + [f] + post)
  {
    ElmsConcat(a, pre, [f]);
    ElmsConcat(a, pre + [f], post);
    assert Elms(a, [f]) == {Elm(a, f.start, f.npages)};
  }

  /** What the words of an allocated run say of it. */
  lemma RunWords(c: Chunk, pre: seq<Run>, r: Run, post: seq<Run>, lo: nat, hi: nat)
    requires ChunkInv(c, pre + [r] + post, lo, hi) && !IsFree(r)
    ensures Agrees(c.bits, r) && c.bits[r.start].alloc
    ensures c.bits[r.start].large <==> r.kind.Large?
    ensures r.kind.Large? ==> c.bits[r.start].top == r.npages
    ensures r.kind.Small? ==> c.bits[r.start].binind == r.kind.binind
  {
    assert r in pre + [r] + post;
  }

  lemma SpareReady(v: View, a: nat, lo: nat, hi: nat)
    requires ArenaInv(v, lo, hi) && a in v.chunks && v.spare != Spare(a) && |v.runs[a]| == 1 && IsFree(v.runs[a][0])
    ensures var f := v.runs[a][0];
      && f.start == lo && f.End() == hi && Placed(v.chunks[a], [], f, [], false, false, lo, hi)
          && Counted(v.chunks[a], [] + [f] + [])
      && Elm(a, lo, hi - lo) in v.avail && Agrees(v.chunks[a].bits, f)
    ensures v.spare.Spare? ==> v.spare.addr in v.chunks && v.chunks[v.spare.addr].ndirty == 0
  {
    var f := v.runs[a][0];
    assert v.runs[a] == [f] && [] + [f] + [] == [f] && [f][1..] == [];
    assert f in v.runs[a];
    TiledBounds(v.runs[a], lo, hi);
    if v.spare.Spare? {
      assert SpareInv(v.chunks[v.spare.addr], v.runs[v.spare.addr], lo, hi);
    }
  }

  lemma SpareDone(c: Chunk, c': Chunk, f: Run, lo: nat, hi: nat)
    requires Placed(c, [], f, [], false, false, lo, hi) && Agrees(c.bits, f)
    requires c'.bits == c.bits && Counted(c', [] + [Taken(f)] + [])
    ensures SpareInv(c', [f], lo, hi)
  {
    assert [] + [Taken(f)] + [] == [Taken(f)];
    NoneFreeCounts([Taken(f)]);
  }

  /**
   What freeing a run of chunk a does to the runs of the arena: the chunk is exchanged for rs, and becomes the spare if
   that is one run.
   */
  ghost predicate FreedIn(runs: map<nat, seq<Run>>, spare: Spare, runs': map<nat, seq<Run>>, spare': Spare, a: nat,
      rs: seq<Run>) {
    if |rs| == 1 then spare' == Spare(a) && runs' == runs[a := rs] - (if spare.Spare? then {spare.addr} else {})
    else spare' == spare && runs' == runs[a := rs]
  }

  /** A freed run has the size of the whole chunk just when it is the only run. */
  lemma FreedWhole(pre: seq<Run>, r: Run, dirty: bool, post: seq<Run>, lo: nat, hi: nat)
    requires Tiled(pre, lo, r.start) && Tiled(post, r.End(), hi) && 0 < r.npages
    ensures var size := Backward(pre, Forward(Run(r.start, r.npages, Free, dirty), post)).npages;
      size == hi - lo <==> |Freed(pre, r, dirty, post)| == 1
    ensures |Freed(pre, r, dirty, post)| == 1 ==> IsFree(Freed(pre, r, dirty, post)[0])
    ensures forall x :: x in Freed(pre, r, dirty, post) ==> x in pre || x in post || IsFree(x)
  {
    var f := Run(r.start, r.npages, Free, dirty);
    var g := Forward(f, post);
    ForwardTiled(f, post, hi);
    BackwardTiled(pre, g, lo);
    FreedFrom(pre, r, dirty, post);
    var pre', h, post' := BackwardRest(pre, g), Backward(pre, g), ForwardRest(f, post);
    assert Freed(pre, r, dirty, post) == pre' + [h] + post';
    assert IsFree(h) && h.End() == g.End() && 0 < h.npages;
    hide *;
    WholeRun(pre', h, post', lo, hi);
  }

  lemma WholeRun(pre: seq<Run>, h: Run, post: seq<Run>, lo: nat, hi: nat)
    requires Tiled(pre, lo, h.start) && Tiled(post, h.End(), hi) && 0 < h.npages
    ensures h.npages == hi - lo <==> pre == [] && post == []
  {
    TiledBounds(pre, lo, h.start);
    TiledBounds(post, h.End(), hi);
  }

  lemma FreedFrom(pre: seq<Run>, r: Run, dirty: bool, post: seq<Run>)
    ensures forall x :: x in Freed(pre, r, dirty, post) ==> x in pre || x in post || IsFree(x)
  {
  }

  // ----- A chunk put to use

  /** A new chunk is as good as a spare one. */
  lemma FreshSpare(v: View, a: nat, c: Chunk, f: Run, lo: nat, hi: nat)
    requires ArenaInv(v, lo, hi) && v.spare == NoSpare && a !in v.chunks && SpareInv(c, [f], lo, hi)
    ensures ArenaInv(View(v.chunks[a := c], v.runs[a := [f]], Spare(a), v.avail, v.nactive), lo, hi)
  {
    var runs' := v.runs[a := [f]];
    ActivePagesUpdate(v.runs, a, [f]);
    assert [f][1..] == [] && a !in v.runs;
    forall e | e in v.avail
      ensures e in AvailIndex(runs', Spare(a))
    {
      assert runs'[e.addr] == v.runs[e.addr];
    }
    forall e | e in AvailIndex(runs', Spare(a))
      ensures e in v.avail
    {
      assert runs'[e.addr] == v.runs[e.addr];
    }
  }

  /** The spare's run, about to be put into the index. */
  lemma SpareOut(v: View, a: nat, lo: nat, hi: nat)
    requires ArenaInv(v, lo, hi) && v.spare == Spare(a)
    ensures a in v.chunks && a in v.runs && |v.runs[a]| == 1
    ensures var c, f := v.chunks[a], v.runs[a][0];
      && f.start == lo && f.End() == hi && IsFree(f) && Placed(c, [], f, [], false, false, lo, hi)
      && Counted(c, [] + [Taken(f)] + []) && Elm(a, lo, hi - lo) !in v.avail && v.runs[a] == [f]
  {
    var c, f := v.chunks[a], v.runs[a][0];
    assert SpareInv(c, v.runs[a], lo, hi);
    assert [] + [Taken(f)] + [] == [Taken(f)] && [] + [f] + [] == [f] && [f][1..] == [];
    NoneFreeCounts([Taken(f)]);
  }

  lemma SpareTaken(v: View, v': View, a: nat, lo: nat, hi: nat)
    requires ArenaInv(v, lo, hi) && v.spare == Spare(a) && a in v'.chunks
    requires v'.chunks[a].bits == v.chunks[a].bits && Counted(v'.chunks[a], [] + v.runs[a] + [])
    requires v' == View(v.chunks[a := v'.chunks[a]], v.runs, NoSpare, v.avail + {Elm(a, lo, hi - lo)}, v.nactive)
    ensures ArenaInv(v', lo, hi)
  {
    var f := v.runs[a][0];
    assert SpareInv(v.chunks[a], v.runs[a], lo, hi);
    assert v.runs[a] == [f] && [] + [f] + [] == [f] && [f][1..] == [];
    assert ChunkInv(v'.chunks[a], [f], lo, hi);
    OwnElms(v.runs, NoSpare, a);
    assert Elms(a, [f]) == {Elm(a, lo, hi - lo)};
    assert AvailIndex(v.runs, v.spare) == Others(AvailIndex(v.runs, NoSpare), a);
  }

  /** An element of the index is a free run of a chunk in use. */
  lemma IndexedRun(v: View, e: Elm, lo: nat, hi: nat) returns (r: Run)
    requires ArenaInv(v, lo, hi) && e in v.avail
    ensures e.addr in v.chunks && v.spare != Spare(e.addr) && r in v.runs[e.addr] && Tiled(v.runs[e.addr], lo, hi)
    ensures IsFree(r) && r.start == e.pageind && r.npages == e.size
  {
    r :| r in v.runs[e.addr] && IsFree(r) && e == Elm(e.addr, r.start, r.npages);
    assert ChunkInv(v.chunks[e.addr], v.runs[e.addr], lo, hi);
  }

  // ----- Changes that leave the free runs alone

  lemma {:induction false} NoneFreeActive(rs: seq<Run>, s: nat, e: nat)
    requires Tiled(rs, s, e) && NoneFree(rs)
    ensures NActive(rs) == e - s
  {
    if rs != [] {
      NoneFreeActive(rs[1..], rs[0].End(), e);
    }
  }

  /** Allocated runs described anew as other allocated runs over the same pages. */
  lemma RelabelInv(v: View, a: nat, c: Chunk, pre: seq<Run>, mid: seq<Run>, mid': seq<Run>, post: seq<Run>, lo: nat,
      s: nat, e: nat, hi: nat)
    requires ArenaInv(v, lo, hi) && a in v.chunks && v.spare != Spare(a) && v.runs[a] == pre + mid + post
    requires Tiled(pre, lo, s) && Tiled(mid, s, e) && Tiled(mid', s, e) && Tiled(post, e, hi)
    requires mid != [] && mid' != [] && NoneFree(mid) && NoneFree(mid')
    requires Outside(v.chunks[a].bits, c.bits, s, e) && AllAgree(c.bits, mid') && c == v.chunks[a].(bits := c.bits)
    ensures ArenaInv(v.(chunks := v.chunks[a := c], runs := v.runs[a := pre + mid' + post]), lo, hi)
  {
    hide *;
    InUseInv(v, a, lo, hi);
    RelabelChunk(v.chunks[a], c, pre, mid, mid', post, lo, s, e, hi);
    NoneFreeActive(mid, s, e);
    NoneFreeActive(mid', s, e);
    NoneFreeElms(a, mid);
    NoneFreeElms(a, mid');
    ExchangeInv(v, a, c, pre, mid, mid', post, lo, s, e, hi);
    SameExchange(v, a, c, pre, mid, mid', post);
  }

  lemma SameExchange(v: View, a: nat, c: Chunk, pre: seq<Run>, mid: seq<Run>, mid': seq<Run>, post: seq<Run>)
    requires Elms(a, mid) == Elms(a, mid') == {} && NActive(mid) == NActive(mid')
    ensures Exchange(v, a, c, pre, mid, mid', post)
            == v.(chunks := v.chunks[a := c], runs := v.runs[a := pre + mid' + post])
  {
  }

  lemma NoneFreeElms(a: nat, rs: seq<Run>)
    requires NoneFree(rs)
    ensures Elms(a, rs) == {}
  {
  }

  lemma RelabelChunk(c: Chunk, c': Chunk, pre: seq<Run>, mid: seq<Run>, mid': seq<Run>, post: seq<Run>, lo: nat,
      s: nat, e: nat, hi: nat)
    requires ChunkInv(c, pre + mid + post, lo, hi) && mid != [] && mid' != [] && NoneFree(mid) && NoneFree(mid')
    requires Tiled(pre, lo, s) && Tiled(mid, s, e) && Tiled(mid', s, e) && Tiled(post, e, hi)
    requires Outside(c.bits, c'.bits, s, e) && AllAgree(c'.bits, mid') && c' == c.(bits := c'.bits)
    ensures ChunkInv(c', pre + mid' + post, lo, hi)
  {
    TakenSame(pre, mid, mid', post);
    assert Counted(c', pre + mid + post);
    ReplaceInv(c, c', pre, mid, mid', post, lo, s, e, hi);
  }

  /** Only the flags that say whether pages are known to be zero differ. */
  ghost predicate SameButUnzeroed(m: seq<Word>, m': seq<Word>) {
    |m'| == |m| && forall i :: 0 <= i < |m| ==> m'[i] == m[i].(unzeroed := m'[i].unzeroed)
  }

  lemma UnzeroedInv(v: View, a: nat, c: Chunk, lo: nat, hi: nat)
    requires ArenaInv(v, lo, hi) && a in v.chunks && v.spare != Spare(a)
    requires SameButUnzeroed(v.chunks[a].bits, c.bits) && c == v.chunks[a].(bits := c.bits)
    ensures ArenaInv(v.(chunks := v.chunks[a := c]), lo, hi)
  {
    var rs := v.runs[a];
    assert ChunkInv(v.chunks[a], rs, lo, hi);
    forall r | r in rs
      ensures Agrees(c.bits, r)
    {
      assert Agrees(v.chunks[a].bits, r);
    }
    assert ChunkInv(c, rs, lo, hi);
  }
}
