/**
 The page map of one arena chunk (arena.h, arena.c): words that describe pages, the sequence of runs they
 stand for, and the redundant counters in the chunk header.  Everything here is a function of values;
 module Arena performs the same updates in place.
 */
module ArenaRuns {

  const BININD_INVALID: nat := 0xff

  /** A map word: the bits above the page offset (a size in pages or a page's index in its run), and the low bits. */
  datatype Word = Word(top: nat, binind: nat, dirty: bool, unzeroed: bool, large: bool, alloc: bool)

  datatype Kind = Free | Large | Small(binind: nat)

  /** A run of pages as the map describes it. */
  datatype Run = Run(start: nat, npages: nat, kind: Kind, dirty: bool) {
    ghost function End(): nat { start + npages }
  }

  /** The chunk header: the page map, and counters kept beside it. */
  datatype Chunk = Chunk(bits: seq<Word>, ndirty: int, nrunsAvail: int, nrunsAdjac: int)

  // ----- Runs

  /** The runs tile the pages [lo, hi). */
  ghost predicate Tiled(rs: seq<Run>, lo: nat, hi: nat) {
    if rs == [] then lo == hi
    else rs[0].start == lo && 0 < rs[0].npages && Tiled(rs[1..], rs[0].End(), hi)
  }

  ghost predicate IsFree(r: Run) {
    r.kind.Free?
  }

  ghost predicate FirstFree(rs: seq<Run>) {
    rs != [] && IsFree(rs[0])
  }

  ghost predicate LastFree(rs: seq<Run>) {
    rs != [] && IsFree(rs[|rs| - 1])
  }

  ghost function B(b: bool): nat {
    if b then 1 else 0
  }

  /** nruns_avail, nruns_adjac and ndirty as the map determines them. */
  ghost function NAvail(rs: seq<Run>): nat {
    if rs == [] then 0 else B(IsFree(rs[0])) + NAvail(rs[1..])
  }

  ghost function NAdjac(rs: seq<Run>): nat {
    if rs == [] then 0 else B(IsFree(rs[0]) && FirstFree(rs[1..])) + NAdjac(rs[1..])
  }

  ghost function NDirty(rs: seq<Run>): nat {
    if rs == [] then 0 else (if IsFree(rs[0]) && rs[0].dirty then rs[0].npages else 0) + NDirty(rs[1..])
  }

  /** Pages in allocated runs. */
  ghost function NActive(rs: seq<Run>): nat {
    if rs == [] then 0 else (if IsFree(rs[0]) then 0 else rs[0].npages) + NActive(rs[1..])
  }

  /** No two neighbours are free with the same dirty flag. */
  ghost predicate Coalesced(rs: seq<Run>) {
    rs == [] || (Coalesced(rs[1..]) && !(IsFree(rs[0]) && FirstFree(rs[1..]) && rs[0].dirty == rs[1].dirty))
  }

  /** Every page belongs to exactly one run. */
  lemma {:induction false} TiledCovers(rs: seq<Run>, lo: nat, hi: nat, p: nat) returns (r: Run)
    requires Tiled(rs, lo, hi) && lo <= p < hi
    ensures r in rs && r.start <= p < r.End() && forall x :: x in rs && x.start <= p < x.End() ==> x == r
  {
    assert forall x :: x in rs ==> x == rs[0] || x in rs[1..];
    if p < rs[0].End() {
      r := rs[0];
      TiledBounds(rs[1..], rs[0].End(), hi);
    } else {
      r := TiledCovers(rs[1..], rs[0].End(), hi, p);
    }
  }

  /** What coalescing means for neighbours. */
  lemma {:induction false} CoalescedNeighbours(rs: seq<Run>)
    ensures Coalesced(rs) <==>
      forall i :: 0 <= i < |rs| - 1 ==> !(IsFree(rs[i]) && IsFree(rs[i + 1]) && rs[i].dirty == rs[i + 1].dirty)
  {
    if rs != [] {
      CoalescedNeighbours(rs[1..]);
      assert forall i :: 0 < i < |rs| ==> rs[i] == rs[1..][i - 1];
      if Coalesced(rs) {
        forall i | 0 <= i < |rs| - 1
          ensures !(IsFree(rs[i]) && IsFree(rs[i + 1]) && rs[i].dirty == rs[i + 1].dirty)
        {
          if i > 0 {
            assert rs[1..][i - 1] == rs[i] && rs[1..][i] == rs[i + 1];
          }
        }
      } else if Coalesced(rs[1..]) {
        assert IsFree(rs[0]) && IsFree(rs[0 + 1]) && rs[0].dirty == rs[0 + 1].dirty;
      } else {
        var i :| 0 <= i < |rs[1..]| - 1 && IsFree(rs[1..][i]) && IsFree(rs[1..][i + 1])
            && rs[1..][i].dirty == rs[1..][i + 1].dirty;
        assert IsFree(rs[i + 1]) && IsFree(rs[i + 1 + 1]) && rs[i + 1].dirty == rs[i + 1 + 1].dirty;
      }
    }
  }

  lemma {:induction false} TiledConcat(a: seq<Run>, b: seq<Run>, lo: nat, mid: nat, hi: nat)
    requires Tiled(a, lo, mid) && Tiled(b, mid, hi)
    ensures Tiled(a + b, lo, hi)
  {
    if a == [] {
      assert a + b == b;
    } else {
      TiledConcat(a[1..], b, a[0].End(), mid, hi);
      assert (a + b)[1..] == a[1..] + b;
    }
  }

  lemma {:induction false} TiledSplit(a: seq<Run>, b: seq<Run>, lo: nat, hi: nat) returns (mid: nat)
    requires Tiled(a + b, lo, hi)
    ensures Tiled(a, lo, mid) && Tiled(b, mid, hi)
  {
    if a == [] {
      assert a + b == b;
      mid := lo;
    } else {
      assert (a + b)[1..] == a[1..] + b;
      mid := TiledSplit(a[1..], b, a[0].End(), hi);
    }
  }

  lemma {:induction false} TiledBounds(rs: seq<Run>, lo: nat, hi: nat)
    requires Tiled(rs, lo, hi)
    ensures lo <= hi && forall r :: r in rs ==> lo <= r.start && 0 < r.npages && r.End() <= hi
    ensures rs != [] ==> rs[|rs| - 1].End() == hi
  {
    if rs != [] {
      TiledBounds(rs[1..], rs[0].End(), hi);
    }
  }

  /** Counts over a concatenation: all are sums, but for the pair of runs that meet. */
  lemma {:induction false} CountConcat(a: seq<Run>, b: seq<Run>)
    ensures NAvail(a + b) == NAvail(a) + NAvail(b)
    ensures NAdjac(a + b) == NAdjac(a) + NAdjac(b) + B(LastFree(a) && FirstFree(b))
    ensures NDirty(a + b) == NDirty(a) + NDirty(b)
    ensures NActive(a + b) == NActive(a) + NActive(b)
  {
    if a == [] {
      assert a + b == b;
    } else {
      CountConcat(a[1..], b);
      assert (a + b)[1..] == a[1..] + b;
    }
  }

  lemma {:induction false} CoalescedConcat(a: seq<Run>, b: seq<Run>)
    ensures Coalesced(a + b) <==>
      (Coalesced(a) && Coalesced(b) && !(LastFree(a) && FirstFree(b) && a[|a| - 1].dirty == b[0].dirty))
  {
    if a == [] {
      assert a + b == b;
    } else {
      CoalescedConcat(a[1..], b);
      assert (a + b)[1..] == a[1..] + b;
    }
  }

  /** There are fewer adjacencies than free runs, unless there are none of either. */
  lemma {:induction false} AdjacLess(rs: seq<Run>)
    ensures NAdjac(rs) + B(FirstFree(rs)) <= NAvail(rs)
    ensures NAdjac(rs) < NAvail(rs) || NAdjac(rs) == NAvail(rs) == 0
  {
    if rs != [] {
      AdjacLess(rs[1..]);
    }
  }

  /** Counts and coalescing around a middle part. */
  lemma Count3(pre: seq<Run>, mid: seq<Run>, post: seq<Run>)
    requires mid != []
    ensures var rs := pre + mid + post;
      && NAvail(rs) == NAvail(pre) + NAvail(mid) + NAvail(post)
      && NAdjac(rs) == NAdjac(pre) + NAdjac(mid) + NAdjac(post) + B(LastFree(pre) && FirstFree(mid))
          + B(LastFree(mid) && FirstFree(post))
      && NDirty(rs) == NDirty(pre) + NDirty(mid) + NDirty(post)
      && NActive(rs) == NActive(pre) + NActive(mid) + NActive(post)
  {
    CountConcat(pre, mid);
    CountConcat(pre + mid, post);
  }

  lemma Coalesced3(pre: seq<Run>, mid: seq<Run>, post: seq<Run>)
    requires mid != []
    ensures Coalesced(pre + mid + post) <==>
      (Coalesced(pre) && Coalesced(mid) && Coalesced(post)
       && !(LastFree(pre) && FirstFree(mid) && pre[|pre| - 1].dirty == mid[0].dirty)
       && !(LastFree(mid) && FirstFree(post) && mid[|mid| - 1].dirty == post[0].dirty))
  {
    CoalescedConcat(pre, mid);
    CoalescedConcat(pre + mid, post);
  }

  // ----- The map

  /** The words at a run's pages describe it: its first and last words agree on what it is. */
  ghost predicate Agrees(bits: seq<Word>, r: Run) {
    0 < r.npages && r.End() <= |bits| &&
    var first, last := bits[r.start], bits[r.End() - 1];
    && first.dirty == r.dirty && last.dirty == r.dirty
    && match r.kind
       case Free =>
         !first.alloc && !last.alloc && !first.large && !last.large && first.top == r.npages && last.top == r.npages
       case Large =>
         && first.alloc && last.alloc && first.large && last.large
         && first.top == r.npages && (1 < r.npages ==> last.top == 0)
       case Small(binind) =>
         forall p :: r.start <= p < r.End() ==>
           bits[p].alloc && !bits[p].large && bits[p].top == p - r.start && bits[p].binind == binind
  }

  ghost predicate AllAgree(bits: seq<Word>, rs: seq<Run>) {
    forall r :: r in rs ==> Agrees(bits, r)
  }

  /** The header's counters are what they would be for these runs. */
  ghost predicate Counted(c: Chunk, rs: seq<Run>) {
    c.nrunsAvail == NAvail(rs) && c.nrunsAdjac == NAdjac(rs) && c.ndirty == NDirty(rs)
  }

  /** What holds of a chunk in use: map, tiling and counters agree, and free runs are coalesced. */
  ghost predicate ChunkInv(c: Chunk, rs: seq<Run>, lo: nat, hi: nat) {
    |c.bits| == hi && Tiled(rs, lo, hi) && AllAgree(c.bits, rs) && Coalesced(rs) && Counted(c, rs)
  }

  /** Words outside [s, e) are as before. */
  ghost predicate Outside(m: seq<Word>, m': seq<Word>, s: nat, e: nat) {
    |m'| == |m| && forall i :: 0 <= i < |m| && !(s <= i < e) ==> m'[i] == m[i]
  }

  /**
   Which pages are known to be zero is as before, but for the pages [s, e) if these are dirty: of dirty pages nothing is
   said anyway.
   */
  ghost predicate ZeroKept(m: seq<Word>, m': seq<Word>, s: int, e: int, dirty: bool) {
    |m'| == |m| && forall p :: 0 <= p < |m| && !(dirty && s <= p < e) ==> m'[p].unzeroed == m[p].unzeroed
  }

  lemma AgreeOutside(m: seq<Word>, m': seq<Word>, rs: seq<Run>, lo: nat, hi: nat, s: nat, e: nat)
    requires Tiled(rs, lo, hi) && AllAgree(m, rs) && Outside(m, m', s, e) && (hi <= s || e <= lo)
    ensures AllAgree(m', rs)
  {
    TiledBounds(rs, lo, hi);
    forall r | r in rs
      ensures Agrees(m', r)
    {
      assert Agrees(m, r);
    }
  }

  /** Whether the page before or after a run belongs to a free run can be read off one word. */
  lemma NeighbourFree(bits: seq<Word>, rs: seq<Run>, lo: nat, hi: nat)
    requires Tiled(rs, lo, hi) && AllAgree(bits, rs) && lo < hi
    ensures hi <= |bits|
    ensures FirstFree(rs) <==> !bits[lo].alloc
    ensures LastFree(rs) <==> !bits[hi - 1].alloc
    ensures FirstFree(rs) ==> bits[lo].top == rs[0].npages && bits[lo].dirty == rs[0].dirty
    ensures LastFree(rs) ==> bits[hi - 1].top == rs[|rs| - 1].npages && bits[hi - 1].dirty == rs[|rs| - 1].dirty
  {
    TiledBounds(rs, lo, hi);
    assert Agrees(bits, rs[0]) && Agrees(bits, rs[|rs| - 1]);
  }

  /** Exchanging the middle runs for others over the same pages. */
  lemma ReplaceInv(c: Chunk, c': Chunk, pre: seq<Run>, mid: seq<Run>, mid': seq<Run>, post: seq<Run>, lo: nat, s: nat,
      e: nat, hi: nat)
    requires ChunkInv(c, pre + mid + post, lo, hi)
    requires Tiled(pre, lo, s) && Tiled(mid', s, e) && Tiled(post, e, hi)
    requires Outside(c.bits, c'.bits, s, e) && AllAgree(c'.bits, mid')
    requires Coalesced(pre + mid' + post) && Counted(c', pre + mid' + post)
    ensures ChunkInv(c', pre + mid' + post, lo, hi)
  {
    TiledBounds(pre, lo, s);
    TiledBounds(post, e, hi);
    AgreeOutside(c.bits, c'.bits, pre, lo, s, s, e);
    AgreeOutside(c.bits, c'.bits, post, e, hi, s, e);
    TiledConcat(pre, mid', lo, s, e);
    TiledConcat(pre + mid', post, lo, e, hi);
  }

  // ----- Writing words (arena_mapbits_*_set)

  function SetUnallocated(c: Chunk, i: nat, size: nat, dirty: bool, unzeroed: bool): Chunk
    requires i < |c.bits|
  {
    c.(bits := c.bits[i := Word(size, BININD_INVALID, dirty, unzeroed, false, false)])
  }

  function SetUnallocatedSize(c: Chunk, i: nat, size: nat): Chunk
    requires i < |c.bits|
  {
    c.(bits := c.bits[i := c.bits[i].(top := size)])
  }

  function SetLarge(c: Chunk, i: nat, size: nat, dirty: bool): Chunk
    requires i < |c.bits|
  {
    c.(bits := c.bits[i := Word(size, BININD_INVALID, dirty, c.bits[i].unzeroed, true, true)])
  }

  function SetSmall(c: Chunk, i: nat, runind: nat, binind: nat, dirty: bool): Chunk
    requires i < |c.bits|
  {
    c.(bits := c.bits[i := Word(runind, binind, dirty, c.bits[i].unzeroed, false, true)])
  }

  function SetUnzeroed(c: Chunk, i: nat, unzeroed: bool): Chunk
    requires i < |c.bits|
  {
    c.(bits := c.bits[i := c.bits[i].(unzeroed := unzeroed)])
  }

  // ----- Splitting

  /** A run cut in two: the first pages taken for a run of the given kind, the rest still free. */
  ghost function SplitMid(r: Run, need: nat, kind: Kind): seq<Run>
    requires need <= r.npages
  {
    [Run(r.start, need, kind, r.dirty)]
    + if need < r.npages then [Run(r.start + need, r.npages - need, Free, r.dirty)] else []
  }

  ghost predicate NoneFree(rs: seq<Run>) {
    forall r :: r in rs ==> !IsFree(r)
  }

  lemma {:induction false} NoneFreeCounts(rs: seq<Run>)
    requires NoneFree(rs)
    ensures NAvail(rs) == NAdjac(rs) == NDirty(rs) == 0 && !FirstFree(rs) && !LastFree(rs) && Coalesced(rs)
  {
    if rs != [] {
      NoneFreeCounts(rs[1..]);
    }
  }

  /** Only free runs count. */
  lemma TakenSame(pre: seq<Run>, x: seq<Run>, y: seq<Run>, post: seq<Run>)
    requires x != [] && y != [] && NoneFree(x) && NoneFree(y)
    ensures forall c :: Counted(c, pre + x + post) <==> Counted(c, pre + y + post)
    ensures Coalesced(pre + x + post) <==> Coalesced(pre + y + post)
  {
    NoneFreeCounts(x);
    NoneFreeCounts(y);
    Count3(pre, x, post);
    Count3(pre, y, post);
    Coalesced3(pre, x, post);
    Coalesced3(pre, y, post);
  }

  lemma SplitCoalesced(pre: seq<Run>, r: Run, post: seq<Run>, need: nat, kind: Kind)
    requires Coalesced(pre + [r] + post) && IsFree(r) && need <= r.npages && !kind.Free?
    ensures Coalesced(pre + SplitMid(r, need, kind) + post)
  {
    Coalesced3(pre, [r], post);
    var mid := SplitMid(r, need, kind);
    if need < r.npages {
      assert mid[1..] == [mid[1]] && mid[1..][1..] == [];
    } else {
      assert mid[1..] == [];
    }
    assert Coalesced(mid) && !FirstFree(mid);
    assert [r][0].dirty == r.dirty && (LastFree(mid) ==> mid[|mid| - 1].dirty == r.dirty);
    Coalesced3(pre, mid, post);
  }

  lemma SplitTiled(r: Run, need: nat, kind: Kind)
    requires 0 < need <= r.npages
    ensures Tiled(SplitMid(r, need, kind), r.start, r.End())
  {
    var mid := SplitMid(r, need, kind);
    if need < r.npages {
      assert mid[1..] == [mid[1]] && mid[1..][1..] == [];
    }
  }

  // ----- Freeing and coalescing

  /** The run f is freed next to post: does it absorb the run after it? */
  ghost predicate JoinsNext(f: Run, post: seq<Run>) {
    FirstFree(post) && post[0].dirty == f.dirty
  }

  ghost predicate JoinsPrev(pre: seq<Run>, f: Run) {
    LastFree(pre) && pre[|pre| - 1].dirty == f.dirty
  }

  ghost function Forward(f: Run, post: seq<Run>): Run {
    if JoinsNext(f, post) then f.(npages := f.npages + post[0].npages) else f
  }

  ghost function ForwardRest(f: Run, post: seq<Run>): seq<Run> {
    if JoinsNext(f, post) then post[1..] else post
  }

  ghost function Backward(pre: seq<Run>, f: Run): Run {
    if JoinsPrev(pre, f) then f.(start := pre[|pre| - 1].start, npages := pre[|pre| - 1].npages + f.npages) else f
  }

  ghost function BackwardRest(pre: seq<Run>, f: Run): seq<Run> {
    if JoinsPrev(pre, f) then pre[..|pre| - 1] else pre
  }

  /** The runs of a chunk after freeing one of them. */
  ghost function Freed(pre: seq<Run>, r: Run, dirty: bool, post: seq<Run>): seq<Run> {
    var f := Run(r.start, r.npages, Free, dirty);
    var g := Forward(f, post);
    BackwardRest(pre, g) + [Backward(pre, g)] + ForwardRest(f, post)
  }

  /** In the middle of freeing f: its words are set, its neighbours' counted, but f itself is not counted yet. */
  ghost predicate Loose(c: Chunk, pre: seq<Run>, f: Run, post: seq<Run>, lo: nat, hi: nat) {
    && |c.bits| == hi && IsFree(f) && Tiled(pre, lo, f.start) && Tiled(post, f.End(), hi)
    && AllAgree(c.bits, pre) && Agrees(c.bits, f) && AllAgree(c.bits, post)
    && Counted(c, pre + [f.(kind := Large)] + post) && Coalesced(pre + [f.(kind := Large)] + post)
  }

  /** Setting the words of a run being freed. */
  lemma FreeLoose(c: Chunk, c': Chunk, pre: seq<Run>, r: Run, post: seq<Run>, dirty: bool, lo: nat, hi: nat)
    requires ChunkInv(c, pre + [r] + post, lo, hi) && !IsFree(r) && Tiled(pre, lo, r.start) && Tiled(post, r.End(), hi)
    requires Outside(c.bits, c'.bits, r.start, r.End()) && Agrees(c'.bits, Run(r.start, r.npages, Free, dirty))
    requires c' == c.(bits := c'.bits)
    ensures Loose(c', pre, Run(r.start, r.npages, Free, dirty), post, lo, hi)
  {
    var f := Run(r.start, r.npages, Free, dirty);
    assert forall x :: x in pre || x in post ==> x in pre + [r] + post;
    AgreeOutside(c.bits, c'.bits, pre, lo, r.start, r.start, r.End());
    AgreeOutside(c.bits, c'.bits, post, r.End(), hi, r.start, r.End());
    TakenSame(pre, [r], [f.(kind := Large)], post);
  }

  /** A chain of neighbours: the tiles on both sides of the run after f. */
  lemma ForwardTiled(f: Run, post: seq<Run>, hi: nat)
    requires Tiled(post, f.End(), hi)
    ensures JoinsNext(f, post) ==> Tiled(post[1..], Forward(f, post).End(), hi) && post == [post[0]] + post[1..]
  {
  }

  lemma BackwardTiled(pre: seq<Run>, f: Run, lo: nat)
    requires Tiled(pre, lo, f.start)
    ensures JoinsPrev(pre, f) ==>
      Tiled(pre[..|pre| - 1], lo, Backward(pre, f).start) && pre[|pre| - 1].End() == f.start
          && pre == pre[..|pre| - 1] + [pre[|pre| - 1]]
    ensures JoinsPrev(pre, f) ==> 0 < pre[|pre| - 1].npages
  {
    if JoinsPrev(pre, f) {
      var init, last := pre[..|pre| - 1], pre[|pre| - 1];
      assert pre == init + [last];
      var mid := TiledSplit(init, [last], lo, f.start);
    }
  }

  /** After both coalescing steps no free neighbour has the same dirty flag. */
  lemma FreedCoalesced(pre: seq<Run>, f: Run, post: seq<Run>)
    requires IsFree(f) && Coalesced(pre + [f.(kind := Large)] + post)
    ensures var g := Forward(f, post); Coalesced(BackwardRest(pre, g) + [Backward(pre, g)] + ForwardRest(f, post))
  {
    var g := Forward(f, post);
    var pre', h, post' := BackwardRest(pre, g), Backward(pre, g), ForwardRest(f, post);
    Coalesced3(pre, [f.(kind := Large)], post);
    if JoinsPrev(pre, g) {
      assert pre == pre' + [pre[|pre| - 1]];
      CoalescedConcat(pre', [pre[|pre| - 1]]);
    }
    assert [h][1..] == [] && Coalesced([h]);
    Coalesced3(pre', [h], post');
  }
}
