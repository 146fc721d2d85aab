/**
 What splitting and freeing runs does to an arena as its callers see it: the set of allocated runs, the
 dirty pages and the active pages.  Callers name runs, not positions in a chunk, so here is also how a
 run is found in the sequence of runs of its chunk.
 */
module ArenaEffects {
  import opened ArenaRuns
  import opened ArenaIndex
  import opened ArenaState

  /** The allocated runs of all chunks. */
  ghost function Used(runs: map<nat, seq<Run>>): set<(nat, Run)> {
    set a, r | a in runs && r in runs[a] && !IsFree(r) :: (a, r)
  }

  ghost function UsedIn(a: nat, rs: seq<Run>): set<(nat, Run)> {
    set r | r in rs && !IsFree(r) :: (a, r)
  }

  ghost function DirtMap(runs: map<nat, seq<Run>>, spare: Spare): map<nat, int> {
    map a | a in runs :: if spare == Spare(a) then 0 else NDirty(runs[a])
  }

  /** Dirty pages of all chunks but the spare, counted from the runs. */
  ghost function Dirt(runs: map<nat, seq<Run>>, spare: Spare): int {
    Sum(DirtMap(runs, spare))
  }

  /** The run r of a tiling, and what comes before and after it. */
  ghost predicate At(rs: seq<Run>, pre: seq<Run>, r: Run, post: seq<Run>, lo: nat, hi: nat) {
    rs == pre + [r] + post && 0 < r.npages && Tiled(pre, lo, r.start) && Tiled(post, r.End(), hi)
  }

  lemma Locate(rs: seq<Run>, r: Run, lo: nat, hi: nat) returns (pre: seq<Run>, post: seq<Run>)
    requires Tiled(rs, lo, hi) && r in rs
    ensures At(rs, pre, r, post, lo, hi)
  {
    var i :| 0 <= i < |rs| && rs[i] == r;
    pre, post := rs[..i], rs[i + 1..];
    var tail := [r] + post;
    assert rs == pre + tail && tail[0] == r && tail[1..] == post;
    var mid := TiledSplit(pre, tail, lo, hi);
    assert pre + tail == pre + [r] + post;
  }

  /** The allocated run at a place is there only once. */
  lemma Once(rs: seq<Run>, pre: seq<Run>, r: Run, post: seq<Run>, lo: nat, hi: nat)
    requires At(rs, pre, r, post, lo, hi)
    ensures r !in pre && r !in post && lo <= r.start && r.End() <= hi
  {
    TiledBounds(pre, lo, r.start);
    TiledBounds(post, r.End(), hi);
  }

  lemma UsedUpdate(runs: map<nat, seq<Run>>, a: nat, rs: seq<Run>)
    ensures Used(runs[a := rs]) == Used(runs) - (if a in runs then UsedIn(a, runs[a]) else {}) + UsedIn(a, rs)
  {
    var runs' := runs[a := rs];
    forall e | e in Used(runs) && e.0 != a
      ensures e in Used(runs')
    {
      assert runs'[e.0] == runs[e.0];
    }
    forall e | e in Used(runs') && e.0 != a
      ensures e in Used(runs)
    {
      assert runs'[e.0] == runs[e.0];
    }
    assert runs'[a] == rs;
  }

  /** A new chunk that is one free run has nothing in use. */
  lemma NoneUsed(runs: map<nat, seq<Run>>, a: nat, f: Run)
    requires a !in runs && IsFree(f)
    ensures Used(runs[a := [f]]) == Used(runs) && ActivePages(runs[a := [f]]) == ActivePages(runs)
  {
    UsedUpdate(runs, a, [f]);
    ActivePagesUpdate(runs, a, [f]);
    assert [f][1..] == [];
    assert UsedIn(a, [f]) == {};
  }

  lemma UsedRemove(runs: map<nat, seq<Run>>, a: nat)
    requires a in runs
    ensures Used(runs) == Used(runs - {a}) + UsedIn(a, runs[a])
  {
    forall e | e in Used(runs) && e.0 != a
      ensures e in Used(runs - {a})
    {
      assert e.0 in runs - {a};
    }
  }

  lemma DirtUpdate(runs: map<nat, seq<Run>>, spare: Spare, a: nat, rs: seq<Run>)
    requires a in runs && spare != Spare(a)
    ensures Dirt(runs[a := rs], spare) == Dirt(runs, spare) - NDirty(runs[a]) + NDirty(rs)
  {
    assert DirtMap(runs[a := rs], spare) == DirtMap(runs, spare)[a := NDirty(rs)];
    SumUpdate(DirtMap(runs, spare), a, NDirty(rs));
  }

  /** A spare that is put to use brings its dirty pages with it. */
  lemma SpareDirt(runs: map<nat, seq<Run>>, a: nat, f: Run)
    requires a in runs && runs[a] == [f]
    ensures Dirt(runs, NoSpare) == Dirt(runs, Spare(a)) + (if IsFree(f) && f.dirty then f.npages else 0)
  {
    assert [f][1..] == [];
    assert DirtMap(runs, NoSpare) == DirtMap(runs, Spare(a))[a := NDirty([f])];
    SumUpdate(DirtMap(runs, Spare(a)), a, NDirty([f]));
  }

  lemma FreshDirt(runs: map<nat, seq<Run>>, a: nat, f: Run)
    requires a !in runs && !f.dirty
    ensures Dirt(runs[a := [f]], NoSpare) == Dirt(runs, NoSpare)
  {
    assert [f][1..] == [] && NDirty([f]) == 0;
    var m, m' := DirtMap(runs, NoSpare), DirtMap(runs[a := [f]], NoSpare);
    assert m' == m[a := 0];
    assert a !in m;
    SumUpdate(m, a, 0);
  }

  lemma UsedConcat(a: nat, x: seq<Run>, y: seq<Run>)
    ensures UsedIn(a, x + y) == UsedIn(a, x) + UsedIn(a, y)
  {
  }

  /** arena->ndirty counts exactly the dirty pages of the runs. */
  lemma DirtAgrees(v: View, lo: nat, hi: nat)
    requires ArenaInv(v, lo, hi)
    ensures DirtyPages(v.chunks) == Dirt(v.runs, v.spare)
  {
    assert DirtyMap(v.chunks) == DirtMap(v.runs, v.spare);
  }

  lemma UsedWithin(runs: map<nat, seq<Run>>, a: nat)
    requires a in runs
    ensures UsedIn(a, runs[a]) <= Used(runs)
  {
  }

  lemma NotYetUsed(runs: map<nat, seq<Run>>, a: nat, pre: seq<Run>, r: Run, post: seq<Run>, x: Run, lo: nat, hi: nat)
    requires a in runs && At(runs[a], pre, r, post, lo, hi) && IsFree(r)
    requires x.start == r.start && 0 < x.npages <= r.npages && !IsFree(x)
    ensures (a, x) !in Used(runs)
  {
    TiledBounds(pre, lo, r.start);
    TiledBounds(post, r.End(), hi);
  }

  lemma SplitUsed(a: nat, pre: seq<Run>, r: Run, post: seq<Run>, need: nat, kind: Kind)
    requires IsFree(r) && 0 < need <= r.npages && !kind.Free?
    ensures UsedIn(a, pre + SplitMid(r, need, kind) + post)
            == UsedIn(a, pre + [r] + post) + {(a, Run(r.start, need, kind, r.dirty))}
  {
    var mid := SplitMid(r, need, kind);
    UsedConcat(a, pre, [r]);
    UsedConcat(a, pre + [r], post);
    UsedConcat(a, pre, mid);
    UsedConcat(a, pre + mid, post);
    assert UsedIn(a, mid) == {(a, Run(r.start, need, kind, r.dirty))} && UsedIn(a, [r]) == {};
  }

  lemma SplitEffectCounts(pre: seq<Run>, r: Run, post: seq<Run>, need: nat, kind: Kind)
    requires IsFree(r) && 0 < need <= r.npages && !kind.Free?
    ensures NDirty(pre + SplitMid(r, need, kind) + post) == NDirty(pre + [r] + post) - (if r.dirty then need else 0)
    ensures NActive(pre + SplitMid(r, need, kind) + post) == NActive(pre + [r] + post) + need
  {
    var mid := SplitMid(r, need, kind);
    Count3(pre, mid, post);
    Count3(pre, [r], post);
    assert [r][1..] == [];
    if need < r.npages {
      assert mid[1..] == [mid[1]] && mid[1..][1..] == [];
    } else {
      assert mid[1..] == [];
    }
  }

  /** A split allocates one run and makes its pages active and no longer dirty. */
  lemma SplitEffect(runs: map<nat, seq<Run>>, spare: Spare, a: nat, pre: seq<Run>, r: Run, post: seq<Run>, need: nat,
      kind: Kind, lo: nat, hi: nat)
    requires a in runs && spare != Spare(a) && At(runs[a], pre, r, post, lo, hi)
    requires IsFree(r) && 0 < need <= r.npages && !kind.Free?
    ensures var runs' := runs[a := pre + SplitMid(r, need, kind) + post];
      && Used(runs') == Used(runs) + {(a, Run(r.start, need, kind, r.dirty))}
      && Dirt(runs', spare) == Dirt(runs, spare) - (if r.dirty then need else 0)
      && ActivePages(runs') == ActivePages(runs) + need
    ensures (a, Run(r.start, need, kind, r.dirty)) !in Used(runs)
  {
    var rs := pre + SplitMid(r, need, kind) + post;
    SplitUsed(a, pre, r, post, need, kind);
    NotYetUsed(runs, a, pre, r, post, Run(r.start, need, kind, r.dirty), lo, hi);
    UsedWithin(runs, a);
    UsedUpdate(runs, a, rs);
    SplitEffectCounts(pre, r, post, need, kind);
    DirtUpdate(runs, spare, a, rs);
    ActivePagesUpdate(runs, a, rs);
    assert runs[a] == pre + [r] + post;
    hide *;
  }

  lemma FreedUsed(a: nat, pre: seq<Run>, r: Run, dirty: bool, post: seq<Run>)
    requires !IsFree(r)
    ensures UsedIn(a, Freed(pre, r, dirty, post)) == UsedIn(a, pre) + UsedIn(a, post)
    ensures UsedIn(a, pre + [r] + post) == UsedIn(a, pre) + UsedIn(a, post) + {(a, r)}
  {
    var f := Run(r.start, r.npages, Free, dirty);
    var g := Forward(f, post);
    var pre', h, post' := BackwardRest(pre, g), Backward(pre, g), ForwardRest(f, post);
    UsedConcat(a, pre', [h]);
    UsedConcat(a, pre' + [h], post');
    UsedConcat(a, pre, [r]);
    UsedConcat(a, pre + [r], post);
    if JoinsPrev(pre, g) {
      assert pre == pre' + [pre[|pre| - 1]];
    }
    if JoinsNext(f, post) {
      assert post == [post[0]] + post';
    }
  }

  /** A clean run joins only clean neighbours. */
  lemma FreedDirt(pre: seq<Run>, r: Run, dirty: bool, post: seq<Run>)
    requires !IsFree(r)
    ensures NDirty(Freed(pre, r, dirty, post)) == NDirty(pre + [r] + post) + (if dirty then r.npages else 0)
  {
    var f := Run(r.start, r.npages, Free, dirty);
    var g := Forward(f, post);
    var pre', h, post' := BackwardRest(pre, g), Backward(pre, g), ForwardRest(f, post);
    Count3(pre, [r], post);
    Count3(pre', [h], post');
    assert [r][1..] == [] && [h][1..] == [];
    if JoinsPrev(pre, g) {
      assert pre == pre' + [pre[|pre| - 1]];
      CountConcat(pre', [pre[|pre| - 1]]);
      assert [pre[|pre| - 1]][1..] == [];
    }
  }

  ghost predicate SpareRuns(runs: map<nat, seq<Run>>, spare: Spare) {
    spare.Spare? ==> spare.addr in runs && |runs[spare.addr]| == 1 && IsFree(runs[spare.addr][0])
  }

  lemma SpareRunsHold(v: View, lo: nat, hi: nat)
    requires ArenaInv(v, lo, hi)
    ensures SpareRuns(v.runs, v.spare)
  {
    if v.spare.Spare? {
      assert SpareInv(v.chunks[v.spare.addr], v.runs[v.spare.addr], lo, hi);
    }
  }

  lemma UsedOnce(runs: map<nat, seq<Run>>, a: nat, pre: seq<Run>, r: Run, post: seq<Run>)
    requires a in runs && runs[a] == pre + [r] + post && r !in pre && r !in post && !IsFree(r)
    ensures UsedIn(a, pre) + UsedIn(a, post) <= Used(runs)
    ensures (a, r) in Used(runs) && (a, r) !in UsedIn(a, pre) + UsedIn(a, post)
  {
  }

  lemma FreedHere(runs: map<nat, seq<Run>>, spare: Spare, a: nat, pre: seq<Run>, r: Run, dirty: bool, post: seq<Run>,
      lo: nat, hi: nat)
    requires a in runs && spare != Spare(a) && At(runs[a], pre, r, post, lo, hi) && !IsFree(r)
    ensures var runs' := runs[a := Freed(pre, r, dirty, post)];
      && Used(runs') == Used(runs) - {(a, r)}
      && ActivePages(runs') == ActivePages(runs) - r.npages
      && Dirt(runs', spare) == Dirt(runs, spare) + (if dirty then r.npages else 0)
  {
    var rs := Freed(pre, r, dirty, post);
    FreedUsed(a, pre, r, dirty, post);
    FreedDirt(pre, r, dirty, post);
    FreedCounts(pre, r, dirty, post);
    Once(runs[a], pre, r, post, lo, hi);
    UsedUpdate(runs, a, rs);
    UsedOnce(runs, a, pre, r, post);
    DirtUpdate(runs, spare, a, rs);
    ActivePagesUpdate(runs, a, rs);
    assert runs[a] == pre + [r] + post;
    hide *;
  }

  lemma FreedAlone(pre: seq<Run>, r: Run, dirty: bool, post: seq<Run>)
    requires |Freed(pre, r, dirty, post)| == 1
    ensures IsFree(Freed(pre, r, dirty, post)[0])
  {
    hide Forward, ForwardRest, BackwardRest;
    var g := Forward(Run(r.start, r.npages, Free, dirty), post);
    ForwardFree(Run(r.start, r.npages, Free, dirty), post);
    assert Freed(pre, r, dirty, post)[|BackwardRest(pre, g)|] == Backward(pre, g);
  }

  lemma ForwardFree(f: Run, post: seq<Run>)
    requires IsFree(f)
    ensures IsFree(Forward(f, post))
  {
  }

  /** Freeing a run takes exactly it from the allocated runs; only a run freed dirty adds dirty pages. */
  lemma FreedEffect(runs: map<nat, seq<Run>>, spare: Spare, runs': map<nat, seq<Run>>, spare': Spare, a: nat,
      pre: seq<Run>, r: Run, dirty: bool, post: seq<Run>, lo: nat, hi: nat)
    requires a in runs && spare != Spare(a) && At(runs[a], pre, r, post, lo, hi) && !IsFree(r) && SpareRuns(runs, spare)
    requires FreedIn(runs, spare, runs', spare', a, Freed(pre, r, dirty, post))
    ensures Used(runs') == Used(runs) - {(a, r)}
    ensures ActivePages(runs') == ActivePages(runs) - r.npages
    ensures !dirty ==> Dirt(runs', spare') == Dirt(runs, spare)
    ensures Dirt(runs', spare')
        == Dirt(runs, spare) + (if spare' == Spare(a) then 0 - NDirty(runs[a]) else if dirty then r.npages else 0)
    ensures NDirty(runs'[a]) == NDirty(runs[a]) + (if dirty then r.npages else 0)
  {
    var rs := Freed(pre, r, dirty, post);
    FreedHere(runs, spare, a, pre, r, dirty, post, lo, hi);
    FreedDirt(pre, r, dirty, post);
    assert runs'[a] == rs && runs[a] == pre + [r] + post;
    if |rs| == 1 {
      FreedAlone(pre, r, dirty, post);
    }
    hide Used, ActivePages, Dirt, Freed, At, NDirty;
    if |rs| == 1 {
      NewSpare(runs[a := rs], spare, a);
    }
  }

  lemma NewSpare(runs: map<nat, seq<Run>>, spare: Spare, a: nat)
    requires SpareRuns(runs, spare) && SpareRuns(runs, Spare(a)) && spare != Spare(a)
    ensures var runs' := runs - (if spare.Spare? then {spare.addr} else {});
      && Used(runs') == Used(runs) && ActivePages(runs') == ActivePages(runs)
      && Dirt(runs', Spare(a)) == Dirt(runs, spare) - NDirty(runs[a])
  {
    NewSpareDirt(runs, spare, a);
    if spare.Spare? {
      var b := spare.addr;
      assert runs[b][1..] == [];
      UsedRemove(runs, b);
      ActivePagesRemove(runs, b);
    } else {
      assert runs - {} == runs;
    }
  }

  lemma NewSpareDirt(runs: map<nat, seq<Run>>, spare: Spare, a: nat)
    requires a in runs && (spare.Spare? ==> spare.addr in runs) && spare != Spare(a)
    ensures var runs' := runs - (if spare.Spare? then {spare.addr} else {});
      Dirt(runs', Spare(a)) == Dirt(runs, spare) - NDirty(runs[a])
  {
    var m := DirtMap(runs, spare);
    SumUpdate(m, a, 0);
    if spare.Spare? {
      var b := spare.addr;
      assert DirtMap(runs - {b}, Spare(a)) == m[a := 0] - {b};
      SumRemove(m[a := 0], b);
    } else {
      assert runs - {} == runs;
      assert DirtMap(runs, Spare(a)) == m[a := 0];
    }
  }

  // ----- Free pages

  /** Is page p in a free run with the given dirty flag? */
  ghost predicate FreeAt(rs: seq<Run>, p: int, dirty: bool) {
    exists r :: r in rs && IsFree(r) && r.dirty == dirty && r.start <= p < r.End()
  }

  /** The pages [s, e) have become free with the given flag, and no other page is free that was not. */
  ghost predicate PagesFreed(rs: seq<Run>, rs': seq<Run>, s: nat, e: nat, dirty: bool) {
    forall p, d :: FreeAt(rs', p, d) <==> FreeAt(rs, p, d) || (d == dirty && s <= p < e)
  }

  /** The pages [s, e) are no longer free, and the others are as before. */
  ghost predicate PagesTaken(rs: seq<Run>, rs': seq<Run>, s: nat, e: nat) {
    forall p, d :: FreeAt(rs', p, d) <==> FreeAt(rs, p, d) && !(s <= p < e)
  }

  /** The pages of r, free with its flag before, have been taken for it; no other chunk and no other page differs. */
  ghost predicate Took(runs: map<nat, seq<Run>>, runs': map<nat, seq<Run>>, a: nat, r: Run) {
    && a in runs && a in runs' && runs' == runs[a := runs'[a]] && FreeAt(runs[a], r.start, r.dirty)
    && PagesTaken(runs[a], runs'[a], r.start, r.End())
  }

  /** Which pages are known to be zero is as before, but for pages that are free and dirty in rs. */
  ghost predicate CleanKept(m: seq<Word>, m': seq<Word>, rs: seq<Run>) {
    |m'| == |m| && forall p :: 0 <= p < |m| && !FreeAt(rs, p, true) ==> m'[p].unzeroed == m[p].unzeroed
  }

  lemma CleanKeptIn(m: seq<Word>, m': seq<Word>, rs: seq<Run>, f: Run)
    requires f in rs && IsFree(f) && ZeroKept(m, m', f.start, f.End(), f.dirty)
    ensures CleanKept(m, m', rs)
  {
  }

  lemma CleanKeptThen(m: seq<Word>, m1: seq<Word>, m': seq<Word>, rs: seq<Run>, rs1: seq<Run>)
    requires CleanKept(m, m1, rs) && CleanKept(m1, m', rs1)
    requires forall p :: FreeAt(rs1, p, true) ==> FreeAt(rs, p, true)
    ensures CleanKept(m, m', rs)
  {
    hide FreeAt;
  }

  lemma FreeAtConcat(x: seq<Run>, y: seq<Run>, p: int, d: bool)
    ensures FreeAt(x + y, p, d) <==> FreeAt(x, p, d) || FreeAt(y, p, d)
  {
    assert forall r :: r in x || r in y ==> r in x + y;
  }

  lemma FreeAtOne(r: Run, p: int, d: bool)
    ensures FreeAt([r], p, d) <==> IsFree(r) && r.dirty == d && r.start <= p < r.End()
  {
    assert r in [r];
  }

  lemma FreeAt3(pre: seq<Run>, r: Run, post: seq<Run>, p: int, d: bool)
    ensures FreeAt(pre + [r] + post, p, d)
        <==> FreeAt(pre, p, d) || (IsFree(r) && r.dirty == d && r.start <= p < r.End()) || FreeAt(post, p, d)
  {
    FreeAtConcat(pre + [r], post, p, d);
    FreeAtConcat(pre, [r], p, d);
    FreeAtOne(r, p, d);
  }

  /** Absorbing the next run neither adds nor loses a free page. */
  lemma ForwardPage(f: Run, post: seq<Run>, hi: nat, p: int, d: bool)
    requires IsFree(f) && Tiled(post, f.End(), hi)
    ensures var g := Forward(f, post);
      (g.dirty == d && g.start <= p < g.End()) || FreeAt(ForwardRest(f, post), p, d) <==>
        (f.dirty == d && f.start <= p < f.End()) || FreeAt(post, p, d)
  {
    if JoinsNext(f, post) {
      assert post == [post[0]] + post[1..];
      FreeAtConcat([post[0]], post[1..], p, d);
      FreeAtOne(post[0], p, d);
    }
  }

  lemma BackwardPage(pre: seq<Run>, f: Run, lo: nat, p: int, d: bool)
    requires IsFree(f) && Tiled(pre, lo, f.start)
    ensures var h := Backward(pre, f);
      FreeAt(BackwardRest(pre, f), p, d) || (h.dirty == d && h.start <= p < h.End()) <==>
        FreeAt(pre, p, d) || (f.dirty == d && f.start <= p < f.End())
  {
    BackwardTiled(pre, f, lo);
    if JoinsPrev(pre, f) {
      var init, last := pre[..|pre| - 1], pre[|pre| - 1];
      FreeAtConcat(init, [last], p, d);
      FreeAtOne(last, p, d);
    }
  }

  /** Freeing a run makes exactly its pages free, dirty or clean as told, whatever they are joined to. */
  lemma FreedPages(pre: seq<Run>, r: Run, dirty: bool, post: seq<Run>, lo: nat, hi: nat)
    requires !IsFree(r) && At(pre + [r] + post, pre, r, post, lo, hi)
    ensures PagesFreed(pre + [r] + post, Freed(pre, r, dirty, post), r.start, r.End(), dirty)
  {
    var f := Run(r.start, r.npages, Free, dirty);
    var g := Forward(f, post);
    var pre', h, post' := BackwardRest(pre, g), Backward(pre, g), ForwardRest(f, post);
    assert Freed(pre, r, dirty, post) == pre' + [h] + post';
    assert IsFree(g) && g.start == r.start && IsFree(h) && Tiled(post, f.End(), hi) && f.End() == r.End();
    hide *;
    forall p, d
      ensures FreeAt(pre' + [h] + post', p, d)
          <==> FreeAt(pre + [r] + post, p, d) || (d == dirty && r.start <= p < r.End())
    {
      FreeAt3(pre, r, post, p, d);
      FreeAt3(pre', h, post', p, d);
      ForwardPage(f, post, hi, p, d);
      BackwardPage(pre, g, lo, p, d);
    }
    PagesFreedIf(pre + [r] + post, pre' + [h] + post', r.start, r.End(), dirty);
  }

  lemma PagesFreedIf(rs: seq<Run>, rs': seq<Run>, s: nat, e: nat, dirty: bool)
    requires forall p, d :: FreeAt(rs', p, d) <==> FreeAt(rs, p, d) || (d == dirty && s <= p < e)
    ensures PagesFreed(rs, rs', s, e, dirty)
  {
  }

  /** A split takes exactly the pages asked for. */
  lemma SplitPages(pre: seq<Run>, r: Run, post: seq<Run>, need: nat, kind: Kind, lo: nat, hi: nat)
    requires IsFree(r) && 0 < need <= r.npages && !kind.Free? && At(pre + [r] + post, pre, r, post, lo, hi)
    ensures PagesTaken(pre + [r] + post, pre + SplitMid(r, need, kind) + post, r.start, r.start + need)
    ensures FreeAt(pre + [r] + post, r.start, r.dirty)
  {
    var head, rest := Run(r.start, need, kind, r.dirty), SplitMid(r, need, kind)[1..];
    TiledBounds(pre, lo, r.start);
    TiledBounds(post, r.End(), hi);
    assert pre + SplitMid(r, need, kind) + post == pre + [head] + (rest + post);
    forall p, d
      ensures FreeAt(pre + [head] + (rest + post), p, d)
          <==> FreeAt(pre + [r] + post, p, d) && !(r.start <= p < r.start + need)
    {
      FreeAt3(pre, r, post, p, d);
      FreeAt3(pre, head, rest + post, p, d);
      FreeAtConcat(rest, post, p, d);
      if need < r.npages {
        FreeAtOne(rest[0], p, d);
      }
    }
    FreeAt3(pre, r, post, r.start, r.dirty);
  }

  /**
   The pages [s, e) of chunk a, and no others, have become free; a chunk that is one free run now is the spare, and the
   spare before it is gone.
   */
  ghost predicate Released(runs: map<nat, seq<Run>>, spare: Spare, runs': map<nat, seq<Run>>, spare': Spare, a: nat,
      s: nat, e: nat, dirty: bool) {
    && a in runs && a in runs' && PagesFreed(runs[a], runs'[a], s, e, dirty)
    && FreedIn(runs, spare, runs', spare', a, runs'[a]) && (|runs'[a]| == 1 ==> IsFree(runs'[a][0]))
  }

  /**
   By how much more pages are dirty once npages pages of chunk a are free: those of a chunk that has become the spare no
   longer count.
   */
  ghost function Dirtied(runs: map<nat, seq<Run>>, a: nat, npages: nat, dirty: bool, spare': Spare): int
    requires a in runs
  {
    if spare' == Spare(a) then 0 - NDirty(runs[a]) else if dirty then npages else 0
  }

  lemma FreedReleases(runs: map<nat, seq<Run>>, spare: Spare, runs': map<nat, seq<Run>>, spare': Spare, a: nat,
      pre: seq<Run>, r: Run, dirty: bool, post: seq<Run>, lo: nat, hi: nat)
    requires a in runs && spare != Spare(a) && At(runs[a], pre, r, post, lo, hi) && !IsFree(r)
    requires FreedIn(runs, spare, runs', spare', a, Freed(pre, r, dirty, post))
    ensures Released(runs, spare, runs', spare', a, r.start, r.End(), dirty)
  {
    var rs := Freed(pre, r, dirty, post);
    assert runs[a] == pre + [r] + post;
    FreedPages(pre, r, dirty, post, lo, hi);
    assert runs'[a] == rs;
    if |rs| == 1 {
      FreedAlone(pre, r, dirty, post);
    }
  }

  /** The same of a chunk that stays in use. */
  ghost predicate Frees(runs: map<nat, seq<Run>>, runs': map<nat, seq<Run>>, a: nat, s: nat, e: nat, dirty: bool) {
    a in runs && a in runs' && runs' == runs[a := runs'[a]] && PagesFreed(runs[a], runs'[a], s, e, dirty)
  }

  lemma SplitTook(runs: map<nat, seq<Run>>, a: nat, pre: seq<Run>, r: Run, post: seq<Run>, need: nat, kind: Kind,
      lo: nat, hi: nat)
    requires a in runs && IsFree(r) && 0 < need <= r.npages && !kind.Free? && At(runs[a], pre, r, post, lo, hi)
    ensures Took(runs, runs[a := pre + SplitMid(r, need, kind) + post], a, Run(r.start, need, kind, r.dirty))
  {
    assert runs[a] == pre + [r] + post;
    hide FreeAt, SplitMid;
    SplitPages(pre, r, post, need, kind, lo, hi);
  }

  /** Only chunk a differs, and there only runs in use: its free pages are the same. */
  ghost predicate SameFree(runs: map<nat, seq<Run>>, runs': map<nat, seq<Run>>, a: nat) {
    && a in runs && a in runs' && runs' == runs[a := runs'[a]] && NDirty(runs'[a]) == NDirty(runs[a])
    && forall p, d :: FreeAt(runs'[a], p, d) <==> FreeAt(runs[a], p, d)
  }

  /** The same of the whole arena, with which pages are known to be zero. */
  ghost predicate Redrawn(v: View, v': View, a: nat) {
    && v'.spare == v.spare && SameFree(v.runs, v'.runs, a) && DirtyPages(v'.chunks) == DirtyPages(v.chunks)
    && a in v.chunks && a in v'.chunks && ZeroKept(v.chunks[a].bits, v'.chunks[a].bits, 0, 0, false)
  }

  /** What comes after such a change releases the same pages of the runs before it. */
  lemma SameFreeThen(runs: map<nat, seq<Run>>, runs1: map<nat, seq<Run>>, runs': map<nat, seq<Run>>, spare: Spare,
      spare': Spare, a: nat, s: nat, e: nat, dirty: bool)
    requires SameFree(runs, runs1, a) && Released(runs1, spare, runs', spare', a, s, e, dirty)
    ensures Released(runs, spare, runs', spare', a, s, e, dirty)
  {
  }

  lemma TookSame(v: View, v1: View, v': View, a: nat, r: Run)
    requires Took(v.runs, v1.runs, a, r) && Redrawn(v1, v', a)
    requires a in v.chunks && CleanKept(v.chunks[a].bits, v1.chunks[a].bits, v.runs[a])
    ensures Took(v.runs, v'.runs, a, r)
    ensures a in v'.chunks && CleanKept(v.chunks[a].bits, v'.chunks[a].bits, v.runs[a])
  {
    hide FreeAt, DirtyPages;
  }

  lemma FreesOf(runs: map<nat, seq<Run>>, runs1: map<nat, seq<Run>>, runs': map<nat, seq<Run>>, a: nat, s: nat, e: nat,
      dirty: bool)
    requires SameFree(runs, runs1, a) && Frees(runs1, runs', a, s, e, dirty)
    ensures Frees(runs, runs', a, s, e, dirty)
  {
  }

  lemma RelabelFree(runs: map<nat, seq<Run>>, a: nat, pre: seq<Run>, mid: seq<Run>, mid': seq<Run>, post: seq<Run>)
    requires a in runs && runs[a] == pre + mid + post && NoneFree(mid) && NoneFree(mid')
    ensures SameFree(runs, runs[a := pre + mid' + post], a)
  {
    SamePages(pre, mid, mid', post);
    CountConcat(pre, mid);
    CountConcat(pre + mid, post);
    CountConcat(pre, mid');
    CountConcat(pre + mid', post);
    NoneFreeCounts(mid);
    NoneFreeCounts(mid');
  }

  lemma SamePages(pre: seq<Run>, mid: seq<Run>, mid': seq<Run>, post: seq<Run>)
    requires NoneFree(mid) && NoneFree(mid')
    ensures forall p, d :: FreeAt(pre + mid' + post, p, d) <==> FreeAt(pre + mid + post, p, d)
  {
    forall p, d
      ensures FreeAt(pre + mid' + post, p, d) <==> FreeAt(pre + mid + post, p, d)
    {
      FreeAtConcat(pre + mid, post, p, d);
      FreeAtConcat(pre, mid, p, d);
      FreeAtConcat(pre + mid', post, p, d);
      FreeAtConcat(pre, mid', p, d);
    }
  }

  /** The allocated runs are disjoint and lie in the pages a chunk offers. */
  lemma UsedDisjoint(v: View, x: (nat, Run), y: (nat, Run), lo: nat, hi: nat)
    requires ArenaInv(v, lo, hi) && x in Used(v.runs) && y in Used(v.runs)
    ensures lo <= x.1.start && 0 < x.1.npages && x.1.End() <= hi
    ensures x == y || x.0 != y.0 || x.1.End() <= y.1.start || y.1.End() <= x.1.start
  {
    SpareRunsHold(v, lo, hi);
    var pre, post := Locate(v.runs[x.0], x.1, lo, hi);
    Once(v.runs[x.0], pre, x.1, post, lo, hi);
    TiledBounds(pre, lo, x.1.start);
    TiledBounds(post, x.1.End(), hi);
  }

  lemma TotalsNonNegative(runs: map<nat, seq<Run>>, spare: Spare)
    ensures 0 <= Dirt(runs, spare) && 0 <= ActivePages(runs)
    ensures (forall a :: a in runs && spare != Spare(a) ==> NDirty(runs[a]) == 0) ==> Dirt(runs, spare) == 0
  {
    SumNonNegative(DirtMap(runs, spare));
    SumNonNegative(ActiveMap(runs));
  }

  lemma UsedNotSpare(runs: map<nat, seq<Run>>, spare: Spare, a: nat, r: Run)
    requires SpareRuns(runs, spare) && (a, r) in Used(runs)
    ensures spare != Spare(a) && a in runs && r in runs[a] && !IsFree(r)
  {
  }

  /** Allocated runs described anew as other allocated runs. */
  lemma RelabelUsed(runs: map<nat, seq<Run>>, a: nat, pre: seq<Run>, mid: seq<Run>, mid': seq<Run>, post: seq<Run>,
      lo: nat, s: nat, e: nat, hi: nat)
    requires a in runs && runs[a] == pre + mid + post
    requires Tiled(pre, lo, s) && Tiled(mid, s, e) && Tiled(post, e, hi)
    ensures Used(runs[a := pre + mid' + post]) == Used(runs) - UsedIn(a, mid) + UsedIn(a, mid')
  {
    UsedUpdate(runs, a, pre + mid' + post);
    UsedConcat(a, pre, mid);
    UsedConcat(a, pre + mid, post);
    UsedConcat(a, pre, mid');
    UsedConcat(a, pre + mid', post);
    UsedApart(a, pre, mid, lo, s, e);
    UsedApart(a, mid, post, s, e, hi);
    UsedWithin(runs, a);
    hide Used, UsedIn, Tiled;
    SetExchange(Used(runs), UsedIn(a, pre), UsedIn(a, mid), UsedIn(a, mid'), UsedIn(a, post));
  }

  lemma UsedApart(a: nat, x: seq<Run>, y: seq<Run>, lo: nat, mid: nat, hi: nat)
    requires Tiled(x, lo, mid) && Tiled(y, mid, hi)
    ensures UsedIn(a, x) !! UsedIn(a, y)
  {
    TiledBounds(x, lo, mid);
    TiledBounds(y, mid, hi);
  }
}
