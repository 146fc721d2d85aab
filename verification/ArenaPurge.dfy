/**
 A whole purge (arena_purge) as the sequence of the arena's states between its rounds: each round takes the chunk that
 comes first in chunks_dirty, and the number of pages still to purge is a counter of one word, which may wrap.
 */
module ArenaPurge {
  import opened ArenaRuns
  import opened ArenaIndex
  import opened ArenaState
  import opened ArenaEffects
  import opened ArenaScan

  /** The states before and after each round, and the element of chunks_dirty that each round took. */
  datatype Trace = Trace(views: seq<View>, firsts: seq<DirtyElm>)

  ghost predicate IsFirst(e: DirtyElm, chunks: map<nat, Chunk>) {
    e in DirtyIndex(chunks) && forall x :: x in DirtyIndex(chunks) ==> DirtyComp(e, x) <= 0
  }

  /** Only chunk a has changed, and perhaps become the spare, with which the spare before it is gone. */
  ghost predicate OnlyChunk(runs: map<nat, seq<Run>>, spare: Spare, runs': map<nat, seq<Run>>, spare': Spare, a: nat) {
    && a in runs && a in runs'
    && if spare' == Spare(a) then runs' == runs[a := runs'[a]] - (if spare.Spare? then {spare.addr} else {})
       else spare' == spare && runs' == runs[a := runs'[a]]
  }

  /** Besides, the pages of chunk a that are free and dirty are the same, and so are those known to be zero. */
  ghost predicate SameDirty(v: View, v': View, a: nat) {
    && OnlyChunk(v.runs, v.spare, v'.runs, v'.spare, a)
    && (forall p :: FreeAt(v'.runs[a], p, true) <==> FreeAt(v.runs[a], p, true))
    && a in v.chunks && a in v'.chunks && ZeroKept(v.chunks[a].bits, v'.chunks[a].bits, 0, 0, false)
  }

  lemma SameDirtyNow(v: View, a: nat)
    requires a in v.runs && a in v.chunks && v.spare != Spare(a)
    ensures SameDirty(v, v, a)
  {
    assert v.runs[a := v.runs[a]] == v.runs;
  }

  /** Freeing a clean run of a chunk that is not the spare yet. */
  lemma SameDirtyThen(v: View, v1: View, v': View, a: nat, s: nat, e: nat)
    requires v1.spare != Spare(a) && SameDirty(v, v1, a)
    requires Released(v1.runs, v1.spare, v'.runs, v'.spare, a, s, e, false)
    requires a in v'.chunks && ZeroKept(v1.chunks[a].bits, v'.chunks[a].bits, s, e, false)
    ensures SameDirty(v, v', a)
  {
    assert PagesFreed(v1.runs[a], v'.runs[a], s, e, false);
    hide FreeAt;
    assert v1.runs[a := v'.runs[a]] == v.runs[a := v'.runs[a]];
  }

  /** With the dirty runs taken out, purged and freed again, only their pages differ. */
  lemma PurgedOnly(v: View, v1: View, v2: View, v': View, a: nat, taken: seq<Run>)
    requires a in v.runs && a in v1.runs && v1.runs == v.runs[a := v1.runs[a]] && v2.runs == v1.runs
    requires v.spare == v1.spare == v2.spare && SameDirty(v2, v', a) && a in v.chunks && a in v1.chunks
    requires forall p :: FreeAt(v1.runs[a], p, true) || Covered(taken, p) ==> FreeAt(v.runs[a], p, true)
    requires CleanKept(v.chunks[a].bits, v1.chunks[a].bits, v.runs[a])
    requires a in v2.chunks && Untaken(v1.chunks[a].bits, v2.chunks[a].bits, taken)
    ensures OnlyChunk(v.runs, v.spare, v'.runs, v'.spare, a)
    ensures forall p :: FreeAt(v'.runs[a], p, true) ==> FreeAt(v.runs[a], p, true)
    ensures a in v'.chunks && CleanKept(v.chunks[a].bits, v'.chunks[a].bits, v.runs[a])
  {
    hide FreeAt, Covered, CleanKept, Untaken, ZeroKept;
    assert v1.runs[a := v'.runs[a]] == v.runs[a := v'.runs[a]];
    PurgedKept(v.chunks[a].bits, v1.chunks[a].bits, v2.chunks[a].bits, v'.chunks[a].bits, taken, v.runs[a]);
  }

  /**
   One round: of the chunk that comes first, the dirty pages of all free runs become clean, or of those beside other
   free runs; nothing that is in use changes, and no page becomes dirty.  Which pages are known to be zero stays, but
   for those that were dirty.
   */
  ghost predicate Round(v: View, v': View, e: DirtyElm, all: bool) {
    && IsFirst(e, v.chunks) && OnlyChunk(v.runs, v.spare, v'.runs, v'.spare, e.addr) && Used(v'.runs) == Used(v.runs)
    && DirtyPages(v'.chunks) == DirtyPages(v.chunks) - Picked(all || e.adjac == 0, false, v.runs[e.addr])
    && (forall p :: FreeAt(v'.runs[e.addr], p, true) ==> FreeAt(v.runs[e.addr], p, true))
    && e.addr in v.chunks && e.addr in v'.chunks
    && CleanKept(v.chunks[e.addr].bits, v'.chunks[e.addr].bits, v.runs[e.addr])
  }

  ghost predicate Rounds(t: Trace, all: bool) {
    && |t.views| == |t.firsts| + 1
    && forall i :: 0 <= i < |t.firsts| ==> Round(t.views[i], t.views[i + 1], t.firsts[i], all)
  }

  ghost function Last(t: Trace): View
    requires t.views != []
  {
    t.views[|t.views| - 1]
  }

  /** A round on a chunk with adjacent free runs that makes more pages clean than were still to be purged. */
  ghost predicate Over(t: Trace, i: int, allowed: int)
    requires |t.views| == |t.firsts| + 1 && 0 <= i < |t.firsts|
  {
    DirtyPages(t.views[i + 1].chunks) < allowed < DirtyPages(t.views[i].chunks) && 0 < t.firsts[i].adjac
  }

  /** The counter of pages to purge wraps: more is purged than asked for, or less than nothing was asked for. */
  ghost predicate Wraps(t: Trace, allowed: int)
    requires |t.views| == |t.firsts| + 1
  {
    DirtyPages(t.views[0].chunks) < allowed || exists i :: 0 <= i < |t.firsts| && Over(t, i, allowed)
  }

  /**
   A purge stops with the round that brings the dirty pages down to what is allowed.  If the counter wraps it goes on
   until no page is dirty.
   */
  ghost predicate Stops(t: Trace, allowed: int)
    requires |t.views| == |t.firsts| + 1
  {
    if Wraps(t, allowed) then DirtyPages(Last(t).chunks) == 0
    else
      && DirtyPages(Last(t).chunks) <= allowed
      && forall i :: 0 <= i < |t.firsts| ==> allowed < DirtyPages(t.views[i].chunks)
  }

  /** What a purge from v to v' is, provided the counters are small enough to tell a wrapped one. */
  ghost predicate Purged(t: Trace, v: View, v': View, all: bool, allowed: int) {
    && Rounds(t, all) && t.views[0] == v && Last(t) == v'
    && (DirtyPages(v.chunks) + allowed < SIZE ==> Stops(t, allowed))
  }

  /** Between two rounds, with local pages still to purge. */
  ghost predicate Going(t: Trace, local: int, allowed: int) {
    && |t.views| == |t.firsts| + 1 && 0 <= DirtyPages(Last(t).chunks) <= DirtyPages(t.views[0].chunks)
    && var d := DirtyPages(Last(t).chunks);
      if Wraps(t, allowed) then d < allowed && local == SIZE + d - allowed
      else
        && local == (if d > allowed then d - allowed else 0)
        && forall i :: 0 <= i < |t.firsts| ==> allowed < DirtyPages(t.views[i].chunks)
  }

  ghost function More(t: Trace, v': View, e: DirtyElm): Trace {
    Trace(t.views + [v'], t.firsts + [e])
  }

  lemma RoundsMore(t: Trace, v': View, e: DirtyElm, all: bool)
    requires Rounds(t, all) && Round(Last(t), v', e, all)
    ensures Rounds(More(t, v', e), all) && Last(More(t, v', e)) == v' && More(t, v', e).views[0] == t.views[0]
  {
    var t' := More(t, v', e);
    hide Round;
    forall i | 0 <= i < |t'.firsts|
      ensures Round(t'.views[i], t'.views[i + 1], t'.firsts[i], all)
    {
      if i < |t.firsts| {
        assert t'.views[i] == t.views[i] && t'.views[i + 1] == t.views[i + 1] && t'.firsts[i] == t.firsts[i];
      }
    }
  }

  lemma WrapsMore(t: Trace, v': View, e: DirtyElm, allowed: int)
    requires |t.views| == |t.firsts| + 1
    ensures Wraps(More(t, v', e), allowed) <==>
      Wraps(t, allowed) || (DirtyPages(v'.chunks) < allowed < DirtyPages(Last(t).chunks) && 0 < e.adjac)
  {
    var t' := More(t, v', e);
    hide DirtyPages;
    forall i | 0 <= i < |t.firsts|
      ensures Over(t', i, allowed) <==> Over(t, i, allowed)
    {
      assert t'.views[i] == t.views[i] && t'.views[i + 1] == t.views[i + 1] && t'.firsts[i] == t.firsts[i];
    }
    assert Over(t', |t.firsts|, allowed)
        <==> DirtyPages(v'.chunks) < allowed < DirtyPages(Last(t).chunks) && 0 < e.adjac;
  }

  /** One round keeps the counter right, be it wrapped or not. */
  lemma GoingMore(t: Trace, v': View, e: DirtyElm, npurgeable: int, local: int, local': int, allowed: int)
    requires Going(t, local, allowed) && 0 < local && 0 <= allowed && DirtyPages(t.views[0].chunks) + allowed < SIZE
    requires var d, d' := DirtyPages(Last(t).chunks), DirtyPages(v'.chunks);
      && 0 < d - d' <= npurgeable <= d && (e.adjac == 0 ==> d - d' == npurgeable)
      && local' == if npurgeable > local && e.adjac == 0 then 0 else Wrap(local - (d - d'))
    requires 0 <= e.adjac
    ensures Going(More(t, v', e), local', allowed)
  {
    var t' := More(t, v', e);
    hide DirtyPages, Wraps;
    WrapsMore(t, v', e, allowed);
    assert t'.views[0] == t.views[0] && Last(t') == v';
    forall i | 0 <= i < |t'.firsts| && !Wraps(t', allowed)
      ensures allowed < DirtyPages(t'.views[i].chunks)
    {
      assert t'.views[i] == t.views[i];
    }
  }

  /** A purge ends with nothing left to purge, or with no dirty pages left. */
  lemma GoingEnds(t: Trace, local: int, allowed: int)
    requires Going(t, local, allowed) && 0 <= allowed && DirtyPages(t.views[0].chunks) + allowed < SIZE
    requires local <= 0 || DirtyPages(Last(t).chunks) == 0
    ensures Stops(t, allowed)
  {
    hide DirtyPages, Wraps;
  }

  lemma GoingStart(v: View, allowed: int)
    requires 0 <= DirtyPages(v.chunks) && 0 <= allowed && DirtyPages(v.chunks) + allowed < SIZE
    ensures Going(Trace([v], []), Wrap(DirtyPages(v.chunks) - allowed), allowed)
  {
    hide DirtyPages;
  }

  /** A chunk has no more dirty pages than the arena. */
  lemma DirtyPart(chunks: map<nat, Chunk>, a: nat)
    requires a in chunks && forall b :: b in chunks ==> 0 <= chunks[b].ndirty
    ensures chunks[a].ndirty <= DirtyPages(chunks)
  {
    SumRemove(DirtyMap(chunks), a);
    SumNonNegative(DirtyMap(chunks) - {a});
  }

  /** A dirty run beside a clean one, and another beside none. */
  ghost function Fragments(lo: nat): seq<Run> {
    [Run(lo, 4, Free, true), Run(lo + 4, 2, Free, false), Run(lo + 6, 1, Large, false), Run(lo + 7, 3, Free, true),
     Run(lo + 10, 5, Large, false)]
  }

  lemma FragmentsCounts(lo: nat)
    ensures var rs := Fragments(lo);
      NDirty(rs) == 7 && NActive(rs) == 6 && NAdjac(rs) == 1 && Picked(false, false, rs) == 4
  {
    var rs := Fragments(lo);
    var rs1, rs2, rs3, rs4 := rs[1..], rs[2..], rs[3..], rs[4..];
    assert rs1[1..] == rs2 && rs2[1..] == rs3 && rs3[1..] == rs4 && rs4[1..] == [];
    assert NDirty(rs4) == 0 && NActive(rs4) == 5 && NAdjac(rs4) == 0 && Picked(false, true, rs4) == 0;
    assert NDirty(rs3) == 3 && NActive(rs3) == 5 && NAdjac(rs3) == 0 && Picked(false, false, rs3) == 0;
    assert NDirty(rs2) == 3 && NActive(rs2) == 6 && NAdjac(rs2) == 0 && Picked(false, true, rs2) == 0;
    assert NDirty(rs1) == 3 && NActive(rs1) == 6 && NAdjac(rs1) == 0 && Picked(false, true, rs1) == 0;
  }

  lemma OneChunk(runs: map<nat, seq<Run>>, a: nat, rs: seq<Run>)
    requires runs == map[a := rs]
    ensures Dirt(runs, NoSpare) == NDirty(rs) && ActivePages(runs) == NActive(rs)
  {
    assert DirtMap(runs, NoSpare) == map[a := NDirty(rs)] && ActiveMap(runs) == map[a := NActive(rs)];
    SumRemove(map[a := NDirty(rs)], a);
    SumRemove(map[a := NActive(rs)], a);
    assert map[a := NDirty(rs)] - {a} == map[] && map[a := NActive(rs)] - {a} == map[];
  }
}
