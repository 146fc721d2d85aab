/**
 Runs of one thread in which a failed insertion into a hash table loses an older item, after which the profiler follows
 a pointer to what it has freed.
 */
module ProfLoss {

  import opened CuckooMaps
  import opened ProfCtx

  type Table = map<nat, nat>

  /** The contexts, the table of them, and the counters, when backtraces 1 to k were seen. */
  ghost function Ctxs(k: nat): (m: map<nat, Ctx>)
    ensures forall c: nat :: c in m <==> 1 <= c <= k
    ensures forall c :: c in m ==> m[c] == Ctx(c, 0, NONE, {c}, 0)
  {
    if k == 0 then map[] else Ctxs(k - 1)[k := Ctx(k, 0, NONE, {k}, 0)]
  }

  ghost function Ids(k: nat): (m: Table)
    ensures |m| == k && forall c: nat :: c in m <==> 1 <= c <= k
  {
    if k == 0 then map[] else
      var m := Ids(k - 1);
      assert m[k := k].Keys == m.Keys + {k};
      m[k := k]
  }

  ghost function Cnts(k: nat): (m: map<nat, Cnt>)
    ensures forall c: nat :: c in m <==> 1 <= c <= k
  {
    if k == 0 then map[] else Cnts(k - 1)[k := Cnt(k, NONE)]
  }

  /** One thread, which has sampled no object. */
  function Alone(ctxs: map<nat, Ctx>, bts: Table, cnts: map<nat, Cnt>, cache: Table, pc: Pc): State {
    State(ctxs, bts, cnts, map[], [pc], [cache], {}, false)
  }

  /** It has seen k backtraces. */
  ghost function Known(k: nat): State {
    Alone(Ctxs(k), Ids(k), Cnts(k), Ids(k), On(Idle))
  }

  lemma RunOne(s: State, trace: Trace, t: nat, a: Action)
    ensures Run(s, trace + [(t, a)]) == Step(Run(s, trace), t, a)
  {
    hide Step;
    assert (trace + [(t, a)])[..|trace|] == trace;
  }

  lemma {:induction false} RunConcat(s: State, x: Trace, y: Trace)
    ensures Run(s, x + y) == Run(Run(s, x), y)
  {
    hide Step;
    if y == [] {
      assert x + y == x;
    } else {
      var k := |y| - 1;
      RunConcat(s, x, y[..k]);
      assert x + y == x + y[..k] + [y[k]];
      RunOne(s, x + y[..k], y[k].0, y[k].1);
    }
  }

  lemma RunTwo(s: State, t: nat, a: Action, b: Action)
    ensures Run(s, [(t, a), (t, b)]) == Step(Step(s, t, a), t, b)
  {
    hide Step;
    RunOne(s, [], t, a);
    RunOne(s, [(t, a)], t, b);
    assert [] + [(t, a)] == [(t, a)] && [(t, a)] + [(t, b)] == [(t, a), (t, b)];
  }

  lemma RunThree(s: State, t: nat, a: Action, b: Action, c: Action)
    ensures Run(s, [(t, a), (t, b), (t, c)]) == Step(Step(Step(s, t, a), t, b), t, c)
  {
    hide Step;
    RunTwo(s, t, a, b);
    RunOne(s, [(t, a), (t, b)], t, c);
    assert [(t, a), (t, b)] + [(t, c)] == [(t, a), (t, b), (t, c)];
  }

  // ----- Single steps

  lemma Starts(ctxs: map<nat, Ctx>, bts: Table, cnts: map<nat, Cnt>, cache: Table, b: nat)
    ensures Step(Alone(ctxs, bts, cnts, cache, On(Idle)), 0, StartAlloc(b))
            == Alone(ctxs, bts, cnts, cache, On(Lookup(b, ForAlloc)))
  {
  }

  lemma Drops(ctxs: map<nat, Ctx>, bts: Table, cnts: map<nat, Cnt>, cache: Table, place: Place)
    requires place == Failed(ForAlloc) || (place.Ready? && place.why == ForAlloc)
    ensures Step(Alone(ctxs, bts, cnts, cache, On(place)), 0, Drop) == Alone(ctxs, bts, cnts, cache, On(Idle))
  {
  }

  lemma Makes(ctxs: map<nat, Ctx>, bts: Table, cnts: map<nat, Cnt>, cache: Table, b: nat, id: nat)
    requires b !in cache && b !in bts && id !in ctxs
    ensures Step(Alone(ctxs, bts, cnts, cache, On(Lookup(b, ForAlloc))), 0, Global(id, false))
            == Alone(ctxs[id := Ctx(b, 1, NONE, {}, 0)], bts[b := id], cnts, cache, On(Got(id, true, ForAlloc)))
  {
  }

  lemma Allocates(ctxs: map<nat, Ctx>, bts: Table, cnts: map<nat, Cnt>, cache: Table, id: nat)
    requires |cache| < PROF_TCMAX
    ensures Step(Alone(ctxs, bts, cnts, cache, On(Got(id, true, ForAlloc))), 0, AllocCnt)
            == Alone(ctxs, bts, cnts, cache, On(GotCnt(id, true, ForAlloc)))
  {
  }

  lemma Links(ctxs: map<nat, Ctx>, bts: Table, cnts: map<nat, Cnt>, cache: Table, id: nat, n: nat)
    requires id in ctxs && n !in cnts
    ensures var x := ctxs[id];
      Step(Alone(ctxs, bts, cnts, cache, On(GotCnt(id, true, ForAlloc))), 0, Link(n))
      == Alone(ctxs[id := x.(cnts := x.cnts + {n}, nlimbo := x.nlimbo - 1)], bts, cnts[n := Cnt(id, NONE)],
               cache[x.bt := n], On(Ready(n, ForAlloc)))
  {
  }

  // ----- Seeing k backtraces

  function See(k: nat): Trace {
    [(0, StartAlloc(k)), (0, Global(k, false)), (0, AllocCnt)] + [(0, Link(k)), (0, Drop)]
  }

  function Seen(k: nat): Trace {
    if k == 0 then [] else Seen(k - 1) + See(k)
  }

  /** The new context is there, and there is memory for a counter. */
  ghost function Found(k: nat): State {
    var ctxs := Ctxs(k)[k + 1 := Ctx(k + 1, 1, NONE, {}, 0)];
    Alone(ctxs, Ids(k + 1), Cnts(k), Ids(k), On(GotCnt(k + 1, true, ForAlloc)))
  }

  lemma Finds(k: nat)
    requires k < PROF_TCMAX
    ensures Step(Step(Step(Known(k), 0, StartAlloc(k + 1)), 0, Global(k + 1, false)), 0, AllocCnt) == Found(k)
  {
    hide Step, Alone;
    Starts(Ctxs(k), Ids(k), Cnts(k), Ids(k), k + 1);
    Makes(Ctxs(k), Ids(k), Cnts(k), Ids(k), k + 1, k + 1);
    Allocates(Ctxs(k)[k + 1 := Ctx(k + 1, 1, NONE, {}, 0)], Ids(k + 1), Cnts(k), Ids(k), k + 1);
  }

  lemma LinkDrop(k: nat)
    ensures Step(Step(Found(k), 0, Link(k + 1)), 0, Drop) == Known(k + 1)
  {
    hide Step, Alone;
    var ctxs := Ctxs(k)[k + 1 := Ctx(k + 1, 1, NONE, {}, 0)];
    Links(ctxs, Ids(k + 1), Cnts(k), Ids(k), k + 1, k + 1);
    Counted(k);
    Drops(Ctxs(k + 1), Ids(k + 1), Cnts(k + 1), Ids(k + 1), Ready(k + 1, ForAlloc));
  }

  lemma Counted(k: nat)
    ensures var x := Ctx(k + 1, 1, NONE, {}, 0);
      Ctxs(k)[k + 1 := x][k + 1 := x.(cnts := x.cnts + {k + 1}, nlimbo := x.nlimbo - 1)] == Ctxs(k + 1)
  {
    assert {} + {k + 1} == {k + 1};
  }

  lemma {:induction false} SeenKnown(k: nat)
    requires k <= PROF_TCMAX
    ensures Run(Start(1), Seen(k)) == Known(k)
  {
    if k == 0 {
      assert Start(1) == Known(0);
    } else {
      SeenKnown(k - 1);
      hide Step, Known, Found, Run;
      var x, y := [(0, StartAlloc(k)), (0, Global(k, false)), (0, AllocCnt)], [(0, Link(k)), (0, Drop)];
      RunConcat(Start(1), Seen(k - 1), See(k));
      RunConcat(Known(k - 1), x, y);
      RunThree(Known(k - 1), 0, StartAlloc(k), Global(k, false), AllocCnt);
      Finds(k - 1);
      RunTwo(Found(k - 1), 0, Link(k), Drop);
      LinkDrop(k - 1);
    }
  }

  // ----- A context lost from bt2ctx

  /** The insertion of a new context fails and loses an older one; then the backtrace comes again. */
  function LoseCtx(b: nat, id: nat, lost: nat): Trace {
    [(0, StartAlloc(b)), (0, GlobalFail(id, lost)), (0, Drop)] + [(0, StartAlloc(b)), (0, Global(0, false))]
  }

  lemma FailsGlobal(ctxs: map<nat, Ctx>, bts: Table, cnts: map<nat, Cnt>, cache: Table, b: nat, id: nat, lost: nat)
    requires b !in cache && id !in ctxs && CanFail(bts, b, lost)
    ensures Step(Alone(ctxs, bts, cnts, cache, On(Lookup(b, ForAlloc))), 0, GlobalFail(id, lost))
            == Alone(ctxs, FailedInsert(bts, b, id, lost), cnts, cache, On(Failed(ForAlloc)))
  {
  }

  lemma FollowsFreed(ctxs: map<nat, Ctx>, bts: Table, cnts: map<nat, Cnt>, cache: Table, b: nat)
    requires b !in cache && b in bts && bts[b] !in ctxs
    ensures Step(Alone(ctxs, bts, cnts, cache, On(Lookup(b, ForAlloc))), 0, Global(0, false)).bad
  {
  }

  /** bt2ctx still leads from the backtrace to the context that was freed, and the next lookup follows the pointer. */
  lemma LostCtxBad(ctxs: map<nat, Ctx>, bts: Table, cnts: map<nat, Cnt>, cache: Table, b: nat, id: nat, lost: nat)
    requires b !in cache && id !in ctxs && CanFail(bts, b, lost) && lost != b
    ensures Run(Alone(ctxs, bts, cnts, cache, On(Idle)), LoseCtx(b, id, lost)).bad
  {
    OlderLost(bts, b, id, lost);
    hide Step, Run, Alone, FailedInsert, CanFail;
    var bts' := FailedInsert(bts, b, id, lost);
    var s, s' := Alone(ctxs, bts, cnts, cache, On(Idle)), Alone(ctxs, bts', cnts, cache, On(Idle));
    Starts(ctxs, bts, cnts, cache, b);
    FailsGlobal(ctxs, bts, cnts, cache, b, id, lost);
    Drops(ctxs, bts', cnts, cache, Failed(ForAlloc));
    RunThree(s, 0, StartAlloc(b), GlobalFail(id, lost), Drop);
    Starts(ctxs, bts', cnts, cache, b);
    FollowsFreed(ctxs, bts', cnts, cache, b);
    RunTwo(s', 0, StartAlloc(b), Global(0, false));
    RunConcat(s, [(0, StartAlloc(b)), (0, GlobalFail(id, lost)), (0, Drop)],
              [(0, StartAlloc(b)), (0, Global(0, false))]);
  }

  lemma OneMore(k: nat, lost: nat)
    requires BUCKET_CELLS <= k && 1 <= lost <= k
    ensures k + 1 !in Ids(k) && k + 1 !in Ctxs(k) && k + 1 !in Cnts(k) && |Ids(k)| == k && lost != k + 1
    ensures CanFail(Ids(k), k + 1, lost)
  {
  }

  lemma BadAfter(s: State, x: Trace, y: Trace)
    requires Run(Run(s, x), y).bad
    ensures Run(s, x + y).bad
  {
    hide Run;
    RunConcat(s, x, y);
  }

  /** So it is after any number of contexts, from that on with which a bucket can be full. */
  lemma LostCtx(k: nat, lost: nat)
    requires BUCKET_CELLS <= k < PROF_TCMAX && 1 <= lost <= k
    ensures Run(Start(1), Seen(k) + LoseCtx(k + 1, k + 1, lost)).bad
  {
    SeenKnown(k);
    KnownLosesCtx(k, lost);
    hide *;
    BadAfter(Start(1), Seen(k), LoseCtx(k + 1, k + 1, lost));
  }

  lemma KnownLosesCtx(k: nat, lost: nat)
    requires BUCKET_CELLS <= k && 1 <= lost <= k
    ensures Run(Known(k), LoseCtx(k + 1, k + 1, lost)).bad
  {
    OneMore(k, lost);
    hide Run, LoseCtx, Ids, Ctxs, Cnts, Alone, CanFail;
    LostCtxBad(Ctxs(k), Ids(k), Cnts(k), Ids(k), k + 1, k + 1, lost);
  }

  // ----- A counter lost from the cache of the thread

  /** The insertion of a counter fails and loses an older one; then the backtrace comes again. */
  function LoseCnt(b: nat, id: nat, n: nat, lost: nat): Trace {
    [(0, StartAlloc(b)), (0, Global(id, false)), (0, AllocCnt)]
    + ([(0, InsertFail(n, lost)), (0, DestroyCtx), (0, Drop)] + [(0, StartAlloc(b)), (0, Hit)])
  }

  lemma FailsInsert(ctxs: map<nat, Ctx>, bts: Table, cnts: map<nat, Cnt>, cache: Table, id: nat, n: nat, lost: nat)
    requires id in ctxs && n !in cnts && CanFail(cache, ctxs[id].bt, lost)
    ensures Step(Alone(ctxs, bts, cnts, cache, On(GotCnt(id, true, ForAlloc))), 0, InsertFail(n, lost))
            == Alone(ctxs, bts, cnts, FailedInsert(cache, ctxs[id].bt, n, lost), Destroying(id, Failed(ForAlloc)))
  {
  }

  lemma Destroys(ctxs: map<nat, Ctx>, bts: Table, cnts: map<nat, Cnt>, cache: Table, id: nat, b: nat)
    requires id !in ctxs && b !in bts
    ensures Step(Alone(ctxs[id := Ctx(b, 1, NONE, {}, 0)], bts[b := id], cnts, cache,
        Destroying(id, Failed(ForAlloc))), 0, DestroyCtx) == Alone(ctxs, bts, cnts, cache, On(Failed(ForAlloc)))
  {
    assert ctxs[id := Ctx(b, 1, NONE, {}, 0)] - {id} == ctxs && bts[b := id] - {b} == bts;
  }

  lemma HitsFreed(ctxs: map<nat, Ctx>, bts: Table, cnts: map<nat, Cnt>, cache: Table, b: nat)
    requires b in cache && cache[b] !in cnts
    ensures Step(Alone(ctxs, bts, cnts, cache, On(Lookup(b, ForAlloc))), 0, Hit).bad
  {
  }

  /** Up to the lookup that fails, and the new context is destroyed. */
  lemma LosesCnt(ctxs: map<nat, Ctx>, bts: Table, cnts: map<nat, Cnt>, cache: Table,
      b: nat, id: nat, n: nat, lost: nat)
    requires b !in bts && id !in ctxs && n !in cnts && CanFail(cache, b, lost) && |cache| < PROF_TCMAX
    ensures Run(Alone(ctxs, bts, cnts, cache, On(Idle)), [(0, StartAlloc(b)), (0, Global(id, false)), (0, AllocCnt)])
            == Alone(ctxs[id := Ctx(b, 1, NONE, {}, 0)], bts[b := id], cnts, cache, On(GotCnt(id, true, ForAlloc)))
    ensures Run(Alone(ctxs[id := Ctx(b, 1, NONE, {}, 0)], bts[b := id], cnts, cache, On(GotCnt(id, true, ForAlloc))),
        [(0, InsertFail(n, lost)), (0, DestroyCtx), (0, Drop)])
            == Alone(ctxs, bts, cnts, FailedInsert(cache, b, n, lost), On(Idle))
  {
    assert b !in cache;
    var ctxs', bts', cache' := ctxs[id := Ctx(b, 1, NONE, {}, 0)], bts[b := id], FailedInsert(cache, b, n, lost);
    hide Step, Run, Alone, FailedInsert, CanFail;
    Starts(ctxs, bts, cnts, cache, b);
    Makes(ctxs, bts, cnts, cache, b, id);
    Allocates(ctxs', bts', cnts, cache, id);
    RunThree(Alone(ctxs, bts, cnts, cache, On(Idle)), 0, StartAlloc(b), Global(id, false), AllocCnt);
    FailsInsert(ctxs', bts', cnts, cache, id, n, lost);
    Destroys(ctxs, bts, cnts, cache', id, b);
    Drops(ctxs, bts, cnts, cache', Failed(ForAlloc));
    RunThree(Alone(ctxs', bts', cnts, cache, On(GotCnt(id, true, ForAlloc))), 0, InsertFail(n, lost),
        DestroyCtx, Drop);
  }

  /** The cache still leads from the backtrace to the counter that was freed, and the next lookup reads that. */
  lemma LostCntBad(ctxs: map<nat, Ctx>, bts: Table, cnts: map<nat, Cnt>, cache: Table,
      b: nat, id: nat, n: nat, lost: nat)
    requires b !in bts && id !in ctxs && n !in cnts && CanFail(cache, b, lost) && |cache| < PROF_TCMAX && lost != b
    ensures Run(Alone(ctxs, bts, cnts, cache, On(Idle)), LoseCnt(b, id, n, lost)).bad
  {
    OlderLost(cache, b, n, lost);
    LosesCnt(ctxs, bts, cnts, cache, b, id, n, lost);
    hide Step, Run, Alone, FailedInsert, CanFail;
    var cache' := FailedInsert(cache, b, n, lost);
    var s := Alone(ctxs, bts, cnts, cache, On(Idle));
    var x, y, z := [(0, StartAlloc(b)), (0, Global(id, false)), (0, AllocCnt)],
      [(0, InsertFail(n, lost)), (0, DestroyCtx), (0, Drop)], [(0, StartAlloc(b)), (0, Hit)];
    RunConcat(s, x, y + z);
    RunConcat(Run(s, x), y, z);
    RunTwo(Alone(ctxs, bts, cnts, cache', On(Idle)), 0, StartAlloc(b), Hit);
    Starts(ctxs, bts, cnts, cache', b);
    HitsFreed(ctxs, bts, cnts, cache', b);
  }

  lemma LostCnt(k: nat, lost: nat)
    requires BUCKET_CELLS <= k < PROF_TCMAX && 1 <= lost <= k
    ensures Run(Start(1), Seen(k) + LoseCnt(k + 1, k + 1, k + 1, lost)).bad
  {
    SeenKnown(k);
    KnownLosesCnt(k, lost);
    hide *;
    BadAfter(Start(1), Seen(k), LoseCnt(k + 1, k + 1, k + 1, lost));
  }

  lemma KnownLosesCnt(k: nat, lost: nat)
    requires BUCKET_CELLS <= k < PROF_TCMAX && 1 <= lost <= k
    ensures Run(Known(k), LoseCnt(k + 1, k + 1, k + 1, lost)).bad
  {
    OneMore(k, lost);
    hide Run, LoseCnt, Ids, Ctxs, Cnts, Alone, CanFail;
    LostCntBad(Ctxs(k), Ids(k), Cnts(k), Ids(k), k + 1, k + 1, k + 1, lost);
  }
}
