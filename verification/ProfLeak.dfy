/**
 The limbo counts that prof_lookup leaves behind when it runs out of memory: exactly which steps leave one, what that
 means for whole runs, and a run that ends with a context that nothing refers to and that is never freed.
 */
module ProfLeak {

  import opened CuckooMaps
  import opened ProfCtx

  /**
   The thread has found context c to exist already, and now has no memory for a counter or for the cache entry of it.
   */
  predicate LeaksAt(s: State, cache: map<nat, nat>, place: Place, a: Action, c: nat) {
    || (place.Got? && place.ctx == c && !place.isNew && a == AllocFail && |cache| < PROF_TCMAX)
    || (place.GotCnt? && place.ctx == c && !place.isNew && a.InsertFail?
        && c in s.ctxs && a.cnt !in s.cnts && CanFail(cache, s.ctxs[c].bt, a.lost))
  }

  predicate Leaks(s: State, t: nat, a: Action, c: nat) {
    t < |s.pcs| == |s.caches| && s.pcs[t].On? && LeaksAt(s, s.caches[t], s.pcs[t].place, a, c)
  }

  function One(b: bool): nat {
    if b then 1 else 0
  }

  /** What becomes of the limbo counts left behind on c: so many more, and none on a new context. */
  predicate More(s: State, s': State, c: nat, d: nat) {
    c in s'.ctxs ==> s'.ctxs[c].leaked == if c in s.ctxs then s.ctxs[c].leaked + d else 0
  }

  lemma CountsMore(s: State, t: nat, c: nat)
    requires t < |s.pcs| && s.pcs[t].On?
    ensures s.pcs[t].place.Ready? ==> forall o, size :: More(s, MallocStep(s, t, o, size), c, 0)
    ensures (s.pcs[t].place.Ready? || s.pcs[t].place.Failed?) && s.pcs[t].place.why.ForFree?
        ==> More(s, FreeStep(s, t), c, 0)
  {
  }

  lemma LinksMore(s: State, t: nat, victim: nat, next: Place, c: nat)
    requires t < |s.pcs| == |s.caches|
    ensures victim in s.caches[t] ==> More(s, MergeStep(s, t, victim, next), c, 0)
    ensures s.pcs[t].On? && s.pcs[t].place.GotCnt? ==> forall n :: More(s, LinkStep(s, t, n), c, 0)
  {
  }

  lemma GlobalMore(s: State, t: nat, c: nat)
    requires t < |s.pcs| == |s.caches|
    ensures s.pcs[t].On? && s.pcs[t].place.Lookup? ==> forall id, oom :: More(s, GlobalStep(s, t, id, oom), c, 0)
    ensures s.pcs[t].On? && s.pcs[t].place.Lookup? ==> forall id, lost :: More(s, GlobalFailStep(s, t, id, lost), c, 0)
    ensures s.pcs[t].Destroying? ==> More(s, DestroyStep(s, t), c, 0)
  {
  }

  lemma FailMore(s: State, t: nat, x: nat, isNew: bool, why: Why, c: nat)
    requires t < |s.pcs|
    ensures More(s, FailStep(s, t, x, isNew, why), c, One(!isNew && x == c))
  {
  }

  lemma InsertFailMore(s: State, t: nat, n: nat, lost: nat, c: nat)
    requires t < |s.pcs| == |s.caches| && s.pcs[t].On? && s.pcs[t].place.GotCnt?
    ensures More(s, InsertFailStep(s, t, n, lost), c, One(Leaks(s, t, InsertFail(n, lost), c)))
  {
    hide FailedInsert, CanFail;
    FailMore(s, t, s.pcs[t].place.ctx, s.pcs[t].place.isNew, s.pcs[t].place.why, c);
  }

  lemma MovesMore(s: State, s': State, c: nat)
    ensures s'.ctxs == s.ctxs ==> More(s, s', c, 0)
    ensures forall x, d, m :: x in s.ctxs ==> More(s, Limbo(s, x, d).(dumping := m), c, 0)
    ensures More(s, s, c, 0) && More(s, Bad(s), c, 0)
  {
  }

  /** A limbo count is left behind by a step that leaks and by no other. */
  lemma LeaksExactly(s: State, t: nat, a: Action, c: nat)
    ensures More(s, Step(s, t, a), c, One(Leaks(s, t, a, c)))
  {
    hide MergeStep, GlobalStep, GlobalFailStep, InsertFailStep, FailStep, LinkStep, DestroyStep, MallocStep, FreeStep;
    hide Frees, More, Limbo;
    MovesMore(s, Step(s, t, a), c);
    if t < |s.pcs| == |s.caches| {
      GlobalMore(s, t, c);
      LinksMore(s, t, 0, Idle, c);
      match a
      case ExitMerge(victim) => LinksMore(s, t, victim, Idle, c);
      case Flush(victim) =>
        if s.pcs[t].On? && s.pcs[t].place.Got? {
          LinksMore(s, t, victim, GotCnt(s.pcs[t].place.ctx, s.pcs[t].place.isNew, s.pcs[t].place.why), c);
        }
      case AllocFail =>
        if s.pcs[t].On? && s.pcs[t].place.Got? {
          FailMore(s, t, s.pcs[t].place.ctx, s.pcs[t].place.isNew, s.pcs[t].place.why, c);
        }
      case InsertFail(n, lost) =>
        if s.pcs[t].On? && s.pcs[t].place.GotCnt? {
          InsertFailMore(s, t, n, lost, c);
        }
      case _ =>
        if s.pcs[t].On? {
          CountsMore(s, t, c);
        }
    }
  }

  // ----- runs

  /** How many steps of a run left a limbo count behind on context c since it was made. */
  function LeakCount(n: nat, trace: Trace, c: nat): nat {
    if trace == [] then 0
    else
      var k := |trace| - 1;
      var s := Run(Start(n), trace[..k]);
      if c in s.ctxs then LeakCount(n, trace[..k], c) + One(Leaks(s, trace[k].0, trace[k].1, c)) else 0
  }

  lemma {:induction false} RunLeaks(n: nat, trace: Trace, c: nat)
    requires c in Run(Start(n), trace).ctxs
    ensures Run(Start(n), trace).ctxs[c].leaked == LeakCount(n, trace, c)
  {
    hide Step, Leaks, LeaksAt;
    if trace != [] {
      var k := |trace| - 1;
      var s := Run(Start(n), trace[..k]);
      LeaksExactly(s, trace[k].0, trace[k].1, c);
      if c in s.ctxs {
        RunLeaks(n, trace[..k], c);
      }
    }
  }

  /** Step i of a run left a limbo count behind on c, which has lived since. */
  ghost predicate LeakedSince(n: nat, trace: Trace, c: nat, i: nat) {
    && i < |trace| && Leaks(Run(Start(n), trace[..i]), trace[i].0, trace[i].1, c)
    && forall j: nat :: i <= j <= |trace| ==> c in Run(Start(n), trace[..j]).ctxs
  }

  lemma {:induction false} LeakCountPositive(n: nat, trace: Trace, c: nat)
    requires c in Run(Start(n), trace).ctxs
    ensures LeakCount(n, trace, c) > 0 <==> exists i :: LeakedSince(n, trace, c, i)
  {
    hide Step, Leaks, LeaksAt, Run;
    assert trace[..|trace|] == trace;
    if trace != [] {
      var k := |trace| - 1;
      var u := trace[..k];
      var s := Run(Start(n), u);
      assert forall j: nat :: j <= k ==> u[..j] == trace[..j];
      if c in s.ctxs {
        LeakCountPositive(n, u, c);
        forall i: nat | i < k ensures LeakedSince(n, trace, c, i) <==> LeakedSince(n, u, c, i) {
          assert u[i] == trace[i];
          SinceMore(n, trace, c, i);
        }
        assert LeakedSince(n, trace, c, k) <==> Leaks(s, trace[k].0, trace[k].1, c) by {
          LastStep(n, trace, c);
        }
      } else {
        forall i: nat ensures !LeakedSince(n, trace, c, i) {
          assert i <= k ==> c !in Run(Start(n), trace[..k]).ctxs;
        }
      }
    }
  }

  lemma SinceMore(n: nat, trace: Trace, c: nat, i: nat)
    requires i < |trace| - 1 && c in Run(Start(n), trace).ctxs
    ensures LeakedSince(n, trace, c, i) <==> LeakedSince(n, trace[..|trace| - 1], c, i)
  {
    hide Step, Leaks, LeaksAt, Run;
    var u := trace[..|trace| - 1];
    assert trace[..|trace|] == trace;
    assert u[..i] == trace[..i] && u[i] == trace[i];
    forall j: nat | j <= |u| ensures Run(Start(n), u[..j]) == Run(Start(n), trace[..j]) {
      assert u[..j] == trace[..j];
    }
  }

  lemma LastStep(n: nat, trace: Trace, c: nat)
    requires trace != [] && c in Run(Start(n), trace).ctxs && c in Run(Start(n), trace[..|trace| - 1]).ctxs
    ensures var k: nat := |trace| - 1;
      LeakedSince(n, trace, c, k) <==> Leaks(Run(Start(n), trace[..k]), trace[k].0, trace[k].1, c)
  {
    hide Step, Leaks, LeaksAt, Run;
    assert trace[..|trace|] == trace;
  }

  /**
   In every run the limbo count of a context is that of its holders and the dump, unless some step left one behind.
   */
  lemma LimboTrue(n: nat, trace: Trace, c: nat)
    requires NoLoss(n, trace) && c in Run(Start(n), trace).ctxs
    ensures var s := Run(Start(n), trace);
      var holders := Holders(s.pcs, c) + if c in s.dumping then 1 else 0;
      s.ctxs[c].nlimbo == holders <==> !exists i :: LeakedSince(n, trace, c, i)
  {
    hide Run, Holders, LeakedSince, LeakCount, NoLoss;
    Accounts(n, trace, c);
    RunLeaks(n, trace, c);
    LeakCountPositive(n, trace, c);
  }

  /** Once a count was left behind, the context lives on whatever happens. */
  lemma {:induction false} NeverFreedAgain(n: nat, trace: Trace, more: Trace, c: nat)
    requires NoLoss(n, trace + more) && c in Run(Start(n), trace).ctxs && exists i :: LeakedSince(n, trace, c, i)
    ensures c in Run(Start(n), trace + more).ctxs && 0 < Run(Start(n), trace + more).ctxs[c].leaked
    decreases |more|
  {
    hide Step, LeakedSince, LeakCount, Run, Inv, NoLoss;
    if more == [] {
      assert trace + more == trace;
      RunLeaks(n, trace, c);
      LeakCountPositive(n, trace, c);
    } else {
      var k := |more| - 1;
      assert (trace + more)[..|trace| + k] == trace + more[..k];
      NoLossPrefix(n, trace + more, |trace| + k);
      NeverFreedAgain(n, trace, more[..k], c);
      assert trace + more == trace + more[..k] + [more[k]];
      RunMore(n, trace + more[..k], more[k].0, more[k].1);
      RunInv(n, trace + more[..k]);
      LeakedForever(Run(Start(n), trace + more[..k]), more[k].0, more[k].1, c);
    }
  }

  lemma RunMore(n: nat, trace: Trace, t: nat, a: Action)
    ensures Run(Start(n), trace + [(t, a)]) == Step(Run(Start(n), trace), t, a)
  {
    hide Step;
    assert (trace + [(t, a)])[..|trace|] == trace;
  }

  // ----- a run that leaks

  const ONE := Counts(1, 8)

  /** Two threads, of which one has at most object 3 sampled, in context 1 through counter 2. */
  function Two(ctxs: map<nat, Ctx>, bts: map<nat, nat>, cnts: map<nat, Cnt>, objs: map<nat, Obj>, p: Place, q: Place,
      cache: map<nat, nat>)
    : State
  {
    State(ctxs, bts, cnts, objs, [On(p), On(q)], [cache, map[]], {}, false)
  }

  /**
   Thread 0 samples object 3 in a new context, which thread 1 finds and has no memory for a counter in; then thread 0
   frees the object and merges its counter.
   */
  const LEAKY: Trace :=
    [(0, StartAlloc(7)), (0, Global(1, false)), (0, AllocCnt), (0, Link(2)), (0, Malloc(3, 8)),
     (1, StartAlloc(7)), (1, Global(9, false)), (1, AllocFail), (1, Drop),
     (0, StartFree(3)), (0, Hit), (0, Free), (0, ExitMerge(7))]

  function After(k: nat): State
    requires k <= 13
  {
    match k
    case 0 => Two(map[], map[], map[], map[], Idle, Idle, map[])
    case 1 => Two(map[], map[], map[], map[], Lookup(7, ForAlloc), Idle, map[])
    case 2 => Two(map[1 := Ctx(7, 1, NONE, {}, 0)], map[7 := 1], map[], map[], Got(1, true, ForAlloc), Idle, map[])
    case 3 => Two(map[1 := Ctx(7, 1, NONE, {}, 0)], map[7 := 1], map[], map[], GotCnt(1, true, ForAlloc), Idle, map[])
    case 4 =>
      Two(map[1 := Ctx(7, 0, NONE, {2}, 0)], map[7 := 1], map[2 := Cnt(1, NONE)], map[], Ready(2, ForAlloc), Idle,
          map[7 := 2])
    case 5 =>
      Two(map[1 := Ctx(7, 0, NONE, {2}, 0)], map[7 := 1], map[2 := Cnt(1, ONE)], map[3 := Obj(1, 8)], Idle, Idle,
          map[7 := 2])
    case 6 =>
      Two(map[1 := Ctx(7, 0, NONE, {2}, 0)], map[7 := 1], map[2 := Cnt(1, ONE)], map[3 := Obj(1, 8)], Idle,
          Lookup(7, ForAlloc), map[7 := 2])
    case 7 =>
      Two(map[1 := Ctx(7, 1, NONE, {2}, 0)], map[7 := 1], map[2 := Cnt(1, ONE)], map[3 := Obj(1, 8)], Idle,
          Got(1, false, ForAlloc), map[7 := 2])
    case 8 =>
      Two(map[1 := Ctx(7, 1, NONE, {2}, 1)], map[7 := 1], map[2 := Cnt(1, ONE)], map[3 := Obj(1, 8)], Idle,
          Failed(ForAlloc), map[7 := 2])
    case 9 =>
      Two(map[1 := Ctx(7, 1, NONE, {2}, 1)], map[7 := 1], map[2 := Cnt(1, ONE)], map[3 := Obj(1, 8)], Idle, Idle,
          map[7 := 2])
    case 10 =>
      Two(map[1 := Ctx(7, 1, NONE, {2}, 1)], map[7 := 1], map[2 := Cnt(1, ONE)], map[3 := Obj(1, 8)],
          Lookup(7, ForFree(3)), Idle, map[7 := 2])
    case 11 =>
      Two(map[1 := Ctx(7, 1, NONE, {2}, 1)], map[7 := 1], map[2 := Cnt(1, ONE)], map[3 := Obj(1, 8)],
          Ready(2, ForFree(3)), Idle, map[7 := 2])
    case 12 =>
      Two(map[1 := Ctx(7, 1, NONE, {2}, 1)], map[7 := 1], map[2 := Cnt(1, NONE)], map[], Idle, Idle, map[7 := 2])
    case _ => Two(map[1 := Ctx(7, 1, NONE, {}, 1)], map[7 := 1], map[], map[], Idle, Idle, map[])
  }

  lemma Step0()
    ensures Step(After(0), LEAKY[0].0, LEAKY[0].1) == After(1)
  {
  }

  lemma Step1()
    ensures Step(After(1), LEAKY[1].0, LEAKY[1].1) == After(2)
  {
  }

  lemma Step2()
    ensures Step(After(2), LEAKY[2].0, LEAKY[2].1) == After(3)
  {
  }

  lemma Step3()
    ensures Step(After(3), LEAKY[3].0, LEAKY[3].1) == After(4)
  {
  }

  lemma Step4()
    ensures Step(After(4), LEAKY[4].0, LEAKY[4].1) == After(5)
  {
  }

  lemma Step5()
    ensures Step(After(5), LEAKY[5].0, LEAKY[5].1) == After(6)
  {
  }

  lemma Step6()
    ensures Step(After(6), LEAKY[6].0, LEAKY[6].1) == After(7)
  {
  }

  lemma Step7()
    ensures Step(After(7), LEAKY[7].0, LEAKY[7].1) == After(8)
  {
  }

  lemma Step8()
    ensures Step(After(8), LEAKY[8].0, LEAKY[8].1) == After(9)
  {
  }

  lemma Step9()
    ensures Step(After(9), LEAKY[9].0, LEAKY[9].1) == After(10)
  {
  }

  lemma Step10()
    ensures Step(After(10), LEAKY[10].0, LEAKY[10].1) == After(11)
  {
  }

  lemma Step11()
    ensures Step(After(11), LEAKY[11].0, LEAKY[11].1) == After(12)
  {
  }

  lemma Step12()
    ensures Step(After(12), LEAKY[12].0, LEAKY[12].1) == After(13)
  {
    hide MergeStep;
    Merges();
  }

  lemma Merges()
    ensures MergeStep(After(12), 0, 7, Idle) == After(13)
  {
    hide MergeStep, After;
    Ends();
    Adds();
    MergesAlone(After(12), Ctx(7, 1, NONE, {2}, 1), Ctx(7, 1, NONE, {}, 1), Cnt(1, NONE));
  }

  lemma Adds()
    ensures NONE.Add(NONE) == NONE
    ensures Ctx(7, 1, NONE, {}, 1) == Ctx(7, 1, NONE, {2}, 1).(merged := NONE, cnts := {})
  {
    hide *;
    AddsNothing(NONE, 0);
  }

  lemma AddsNothing(x: Counts, zero: int)
    requires zero == 0
    ensures x.Add(Counts(zero, zero)) == x
    ensures NONE == Counts(zero, zero)
  {
  }

  lemma MergesAlone(s: State, x: Ctx, y: Ctx, k: Cnt)
    requires s.ctxs == map[1 := x] && s.cnts == map[2 := k] && s.caches == [map[7 := 2], map[]] && k.ctx == 1
    requires s.pcs == [On(Idle), On(Idle)] && x.cnts == {2} && y.nlimbo != 0
    requires y == x.(merged := x.merged.Add(k.cur), cnts := {})
    ensures MergeStep(s, 0, 7, Idle) == s.(ctxs := map[1 := y], cnts := map[], caches := [map[], map[]])
  {
    Nothing(s.cnts, s.caches[0], x.cnts);
    assert s.ctxs[1 := y] == map[1 := y];
    assert s.caches[0 := map[]] == [map[], map[]];
    assert s.pcs[0 := On(Idle)] == s.pcs;
  }

  lemma Nothing(cnts: map<nat, Cnt>, cache: map<nat, nat>, linked: set<nat>)
    requires cnts.Keys == linked == {2} && cache.Keys == {7}
    ensures cnts - {2} == map[] && cache - {7} == map[] && linked - {2} == {}
  {
  }

  lemma OneMore(k: nat)
    requires k < 13 == |LEAKY| && Run(Start(2), LEAKY[..k]) == After(k)
    requires Step(After(k), LEAKY[k].0, LEAKY[k].1) == After(k + 1)
    ensures Run(Start(2), LEAKY[..k + 1]) == After(k + 1)
  {
    hide After, Step, Run, LEAKY;
    assert LEAKY[..k + 1] == LEAKY[..k] + [(LEAKY[k].0, LEAKY[k].1)];
    RunMore(2, LEAKY[..k], LEAKY[k].0, LEAKY[k].1);
  }

  /**
   In the end nobody refers to the context, no thread is busy, and yet the context is there and its limbo count is 1.
   */
  lemma LeakyRun()
    ensures var s := Run(Start(2), LEAKY);
      && s.ctxs == map[1 := Ctx(7, 1, NONE, {}, 1)] && s.cnts == map[] && s.objs == map[] && s.dumping == {}
      && s.pcs == [On(Idle), On(Idle)]
  {
    hide Run, Step, After, LEAKY;
    LeakySteps();
    assert LEAKY[..0] == [] && LEAKY[..13] == LEAKY;
    Begins();
    Step0(); OneMore(0);
    Step1(); OneMore(1);
    Step2(); OneMore(2);
    Step3(); OneMore(3);
    Step4(); OneMore(4);
    Step5(); OneMore(5);
    Step6(); OneMore(6);
    Step7(); OneMore(7);
    Step8(); OneMore(8);
    Step9(); OneMore(9);
    Step10(); OneMore(10);
    Step11(); OneMore(11);
    Step12(); OneMore(12);
    Ends();
  }

  lemma LeakySteps()
    ensures |LEAKY| == 13
  {
  }

  lemma Begins()
    ensures Run(Start(2), []) == After(0)
  {
    assert Start(2).pcs == [On(Idle), On(Idle)] && Start(2).caches == [map[], map[]];
  }

  lemma Ends()
    ensures After(12) == Two(map[1 := Ctx(7, 1, NONE, {2}, 1)], map[7 := 1], map[2 := Cnt(1, NONE)], map[], Idle,
        Idle, map[7 := 2])
    ensures After(13) == Two(map[1 := Ctx(7, 1, NONE, {}, 1)], map[7 := 1], map[], map[], Idle, Idle, map[])
  {
  }
}
