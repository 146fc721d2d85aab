/**
 Contexts that stay behind in bt2ctx: nothing refers to them, nobody is about to destroy them, and no limbo count was
 left behind on them either.
 */
module ProfBehind {

  import opened CuckooMaps
  import opened ProfCtx

  ghost predicate Behind(s: State, c: nat) {
    c in s.ctxs && !Refers(s, c) && s.ctxs[c].nlimbo == 0
  }

  /** prof_free without a counter takes the last object of a context that nothing else refers to. */
  ghost predicate LastObject(s: State, t: nat, a: Action, c: nat) {
    && t < |s.pcs| == |s.caches| && a == Free && s.pcs[t].On? && s.pcs[t].place.Failed? && s.pcs[t].place.why.ForFree?
    && s.pcs[t].place.why.obj in s.objs && s.objs[s.pcs[t].place.why.obj].ctx == c
    && (forall o :: o in s.objs && s.objs[o].ctx == c ==> o == s.pcs[t].place.why.obj)
    && !HasCounter(s, c) && !Held(s, c) && c !in s.dumping
  }

  /** A dump lets go of a context that nothing else refers to any more. */
  ghost predicate LastDump(s: State, t: nat, a: Action, c: nat) {
    && t < |s.pcs| == |s.caches| && a == DumpCleanup(c) && c in s.dumping
    && !HasCounter(s, c) && !HasObject(s, c) && !Held(s, c)
  }

  /** A step after which everything refers to c as before. */
  ghost predicate Keeps(s: State, s': State, t: nat, c: nat) {
    && t < |s.pcs| == |s'.pcs| && (forall u :: 0 <= u < |s.pcs| && u != t ==> s'.pcs[u] == s.pcs[u])
    && (forall n :: n in s.cnts && s.cnts[n].ctx == c ==> n in s'.cnts && s'.cnts[n].ctx == c)
    && (forall o :: o in s.objs && s.objs[o].ctx == c ==> o in s'.objs && s'.objs[o].ctx == c)
    && (c in s.dumping ==> c in s'.dumping)
    && Holds(s.pcs[t], c) <= Holds(s'.pcs[t], c)
  }

  lemma KeepsRefers(s: State, s': State, t: nat, c: nat)
    requires Keeps(s, s', t, c) && Refers(s, c)
    ensures !Behind(s', c)
  {
    hide Holds;
    if Held(s, c) {
      var u :| 0 <= u < |s.pcs| && Holds(s.pcs[u], c) > 0;
      assert Holds(s'.pcs[u], c) > 0;
    }
  }

  lemma StillRefers(s: State, c: nat)
    requires Refers(s, c)
    ensures !Behind(s, c)
  {
  }

  /** The limbo count of a context to which nothing refers is what failed lookups left behind. */
  lemma Unheld(s: State, c: nat)
    requires Inv(s) && c in s.ctxs && !Refers(s, c)
    ensures s.ctxs[c].nlimbo == s.ctxs[c].leaked && s.ctxs[c].cnts == {} && s.ctxs[c].merged == NONE
  {
    hide Mapped, CntsLinked, Cached, Counted, LimboExact, PcsOk, HasCounter, HasObject, Held;
    UnheldLimbo(s, c);
    UnheldCounts(s, c);
  }

  lemma UnheldLimbo(s: State, c: nat)
    requires LimboExact(s) && c in s.ctxs && !Held(s, c) && c !in s.dumping
    ensures s.ctxs[c].nlimbo == s.ctxs[c].leaked
  {
    HoldersZero(s.pcs, c);
  }

  lemma UnheldCounts(s: State, c: nat)
    requires Counted(s) && CntsLinked(s) && c in s.ctxs && !HasCounter(s, c) && !HasObject(s, c)
    ensures s.ctxs[c].cnts == {} && s.ctxs[c].merged == NONE
  {
    Uncounted(s, c);
    hide CountSampled, CountLinked, CntsLinked;
    NothingRefers(s.objs, s.cnts, c);
    assert Balanced(CountSampled(s.objs, c), s.ctxs[c].merged, CountLinked(s.cnts, c));
  }

  lemma Uncounted(s: State, c: nat)
    requires CntsLinked(s) && c in s.ctxs && !HasCounter(s, c)
    ensures s.ctxs[c].cnts == {}
  {
    if n :| n in s.ctxs[c].cnts {
      LinkedCounter(s, c, n);
      assert false;
    }
  }

  lemma LinkedCounter(s: State, c: nat, n: nat)
    requires CntsLinked(s) && c in s.ctxs && n in s.ctxs[c].cnts
    ensures HasCounter(s, c)
  {
    assert n in s.cnts && s.cnts[n].ctx == c;
  }

  // ----- Steps that take a reference away, but leave another one or a limbo count

  lemma FailBehind(s: State, t: nat, x: nat, isNew: bool, why: Why, c: nat)
    requires Inv(s) && t < |s.pcs| && (s.pcs[t] == On(Got(x, isNew, why)) || s.pcs[t] == On(GotCnt(x, isNew, why)))
    requires Refers(s, c) && Inv(FailStep(s, t, x, isNew, why))
    ensures !Behind(FailStep(s, t, x, isNew, why), c)
  {
    FailPlaceOf(s, t, x, isNew, why);
    FailKeeps(s, t, x, isNew, why, c);
    hide Inv, Refers, FailStep, Keeps;
    var s' := FailStep(s, t, x, isNew, why);
    if isNew || c != x {
      KeepsRefers(s, s', t, c);
    } else if !Refers(s', c) {
      Unheld(s', c);
    }
  }

  lemma FailKeeps(s: State, t: nat, x: nat, isNew: bool, why: Why, c: nat)
    requires x in s.ctxs
    requires t < |s.pcs| && (s.pcs[t] == On(Got(x, isNew, why)) || s.pcs[t] == On(GotCnt(x, isNew, why)))
    ensures var s' := FailStep(s, t, x, isNew, why);
      if isNew || c != x then Keeps(s, s', t, c) else x in s'.ctxs && 0 < s'.ctxs[x].leaked
  {
  }

  lemma MergeBehind(s: State, t: nat, victim: nat, next: Place, c: nat)
    requires Inv(s) && Merges(s, t, victim, next) && Refers(s, c) && Inv(MergeStep(s, t, victim, next))
    ensures !Behind(MergeStep(s, t, victim, next), c)
  {
    CachedCounter(s, t, victim);
    MergeKeeps(s, t, victim, next, c);
    hide Inv, Refers, MergeStep, Merges, Keeps;
    var s' := MergeStep(s, t, victim, next);
    if c != s.cnts[s.caches[t][victim]].ctx {
      KeepsRefers(s, s', t, c);
    } else if c in s'.ctxs && !Refers(s', c) {
      Unheld(s', c);
      if s'.pcs[t].Destroying? {
        DestroyingHeld(s', t);
      }
    }
  }

  lemma MergeKeeps(s: State, t: nat, victim: nat, next: Place, c: nat)
    requires Merges(s, t, victim, next) && s.caches[t][victim] in s.cnts && s.cnts[s.caches[t][victim]].ctx in s.ctxs
    ensures var s' := MergeStep(s, t, victim, next);
      if c != s.cnts[s.caches[t][victim]].ctx then Keeps(s, s', t, c)
      else
        && t < |s'.pcs| && c in s'.ctxs
        && (s'.pcs[t].Destroying? ==> s'.pcs[t].ctx == c)
        && (!s'.pcs[t].Destroying? && s'.ctxs[c].cnts == {} && s'.ctxs[c].merged.objs == 0 ==> s'.ctxs[c].nlimbo != 0)
  {
    hide MergeStep;
    MergeShape(s, t, victim, next);
  }

  lemma DestroyingHeld(s: State, t: nat)
    requires t < |s.pcs| && s.pcs[t].Destroying?
    ensures Refers(s, s.pcs[t].ctx)
  {
    assert Holds(s.pcs[t], s.pcs[t].ctx) > 0;
  }

  lemma LinkBehind(s: State, t: nat, n: nat, c: nat)
    requires Inv(s) && t < |s.pcs| == |s.caches| && s.pcs[t].On? && s.pcs[t].place.GotCnt? && Refers(s, c)
    ensures !Behind(LinkStep(s, t, n), c)
  {
    FailPlaceOf(s, t, s.pcs[t].place.ctx, s.pcs[t].place.isNew, s.pcs[t].place.why);
    LinkKeeps(s, t, n, c);
    hide Inv, Refers, LinkStep, Keeps;
    if n in s.cnts {
      StillRefers(s, c);
    } else if c == s.pcs[t].place.ctx {
      CounterRefers(LinkStep(s, t, n), n);
    } else {
      KeepsRefers(s, LinkStep(s, t, n), t, c);
    }
  }

  lemma LinkKeeps(s: State, t: nat, n: nat, c: nat)
    requires t < |s.pcs| == |s.caches| && s.pcs[t].On? && s.pcs[t].place.GotCnt? && s.pcs[t].place.ctx in s.ctxs
    ensures var s' := LinkStep(s, t, n);
      if n in s.cnts then s' == s
      else if c == s.pcs[t].place.ctx then n in s'.cnts && s'.cnts[n].ctx == c else Keeps(s, s', t, c)
  {
  }

  lemma CounterRefers(s: State, n: nat)
    requires n in s.cnts
    ensures Refers(s, s.cnts[n].ctx) && !Behind(s, s.cnts[n].ctx)
  {
  }

  lemma DestroyBehind(s: State, t: nat, c: nat)
    requires Inv(s) && t < |s.pcs| && s.pcs[t].Destroying? && Refers(s, c) && Inv(DestroyStep(s, t))
    ensures !Behind(DestroyStep(s, t), c)
  {
    DestroyingLive(s, t);
    DestroyKeeps(s, t, c);
    hide Inv, Refers, DestroyStep, Keeps;
    var s' := DestroyStep(s, t);
    if c != s.pcs[t].ctx {
      KeepsRefers(s, s', t, c);
    } else if c in s'.ctxs && !Refers(s', c) {
      Unheld(s', c);
    }
  }

  lemma DestroyingLive(s: State, t: nat)
    requires Inv(s) && t < |s.pcs| && s.pcs[t].Destroying?
    ensures s.pcs[t].ctx in s.ctxs && s.ctxs[s.pcs[t].ctx].bt in s.bt2ctx
  {
    MineOk(s, t);
  }

  lemma DestroyKeeps(s: State, t: nat, c: nat)
    requires t < |s.pcs| && s.pcs[t].Destroying? && s.pcs[t].ctx in s.ctxs && s.ctxs[s.pcs[t].ctx].bt in s.bt2ctx
    ensures var s' := DestroyStep(s, t);
      if c != s.pcs[t].ctx then Keeps(s, s', t, c) || s' == Bad(s)
      else c in s'.ctxs && s'.ctxs[c].cnts == {} && s'.ctxs[c].merged == NONE ==> s'.ctxs[c].nlimbo != 0 || s'.bad
  {
  }

  lemma MallocBehind(s: State, t: nat, o: nat, size: nat, c: nat)
    requires Inv(s) && t < |s.pcs| && s.pcs[t].On? && s.pcs[t].place.Ready? && s.pcs[t].place.why.ForAlloc?
    requires Refers(s, c)
    ensures !Behind(MallocStep(s, t, o, size), c)
  {
    ReadyLinked(s, t);
    MallocKeeps(s, t, o, size, c);
    hide Inv, Refers, MallocStep, Keeps;
    KeepsRefers(s, MallocStep(s, t, o, size), t, c);
  }

  lemma MallocKeeps(s: State, t: nat, o: nat, size: nat, c: nat)
    requires t < |s.pcs| && s.pcs[t].On? && s.pcs[t].place.Ready? && s.pcs[t].place.cnt in s.cnts
    ensures Keeps(s, MallocStep(s, t, o, size), t, c)
  {
  }

  lemma GlobalKeeps(s: State, t: nat, id: nat, oom: bool, c: nat)
    requires t < |s.pcs| == |s.caches| && s.pcs[t].On? && s.pcs[t].place.Lookup?
    ensures Keeps(s, GlobalStep(s, t, id, oom), t, c)
  {
  }

  lemma GlobalFailKeeps(s: State, t: nat, id: nat, lost: nat, c: nat)
    requires t < |s.pcs| == |s.caches| && s.pcs[t].On? && s.pcs[t].place.Lookup?
    ensures Keeps(s, GlobalFailStep(s, t, id, lost), t, c)
  {
    hide FailedInsert, CanFail;
  }

  // ----- Steps that may take the last reference away

  lemma FreeBehind(s: State, t: nat, c: nat)
    requires Inv(s) && t < |s.pcs| == |s.caches| && s.pcs[t].On? && c in s.ctxs && Refers(s, c)
    requires (s.pcs[t].place.Ready? || s.pcs[t].place.Failed?) && s.pcs[t].place.why.ForFree? && Inv(FreeStep(s, t))
    ensures Behind(FreeStep(s, t), c) <==> s.ctxs[c].leaked == 0 && LastObject(s, t, Free, c)
  {
    Freed(s, t);
    FreeKeeps(s, t, c);
    hide Inv, Refers, FreeStep, Keeps, LastObject;
    var s', o := FreeStep(s, t), s.pcs[t].place.why.obj;
    if c != s.objs[o].ctx {
      KeepsRefers(s, s', t, c);
    } else if s.pcs[t].place.Ready? {
      CounterRefers(s', s.pcs[t].place.cnt);
    } else if Refers(s', c) {
      StillRefers(s', c);
    } else {
      Unheld(s', c);
    }
  }

  lemma FreeKeeps(s: State, t: nat, c: nat)
    requires t < |s.pcs| == |s.caches| && s.pcs[t].On? && c in s.ctxs
    requires (s.pcs[t].place.Ready? || s.pcs[t].place.Failed?) && s.pcs[t].place.why.ForFree?
    requires s.pcs[t].place.why.obj in s.objs && s.objs[s.pcs[t].place.why.obj].ctx in s.ctxs
    requires s.pcs[t].place.Ready? ==>
      s.pcs[t].place.cnt in s.cnts && s.cnts[s.pcs[t].place.cnt].ctx == s.objs[s.pcs[t].place.why.obj].ctx
    ensures var s', o := FreeStep(s, t), s.pcs[t].place.why.obj;
      if c != s.objs[o].ctx then Keeps(s, s', t, c) && !LastObject(s, t, Free, c)
      else if s.pcs[t].place.Ready? then
        s.pcs[t].place.cnt in s'.cnts && s'.cnts[s.pcs[t].place.cnt].ctx == c && !LastObject(s, t, Free, c)
      else
        && c in s'.ctxs && s'.ctxs[c].leaked == s.ctxs[c].leaked && s'.ctxs[c].nlimbo == s.ctxs[c].nlimbo
        && (Refers(s', c) <==> !LastObject(s, t, Free, c))
  {
    FreeShape(s, t, s.pcs[t].place.why.obj);
    hide FreeStep;
    if s.pcs[t].place.Failed? && c == s.objs[s.pcs[t].place.why.obj].ctx {
      FreedReferences(s, FreeStep(s, t), t, c);
    }
  }

  lemma FreedReferences(s: State, s': State, t: nat, c: nat)
    requires t < |s.pcs| == |s.caches| && s.pcs[t].On? && s.pcs[t].place.Failed? && s.pcs[t].place.why.ForFree?
    requires OnlyCounts(s, s', t) && s'.cnts == s.cnts && s.pcs[t].place.why.obj in s.objs
    requires s'.objs == s.objs - {s.pcs[t].place.why.obj} && s.objs[s.pcs[t].place.why.obj].ctx == c
    ensures Refers(s', c) <==> !LastObject(s, t, Free, c)
  {
    HeldSame(s, s', t, c);
    hide Held;
    var o := s.pcs[t].place.why.obj;
    if x :| x in s.objs && s.objs[x].ctx == c && x != o {
      assert x in s'.objs;
    }
  }

  lemma HeldSame(s: State, s': State, t: nat, c: nat)
    requires t < |s.pcs| == |s'.pcs| && forall u :: 0 <= u < |s.pcs| && u != t ==> s'.pcs[u] == s.pcs[u]
    requires Holds(s'.pcs[t], c) == Holds(s.pcs[t], c)
    ensures Held(s', c) <==> Held(s, c)
  {
    hide Holds;
    assert forall u :: 0 <= u < |s.pcs| ==> Holds(s'.pcs[u], c) == Holds(s.pcs[u], c);
  }

  lemma CleanupBehind(s: State, t: nat, x: nat, c: nat)
    requires Inv(s) && t < |s.pcs| == |s.caches| && c in s.ctxs && Refers(s, c) && Inv(Step(s, t, DumpCleanup(x)))
    ensures Behind(Step(s, t, DumpCleanup(x)), c) <==> s.ctxs[c].leaked == 0 && LastDump(s, t, DumpCleanup(x), c)
  {
    var s' := Step(s, t, DumpCleanup(x));
    if x in s.dumping {
      DumpLive(s, x, false);
    }
    CleanupKeeps(s, t, x, c);
    hide Inv, Step, Refers, Keeps, LastDump;
    if x !in s.dumping || c != x {
      KeepsRefers(s, s', t, c);
    } else if Refers(s', c) {
      StillRefers(s', c);
    } else {
      Unheld(s', c);
    }
  }

  lemma CleanupKeeps(s: State, t: nat, x: nat, c: nat)
    requires t < |s.pcs| == |s.caches| && c in s.ctxs && (x in s.dumping ==> x in s.ctxs)
    ensures var s' := Step(s, t, DumpCleanup(x));
      if x !in s.dumping || c != x then Keeps(s, s', t, c) && !LastDump(s, t, DumpCleanup(x), c)
      else
        && c in s'.ctxs && s'.ctxs[c].leaked == s.ctxs[c].leaked
        && (Refers(s', c) <==> !LastDump(s, t, DumpCleanup(x), c))
  {
    if x !in s.dumping {
      IdleCleanup(s, t, x);
    } else {
      DumpStepIs(s, t, x, false);
      HeldCleanup(s, x, c);
    }
    hide Step, Holds, Held;
  }

  lemma IdleCleanup(s: State, t: nat, x: nat)
    requires x !in s.dumping
    ensures Step(s, t, DumpCleanup(x)) == s
  {
  }

  lemma HeldCleanup(s: State, x: nat, c: nat)
    requires x in s.ctxs
    ensures Held(Limbo(s, x, -1).(dumping := s.dumping - {x}), c) <==> Held(s, c)
  {
    hide Holds;
  }

  // ----- All steps

  /** Steps that change only where the thread is, and a dump that begins. */
  predicate Moves(a: Action) {
    a.StartAlloc? || a.StartFree? || a.NoTdata? || a.Hit? || a.AllocCnt? || a.Drop? || a.DumpPrep?
  }

  lemma MoveKeeps(s: State, t: nat, a: Action, c: nat)
    requires t < |s.pcs| == |s.caches| && Moves(a)
    ensures Keeps(s, Step(s, t, a), t, c)
  {
    if a.DumpPrep? {
      PrepKeeps(s, t, a.ctx, c);
    } else {
      MovesKeeps(s, t, a, c);
    }
  }

  lemma PrepKeeps(s: State, t: nat, x: nat, c: nat)
    requires t < |s.pcs| == |s.caches|
    ensures Keeps(s, Step(s, t, DumpPrep(x)), t, c)
  {
    hide Holds;
  }

  lemma MovesKeeps(s: State, t: nat, a: Action, c: nat)
    requires t < |s.pcs| == |s.caches| && Moves(a) && !a.DumpPrep?
    ensures Keeps(s, Step(s, t, a), t, c)
  {
    hide Keeps, Frees;
    var s' := Step(s, t, a);
    BadKeeps(s, t, c);
    SameKeeps(s, t, c);
    if s' != s && s' != Bad(s) {
      AtKeeps(s, t, s'.pcs[t].place, c);
    }
  }

  lemma AtKeeps(s: State, t: nat, place: Place, c: nat)
    requires t < |s.pcs| && Holds(s.pcs[t], c) <= HoldsAt(place, c)
    ensures Keeps(s, At(s, t, place), t, c)
  {
  }

  lemma BadKeeps(s: State, t: nat, c: nat)
    requires t < |s.pcs|
    ensures Keeps(s, Bad(s), t, c)
  {
  }

  lemma SameKeeps(s: State, t: nat, c: nat)
    requires t < |s.pcs|
    ensures Keeps(s, s, t, c)
  {
  }

  /**
   A context to which something refers stays behind, without a limbo count, by exactly two kinds of steps: prof_free
   without a counter takes its last object, or a dump is the last to let go of it.
   */
  lemma StaysBehind(s: State, t: nat, a: Action, c: nat)
    requires Inv(s) && !Loses(s, t, a) && c in s.ctxs && Refers(s, c)
    ensures Behind(Step(s, t, a), c) <==> s.ctxs[c].leaked == 0 && (LastObject(s, t, a, c) || LastDump(s, t, a, c))
  {
    StepInv(s, t, a);
    Nowhere(s, t, a, c);
    hide *;
    if !(t < |s.pcs| == |s.caches|) {
      StillRefers(s, c);
    } else if a.DumpCleanup? {
      CleanupBehind(s, t, a.ctx, c);
    } else if Moves(a) {
      MoveKeeps(s, t, a, c);
      KeepsRefers(s, Step(s, t, a), t, c);
    } else if Step(s, t, a) == s && !a.Free? {
      StillRefers(s, c);
    } else {
      WorkBehind(s, t, a, c);
    }
  }

  lemma Nowhere(s: State, t: nat, a: Action, c: nat)
    ensures !(t < |s.pcs| == |s.caches|) ==> Step(s, t, a) == s
    ensures Moves(a) ==> !LastObject(s, t, a, c) && !LastDump(s, t, a, c)
    ensures LastObject(s, t, a, c) ==> a == Free && t < |s.pcs| == |s.caches|
    ensures LastDump(s, t, a, c) ==> a == DumpCleanup(c) && t < |s.pcs| == |s.caches|
  {
  }

  lemma WorkBehind(s: State, t: nat, a: Action, c: nat)
    requires Inv(s) && !Loses(s, t, a) && c in s.ctxs && Refers(s, c) && t < |s.pcs| == |s.caches|
    requires Inv(Step(s, t, a)) && (Step(s, t, a) != s || a.Free?)
    requires !Moves(a) && !a.DumpCleanup?
    ensures Behind(Step(s, t, a), c) <==> s.ctxs[c].leaked == 0 && LastObject(s, t, a, c)
  {
    hide Inv, Refers, Behind, MergeStep, GlobalStep, GlobalFailStep, InsertFailStep, FailStep, LinkStep, DestroyStep;
    hide MallocStep, FreeStep, Loses, Holds, Keeps, HasCounter, HasObject, Held;
    Nowhere(s, t, a, c);
    match a
    case ExitMerge(victim) => MergeBehind(s, t, victim, Idle, c);
    case Flush(victim) =>
      MergeBehind(s, t, victim, GotCnt(s.pcs[t].place.ctx, s.pcs[t].place.isNew, s.pcs[t].place.why), c);
    case Global(id, oom) =>
      GlobalKeeps(s, t, id, oom, c);
      KeepsRefers(s, GlobalStep(s, t, id, oom), t, c);
    case GlobalFail(id, lost) =>
      GlobalFailKeeps(s, t, id, lost, c);
      KeepsRefers(s, GlobalFailStep(s, t, id, lost), t, c);
    case AllocFail => FailBehind(s, t, s.pcs[t].place.ctx, s.pcs[t].place.isNew, s.pcs[t].place.why, c);
    case InsertFail(n, lost) =>
      FailPlaceOf(s, t, s.pcs[t].place.ctx, s.pcs[t].place.isNew, s.pcs[t].place.why);
      InsertFailShape(s, t, n, lost);
      FailBehind(s, t, s.pcs[t].place.ctx, s.pcs[t].place.isNew, s.pcs[t].place.why, c);
    case Link(n) => LinkBehind(s, t, n, c);
    case DestroyCtx => DestroyBehind(s, t, c);
    case Malloc(o, size) => MallocBehind(s, t, o, size, c);
    case Free =>
      if s.pcs[t].On? && (s.pcs[t].place.Ready? || s.pcs[t].place.Failed?) && s.pcs[t].place.why.ForFree? {
        FreeBehind(s, t, c);
      } else {
        StillRefers(s, c);
      }
  }
}
