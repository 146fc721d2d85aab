/**
 The lifetime of heap-profile contexts (prof.c, prof.h, with opt_prof_accum off): threads look contexts
 up, link counters into them, merge counters, and race to destroy contexts that became unused.  One section
 under the context lock (or the lock of bt2ctx), or one piece of thread-local work, is one step.
 */
module ProfCtx {

  import opened CuckooMaps

  const PROF_TCMAX: nat := 1024

  /** curobjs and curbytes. */
  datatype Counts = Counts(objs: int, bytes: int) {
    function Add(that: Counts): Counts {
      Counts(objs + that.objs, bytes + that.bytes)
    }
    function Sub(that: Counts): Counts {
      Counts(objs - that.objs, bytes - that.bytes)
    }
  }

  const NONE := Counts(0, 0)

  /** prof_ctx_t; leaked is not in the source and counts the limbo counts that nobody will take back. */
  datatype Ctx = Ctx(bt: nat, nlimbo: int, merged: Counts, cnts: set<nat>, leaked: nat)

  /** prof_thr_cnt_t, linked into a context. */
  datatype Cnt = Cnt(ctx: nat, cur: Counts)

  /** A live object that was sampled, and the context recorded for it. */
  datatype Obj = Obj(ctx: nat, size: nat)

  datatype Why = ForAlloc | ForFree(obj: nat)

  /** Where a thread is in prof_lookup, prof_malloc, prof_free or thread exit. */
  datatype Place =
    | Idle
    | Lookup(bt: nat, why: Why)
    | Got(ctx: nat, isNew: bool, why: Why)
    | GotCnt(ctx: nat, isNew: bool, why: Why)
    | Ready(cnt: nat, why: Why)
    | Failed(why: Why)

  /** A thread is at a place, or about to enter prof_ctx_destroy and then to go on at one. */
  datatype Pc = On(place: Place) | Destroying(ctx: nat, next: Place)

  /** bad is set by a step that follows a pointer to a freed context, or violates an assertion of prof_ctx_destroy. */
  datatype State = State(ctxs: map<nat, Ctx>, bt2ctx: map<nat, nat>, cnts: map<nat, Cnt>, objs: map<nat, Obj>,
                         pcs: seq<Pc>, caches: seq<map<nat, nat>>, dumping: set<nat>, bad: bool)

  datatype Action =
    | StartAlloc(bt: nat)
    | StartFree(obj: nat)
    | NoTdata
    | Hit
    | Global(id: nat, oom: bool)
    | GlobalFail(id: nat, lost: nat)
    | Flush(victim: nat)
    | AllocCnt
    | AllocFail
    | InsertFail(cnt: nat, lost: nat)
    | Link(cnt: nat)
    | DestroyCtx
    | Malloc(obj: nat, size: nat)
    | Drop
    | Free
    | ExitMerge(victim: nat)
    | DumpPrep(ctx: nat)
    | DumpCleanup(ctx: nat)

  // ----- Steps

  function Limbo(s: State, c: nat, d: int): State
    requires c in s.ctxs
  {
    s.(ctxs := s.ctxs[c := s.ctxs[c].(nlimbo := s.ctxs[c].nlimbo + d)])
  }

  function Goto(s: State, t: nat, pc: Pc): State
    requires t < |s.pcs|
  {
    s.(pcs := s.pcs[t := pc])
  }

  function At(s: State, t: nat, place: Place): State
    requires t < |s.pcs|
  {
    Goto(s, t, On(place))
  }

  function Bad(s: State): State {
    s.(bad := true)
  }

  /** prof_ctx_destroy */
  function DestroyStep(s: State, t: nat): State
    requires t < |s.pcs| && s.pcs[t].Destroying?
  {
    var c, next := s.pcs[t].ctx, s.pcs[t].next;
    if c !in s.ctxs then Bad(s)
    else
      var x := s.ctxs[c];
      if x.cnts == {} && x.merged.objs == 0 && x.nlimbo == 1 then
        if x.merged.bytes != 0 || x.bt !in s.bt2ctx then Bad(s)
        else At(s.(ctxs := s.ctxs - {c}, bt2ctx := s.bt2ctx - {x.bt}), t, next)
      else At(Limbo(s, c, -1), t, next)
  }

  /** prof_ctx_merge of the counter that thread t caches for victim, then carrying on at next. */
  function MergeStep(s: State, t: nat, victim: nat, next: Place): State
    requires t < |s.pcs| == |s.caches| && victim in s.caches[t]
  {
    var n := s.caches[t][victim];
    if n !in s.cnts || s.cnts[n].ctx !in s.ctxs then Bad(s)
    else
      var c := s.cnts[n].ctx;
      var x := s.ctxs[c];
      var y := x.(merged := x.merged.Add(s.cnts[n].cur), cnts := x.cnts - {n});
      var s1 := s.(ctxs := s.ctxs[c := y], cnts := s.cnts - {n}, caches := s.caches[t := s.caches[t] - {victim}]);
      if y.cnts == {} && y.merged.objs == 0 && y.nlimbo == 0 then Goto(Limbo(s1, c, 1), t, Destroying(c, next))
      else At(s1, t, next)
  }

  /** prof_lookup_global; oom tells that there is no memory for the context or its backtrace. */
  function GlobalStep(s: State, t: nat, id: nat, oom: bool): State
    requires t < |s.pcs| && s.pcs[t].On? && s.pcs[t].place.Lookup?
  {
    var bt, why := s.pcs[t].place.bt, s.pcs[t].place.why;
    if bt in s.bt2ctx then
      var c := s.bt2ctx[bt];
      if c !in s.ctxs then Bad(s) else At(Limbo(s, c, 1), t, Got(c, false, why))
    else if oom then At(s, t, Failed(why))
    else if id in s.ctxs then s
    else At(s.(ctxs := s.ctxs[id := Ctx(bt, 1, NONE, {}, 0)], bt2ctx := s.bt2ctx[bt := id]), t, Got(id, true, why))
  }

  /** prof_lookup_global when ckh_insert fails: the new context and its backtrace are freed, whatever the table says. */
  function GlobalFailStep(s: State, t: nat, id: nat, lost: nat): State
    requires t < |s.pcs| && s.pcs[t].On? && s.pcs[t].place.Lookup?
  {
    var bt, why := s.pcs[t].place.bt, s.pcs[t].place.why;
    if id in s.ctxs || !CanFail(s.bt2ctx, bt, lost) then s
    else At(s.(bt2ctx := FailedInsert(s.bt2ctx, bt, id, lost)), t, Failed(why))
  }

  /** Out of memory after prof_lookup_global: only a new context is destroyed; on another the limbo count stays. */
  function FailStep(s: State, t: nat, c: nat, isNew: bool, why: Why): State
    requires t < |s.pcs|
  {
    if isNew then Goto(s, t, Destroying(c, Failed(why)))
    else if c !in s.ctxs then Bad(s)
    else At(s.(ctxs := s.ctxs[c := s.ctxs[c].(leaked := s.ctxs[c].leaked + 1)]), t, Failed(why))
  }

  /** ckh_insert fails for the cache of the thread: the new counter n is freed, whatever the cache says. */
  function InsertFailStep(s: State, t: nat, n: nat, lost: nat): State
    requires t < |s.pcs| == |s.caches| && s.pcs[t].On? && s.pcs[t].place.GotCnt?
  {
    var c := s.pcs[t].place.ctx;
    if c !in s.ctxs then Bad(s)
    else
      var bt := s.ctxs[c].bt;
      if n in s.cnts || !CanFail(s.caches[t], bt, lost) then s
      else
        var s1 := s.(caches := s.caches[t := FailedInsert(s.caches[t], bt, n, lost)]);
        FailStep(s1, t, c, s.pcs[t].place.isNew, s.pcs[t].place.why)
  }

  /** Link a counter into the context. */
  function LinkStep(s: State, t: nat, n: nat): State
    requires t < |s.pcs| == |s.caches| && s.pcs[t].On? && s.pcs[t].place.GotCnt?
  {
    var c, why := s.pcs[t].place.ctx, s.pcs[t].place.why;
    if n in s.cnts then s
    else if c !in s.ctxs then Bad(s)
    else
      var x := s.ctxs[c];
      At(s.(ctxs := s.ctxs[c := x.(cnts := x.cnts + {n}, nlimbo := x.nlimbo - 1)], cnts := s.cnts[n := Cnt(c, NONE)],
            caches := s.caches[t := s.caches[t][x.bt := n]]), t, Ready(n, why))
  }

  /** prof_malloc with a counter */
  function MallocStep(s: State, t: nat, o: nat, size: nat): State
    requires t < |s.pcs| && s.pcs[t].On? && s.pcs[t].place.Ready?
  {
    var n := s.pcs[t].place.cnt;
    if o in s.objs then s
    else if n !in s.cnts then Bad(s)
    else At(s.(objs := s.objs[o := Obj(s.cnts[n].ctx, size)],
        cnts := s.cnts[n := s.cnts[n].(cur := s.cnts[n].cur.Add(Counts(1, size)))]), t, Idle)
  }

  /** The rest of prof_free, once prof_lookup returned a counter or nothing. */
  function FreeStep(s: State, t: nat): State
    requires t < |s.pcs| && s.pcs[t].On? && (s.pcs[t].place.Ready? || s.pcs[t].place.Failed?)
    requires s.pcs[t].place.why.ForFree?
  {
    var pc, o := s.pcs[t].place, s.pcs[t].place.why.obj;
    if o !in s.objs then Bad(s)
    else
      var one := Counts(1, s.objs[o].size);
      if pc.Ready? then
        if pc.cnt !in s.cnts then Bad(s)
        else At(s.(objs := s.objs - {o},
            cnts := s.cnts[pc.cnt := s.cnts[pc.cnt].(cur := s.cnts[pc.cnt].cur.Sub(one))]), t, Idle)
      else
        var c := s.objs[o].ctx;
        if c !in s.ctxs then Bad(s)
        else At(s.(objs := s.objs - {o}, ctxs := s.ctxs[c := s.ctxs[c].(merged := s.ctxs[c].merged.Sub(one))]), t, Idle)
  }

  function FreesAt(place: Place): set<nat> {
    if place.Idle? || place.why.ForAlloc? then {} else {place.why.obj}
  }

  /** The object that a thread is freeing. */
  function Frees(pc: Pc): set<nat> {
    if pc.On? then FreesAt(pc.place) else FreesAt(pc.next)
  }

  /** One step of thread t.  An action that does not fit where the thread is leaves the state alone. */
  function Step(s: State, t: nat, a: Action): State {
    if !(t < |s.pcs| == |s.caches|) then s
    else match (s.pcs[t], a)
      case (_, DumpPrep(c)) =>
        if c !in s.bt2ctx.Values || c in s.dumping then s
        else if c !in s.ctxs then Bad(s)
        else Limbo(s, c, 1).(dumping := s.dumping + {c})
      case (_, DumpCleanup(c)) =>
        if c !in s.dumping then s
        else if c !in s.ctxs then Bad(s)
        else Limbo(s, c, -1).(dumping := s.dumping - {c})
      case (On(Idle), StartAlloc(bt)) => At(s, t, Lookup(bt, ForAlloc))
      case (On(Idle), StartFree(o)) =>
        if o !in s.objs || exists i :: 0 <= i < |s.pcs| && o in Frees(s.pcs[i]) then s
        else if s.objs[o].ctx !in s.ctxs then Bad(s)
        else At(s, t, Lookup(s.ctxs[s.objs[o].ctx].bt, ForFree(o)))
      case (On(Idle), ExitMerge(victim)) => if victim in s.caches[t] then MergeStep(s, t, victim, Idle) else s
      case (On(Lookup(_, why)), NoTdata) => At(s, t, Failed(why))
      case (On(Lookup(bt, why)), Hit) =>
        if bt !in s.caches[t] then s
        else if s.caches[t][bt] !in s.cnts then Bad(s)
        else At(s, t, Ready(s.caches[t][bt], why))
      case (On(Lookup(bt, _)), Global(id, oom)) => if bt in s.caches[t] then s else GlobalStep(s, t, id, oom)
      case (On(Lookup(bt, _)), GlobalFail(id, lost)) =>
        if bt in s.caches[t] then s else GlobalFailStep(s, t, id, lost)
      case (On(Got(c, isNew, why)), Flush(victim)) =>
        if victim in s.caches[t] && |s.caches[t]| == PROF_TCMAX then MergeStep(s, t, victim, GotCnt(c, isNew, why))
            else s
      case (On(Got(c, isNew, why)), AllocCnt) =>
        if |s.caches[t]| < PROF_TCMAX then At(s, t, GotCnt(c, isNew, why)) else s
      case (On(Got(c, isNew, why)), AllocFail) =>
        if |s.caches[t]| < PROF_TCMAX then FailStep(s, t, c, isNew, why) else s
      case (On(GotCnt(_, _, _)), InsertFail(n, lost)) => InsertFailStep(s, t, n, lost)
      case (On(GotCnt(_, _, _)), Link(n)) => LinkStep(s, t, n)
      case (Destroying(_, _), DestroyCtx) => DestroyStep(s, t)
      case (On(Ready(_, ForAlloc)), Malloc(o, size)) => MallocStep(s, t, o, size)
      case (On(Ready(_, ForAlloc)), Drop) => At(s, t, Idle)
      case (On(Failed(ForAlloc)), Drop) => At(s, t, Idle)
      case (On(Ready(_, ForFree(_))), Free) => FreeStep(s, t)
      case (On(Failed(ForFree(_))), Free) => FreeStep(s, t)
      case _ => s
  }

  type Trace = seq<(nat, Action)>

  function Run(s: State, trace: Trace): State {
    if trace == [] then s
    else Step(Run(s, trace[..|trace| - 1]), trace[|trace| - 1].0, trace[|trace| - 1].1)
  }

  /** n threads, nothing profiled yet. */
  function Start(n: nat): State {
    State(map[], map[], map[], map[], seq(n, _ => On(Idle)), seq(n, _ => map[]), {}, false)
  }

  // ----- What every step keeps

  ghost function Sum(m: map<nat, Counts>): Counts {
    if m == map[] then NONE
    else
      var k :| k in m;
      m[k].Add(Sum(m - {k}))
  }

  lemma {:induction false} SumRemove(m: map<nat, Counts>, k: nat)
    requires k in m
    ensures Sum(m) == m[k].Add(Sum(m - {k}))
  {
    var k0: nat :| k0 in m && Sum(m) == m[k0].Add(Sum(m - {k0}));
    if k0 != k {
      SumRemove(m - {k0}, k);
      SumRemove(m - {k}, k0);
      assert m - {k0} - {k} == m - {k} - {k0};
      var rest := Sum(m - {k} - {k0});
      assert (m - {k0})[k] == m[k] && (m - {k})[k0] == m[k0];
      assert Sum(m - {k0}) == m[k].Add(rest) && Sum(m - {k}) == m[k0].Add(rest);
      assert m[k0].Add(m[k].Add(rest)) == m[k].Add(m[k0].Add(rest));
    }
  }

  lemma SumUpdate(m: map<nat, Counts>, k: nat, v: Counts)
    ensures Sum(m[k := v]) == (if k in m then Sum(m).Sub(m[k]) else Sum(m)).Add(v)
  {
    SumRemove(m[k := v], k);
    assert m[k := v] - {k} == m - {k};
    if k in m {
      SumRemove(m, k);
    } else {
      assert m - {k} == m;
    }
  }

  /** The sampled objects that refer to context c, each counted once with its size. */
  ghost function Sampled(objs: map<nat, Obj>, c: nat): map<nat, Counts> {
    map o | o in objs && objs[o].ctx == c :: Counts(1, objs[o].size)
  }

  ghost function Linked(cnts: map<nat, Cnt>, c: nat): map<nat, Counts> {
    map n | n in cnts && cnts[n].ctx == c :: cnts[n].cur
  }

  ghost function CountSampled(objs: map<nat, Obj>, c: nat): Counts {
    Sum(Sampled(objs, c))
  }

  ghost function CountLinked(cnts: map<nat, Cnt>, c: nat): Counts {
    Sum(Linked(cnts, c))
  }

  ghost predicate Balanced(all: Counts, merged: Counts, linked: Counts) {
    all.objs == merged.objs + linked.objs && all.bytes == merged.bytes + linked.bytes
  }

  ghost function HoldsAt(place: Place, c: nat): nat {
    if (place.Got? || place.GotCnt?) && place.ctx == c then 1 else 0
  }

  /** How many limbo counts of c a thread answers for. */
  ghost function Holds(pc: Pc, c: nat): nat {
    if pc.On? then HoldsAt(pc.place, c) else (if pc.ctx == c then 1 else 0) + HoldsAt(pc.next, c)
  }

  ghost function Holders(pcs: seq<Pc>, c: nat): nat {
    if pcs == [] then 0 else Holds(pcs[0], c) + Holders(pcs[1..], c)
  }

  lemma {:induction false} HoldersUpdate(pcs: seq<Pc>, t: nat, pc: Pc, c: nat)
    requires t < |pcs|
    ensures Holders(pcs[t := pc], c) == Holders(pcs, c) - Holds(pcs[t], c) + Holds(pc, c)
  {
    if t > 0 {
      HoldersUpdate(pcs[1..], t - 1, pc, c);
      assert pcs[t := pc][1..] == pcs[1..][t - 1 := pc];
    } else {
      assert pcs[t := pc][1..] == pcs[1..];
    }
  }

  lemma {:induction false} HoldersAtLeast(pcs: seq<Pc>, t: nat, c: nat)
    requires t < |pcs|
    ensures Holds(pcs[t], c) <= Holders(pcs, c)
  {
    if t > 0 {
      HoldersAtLeast(pcs[1..], t - 1, c);
    }
  }

  /** bt2ctx holds exactly the live contexts, each under its own backtrace. */
  ghost predicate Mapped(s: State) {
    && (forall c :: c in s.ctxs ==> s.ctxs[c].bt in s.bt2ctx && s.bt2ctx[s.ctxs[c].bt] == c)
    && (forall bt :: bt in s.bt2ctx ==> s.bt2ctx[bt] in s.ctxs && s.ctxs[s.bt2ctx[bt]].bt == bt)
  }

  /** Counters and contexts point to each other. */
  ghost predicate CntsLinked(s: State) {
    && (forall n :: n in s.cnts ==> s.cnts[n].ctx in s.ctxs && n in s.ctxs[s.cnts[n].ctx].cnts)
    && (forall c, n :: c in s.ctxs && n in s.ctxs[c].cnts ==> n in s.cnts && s.cnts[n].ctx == c)
  }

  /** Threads cache linked counters of their own under the backtrace of the context. */
  ghost predicate Cached(s: State) {
    && |s.caches| == |s.pcs|
    && (forall t, bt :: 0 <= t < |s.caches| && bt in s.caches[t] ==>
          s.caches[t][bt] in s.cnts && s.cnts[s.caches[t][bt]].ctx in s.ctxs
              && s.ctxs[s.cnts[s.caches[t][bt]].ctx].bt == bt)
    && (forall t :: 0 <= t < |s.caches| ==> |s.caches[t]| <= PROF_TCMAX)
    && (forall t, u, x, y ::
      0 <= t < |s.caches| && 0 <= u < |s.caches| && t != u && x in s.caches[t] && y in s.caches[u] ==>
        s.caches[t][x] != s.caches[u][y])
  }

  /** Live sampled objects are accounted for, in the merged counters and the linked ones. */
  ghost predicate Counted(s: State) {
    && (forall o :: o in s.objs ==> s.objs[o].ctx in s.ctxs)
    && (forall c :: c in s.ctxs ==> Balanced(CountSampled(s.objs, c), s.ctxs[c].merged, CountLinked(s.cnts, c)))
  }

  /** nlimbo counts the threads in limbo, the dump, and what failed lookups left behind. */
  ghost predicate LimboExact(s: State) {
    && s.dumping <= s.ctxs.Keys
    && (forall c :: c in s.ctxs ==>
          s.ctxs[c].nlimbo == Holders(s.pcs, c) + (if c in s.dumping then 1 else 0) + s.ctxs[c].leaked)
  }

  ghost predicate FreesOf(s: State, why: Why, c: nat) {
    why.ForFree? ==> why.obj in s.objs && s.objs[why.obj].ctx == c
  }

  ghost predicate PlaceOk(s: State, cache: map<nat, nat>, place: Place) {
    match place
    case Idle => true
    case Lookup(bt, why) =>
      why.ForFree? ==> why.obj in s.objs && s.objs[why.obj].ctx in s.ctxs && s.ctxs[s.objs[why.obj].ctx].bt == bt
    case Got(c, _, why) => c in s.ctxs && s.ctxs[c].bt !in cache && FreesOf(s, why, c)
    case GotCnt(c, _, why) => c in s.ctxs && s.ctxs[c].bt !in cache && FreesOf(s, why, c) && |cache| < PROF_TCMAX
    case Ready(n, why) => n in s.cnts && n in cache.Values && FreesOf(s, why, s.cnts[n].ctx)
    case Failed(why) => why.ForFree? ==> why.obj in s.objs
  }

  /** What a thread relies on. */
  ghost predicate PcOk(s: State, cache: map<nat, nat>, pc: Pc) {
    if pc.On? then PlaceOk(s, cache, pc.place) else pc.ctx in s.ctxs && PlaceOk(s, cache, pc.next)
  }

  ghost predicate PcsOk(s: State) {
    && |s.caches| == |s.pcs|
    && (forall t :: 0 <= t < |s.pcs| ==> PcOk(s, s.caches[t], s.pcs[t]))
    && (forall t, u :: 0 <= t < |s.pcs| && 0 <= u < |s.pcs| && t != u ==> Frees(s.pcs[t]) !! Frees(s.pcs[u]))
  }

  ghost predicate Inv(s: State) {
    !s.bad && Mapped(s) && CntsLinked(s) && Cached(s) && Counted(s) && LimboExact(s) && PcsOk(s)
  }

  // ----- Steps that change only where a thread is, and limbo counts

  /** Apart from limbo counts, only the place of thread t differs. */
  ghost predicate OnlyLimbo(s: State, s': State, t: nat) {
    && t < |s.pcs| && |s'.pcs| == |s.pcs| && (forall u :: 0 <= u < |s.pcs| && u != t ==> s'.pcs[u] == s.pcs[u])
    && s'.bt2ctx == s.bt2ctx && s'.cnts == s.cnts && s'.objs == s.objs && s'.caches == s.caches && s'.bad == s.bad
    && s'.ctxs.Keys == s.ctxs.Keys
    && (forall c :: c in s.ctxs ==> s'.ctxs[c] == s.ctxs[c].(nlimbo := s'.ctxs[c].nlimbo, leaked := s'.ctxs[c].leaked))
  }

  lemma PcSame(s: State, s': State, cache: map<nat, nat>, pc: Pc)
    requires s'.cnts == s.cnts && s'.objs == s.objs && s'.ctxs.Keys == s.ctxs.Keys
    requires forall c :: c in s.ctxs ==> s'.ctxs[c].bt == s.ctxs[c].bt
    ensures PcOk(s, cache, pc) ==> PcOk(s', cache, pc)
  {
  }

  lemma OnlyLimboStructure(s: State, s': State, t: nat)
    requires Mapped(s) && CntsLinked(s) && Cached(s) && Counted(s) && OnlyLimbo(s, s', t)
    ensures Mapped(s') && CntsLinked(s') && Cached(s') && Counted(s')
  {
    hide CountSampled, CountLinked;
    assert s'.ctxs.Keys == s.ctxs.Keys;
    assert Mapped(s');
    assert CntsLinked(s');
    assert Cached(s');
    forall c | c in s'.ctxs
      ensures Balanced(CountSampled(s'.objs, c), s'.ctxs[c].merged, CountLinked(s'.cnts, c))
    {
      assert c in s.ctxs;
    }
  }

  lemma OnlyLimboExact(s: State, s': State, t: nat)
    requires LimboExact(s) && OnlyLimbo(s, s', t) && s'.dumping <= s.ctxs.Keys
    requires forall c ::
      c in s.ctxs ==>
          s'.ctxs[c].nlimbo - (if c in s'.dumping then 1 else 0) - s'.ctxs[c].leaked - Holds(s'.pcs[t], c)
          == s.ctxs[c].nlimbo - (if c in s.dumping then 1 else 0) - s.ctxs[c].leaked - Holds(s.pcs[t], c)
    ensures LimboExact(s')
  {
    assert s'.pcs == s.pcs[t := s'.pcs[t]];
    forall c | c in s'.ctxs
      ensures s'.ctxs[c].nlimbo == Holders(s'.pcs, c) + (if c in s'.dumping then 1 else 0) + s'.ctxs[c].leaked
    {
      HoldersUpdate(s.pcs, t, s'.pcs[t], c);
    }
  }

  lemma OnlyLimboInv(s: State, s': State, t: nat)
    requires Inv(s) && OnlyLimbo(s, s', t) && PcOk(s, s.caches[t], s'.pcs[t]) && s'.dumping <= s.ctxs.Keys
    requires forall u :: 0 <= u < |s.pcs| && u != t ==> Frees(s'.pcs[t]) !! Frees(s.pcs[u])
    requires forall c ::
      c in s.ctxs ==>
          s'.ctxs[c].nlimbo - (if c in s'.dumping then 1 else 0) - s'.ctxs[c].leaked - Holds(s'.pcs[t], c)
          == s.ctxs[c].nlimbo - (if c in s.dumping then 1 else 0) - s.ctxs[c].leaked - Holds(s.pcs[t], c)
    ensures Inv(s')
  {
    OnlyLimboStructure(s, s', t);
    OnlyLimboExact(s, s', t);
    hide Mapped, CntsLinked, Counted, LimboExact, Holds, Frees;
    forall u | 0 <= u < |s'.pcs|
      ensures PcOk(s', s'.caches[u], s'.pcs[u])
    {
      PcSame(s, s', s.caches[u], s'.pcs[u]);
    }
    assert |s'.caches| == |s'.pcs|;
  }

  // ----- Frames

  /** What a thread relies on survives a step that keeps what it refers to. */
  lemma PcKeep(s: State, s': State, cache: map<nat, nat>, pc: Pc)
    requires PcOk(s, cache, pc)
    requires forall c :: c in s.ctxs && Holds(pc, c) > 0 ==> c in s'.ctxs && s'.ctxs[c].bt == s.ctxs[c].bt
    requires forall o :: o in Frees(pc) && o in s.objs ==> o in s'.objs && s'.objs[o].ctx == s.objs[o].ctx
    requires forall o :: o in Frees(pc) && o in s.objs && s.objs[o].ctx in s.ctxs ==>
               s.objs[o].ctx in s'.ctxs && s'.ctxs[s.objs[o].ctx].bt == s.ctxs[s.objs[o].ctx].bt
    requires forall n :: n in cache.Values && n in s.cnts ==> n in s'.cnts && s'.cnts[n].ctx == s.cnts[n].ctx
    ensures PcOk(s', cache, pc)
  {
    if pc.On? {
      PlaceKeep(s, s', cache, pc.place);
    } else {
      assert Holds(pc, pc.ctx) > 0 && forall c :: HoldsAt(pc.next, c) > 0 ==> Holds(pc, c) > 0;
      PlaceKeep(s, s', cache, pc.next);
    }
  }

  lemma PlaceKeep(s: State, s': State, cache: map<nat, nat>, place: Place)
    requires PlaceOk(s, cache, place)
    requires forall c :: c in s.ctxs && HoldsAt(place, c) > 0 ==> c in s'.ctxs && s'.ctxs[c].bt == s.ctxs[c].bt
    requires forall o :: o in FreesAt(place) && o in s.objs ==> o in s'.objs && s'.objs[o].ctx == s.objs[o].ctx
    requires forall o :: o in FreesAt(place) && o in s.objs && s.objs[o].ctx in s.ctxs ==>
               s.objs[o].ctx in s'.ctxs && s'.ctxs[s.objs[o].ctx].bt == s.ctxs[s.objs[o].ctx].bt
    requires forall n :: n in cache.Values && n in s.cnts ==> n in s'.cnts && s'.cnts[n].ctx == s.cnts[n].ctx
    ensures PlaceOk(s', cache, place)
  {
    if !place.Idle? {
      assert place.why.ForFree? ==> place.why.obj in FreesAt(place);
    }
    if place.Got? || place.GotCnt? {
      assert HoldsAt(place, place.ctx) > 0;
    }
  }

  lemma HeldLive(s: State, cache: map<nat, nat>, pc: Pc, c: nat)
    requires PcOk(s, cache, pc)
    ensures Holds(pc, c) > 0 ==> c in s.ctxs
  {
  }

  lemma {:induction false} HoldersZero(pcs: seq<Pc>, c: nat)
    requires forall t :: 0 <= t < |pcs| ==> Holds(pcs[t], c) == 0
    ensures Holders(pcs, c) == 0
  {
    if pcs != [] {
      assert forall t :: 0 <= t < |pcs| - 1 ==> Holds(pcs[1..][t], c) == Holds(pcs[t + 1], c);
      HoldersZero(pcs[1..], c);
    }
  }

  lemma {:induction false} HoldersTwo(pcs: seq<Pc>, t: nat, u: nat, c: nat)
    requires t < |pcs| && u < |pcs| && t != u
    ensures Holds(pcs[t], c) + Holds(pcs[u], c) <= Holders(pcs, c)
  {
    if t == 0 {
      HoldersAtLeast(pcs[1..], u - 1, c);
    } else if u == 0 {
      HoldersAtLeast(pcs[1..], t - 1, c);
    } else {
      HoldersTwo(pcs[1..], t - 1, u - 1, c);
    }
  }

  /** Objects each count one, so a sum of zero has no objects. */
  lemma {:induction false} SumObjs(m: map<nat, Counts>)
    requires forall k :: k in m ==> m[k].objs == 1
    ensures 0 <= Sum(m).objs && (Sum(m).objs == 0 ==> m == map[] && Sum(m) == NONE)
  {
    if m != map[] {
      var k: nat :| k in m && Sum(m) == m[k].Add(Sum(m - {k}));
      SumObjs(m - {k});
      assert m[k].objs == 1;
      var rest := Sum(m - {k});
      assert m[k].Add(rest) == Counts(m[k].objs + rest.objs, m[k].bytes + rest.bytes);
      assert Sum(m).objs == 1 + rest.objs;
      assert rest.objs >= 0;
    }
  }

  // ----- A new context

  lemma NothingRefers(objs: map<nat, Obj>, cnts: map<nat, Cnt>, c: nat)
    requires (forall o :: o in objs ==> objs[o].ctx != c) && forall n :: n in cnts ==> cnts[n].ctx != c
    ensures CountSampled(objs, c) == NONE && CountLinked(cnts, c) == NONE
  {
    assert Sampled(objs, c) == map[] && Linked(cnts, c) == map[];
  }

  lemma NewCtxCounted(s: State, s': State, id: nat, x: Ctx)
    requires Counted(s) && CntsLinked(s) && id !in s.ctxs && s'.objs == s.objs && s'.cnts == s.cnts
    requires x.merged == NONE && s'.ctxs == s.ctxs[id := x]
    ensures Counted(s')
  {
    hide CountSampled, CountLinked;
    NothingRefers(s.objs, s.cnts, id);
  }

  lemma NewCtxStructure(s: State, s': State, id: nat, x: Ctx)
    requires Mapped(s) && CntsLinked(s) && Cached(s) && id !in s.ctxs && x.bt !in s.bt2ctx && x.cnts == {}
    requires s'.ctxs == s.ctxs[id := x] && s'.bt2ctx == s.bt2ctx[x.bt := id]
    requires s'.cnts == s.cnts && s'.caches == s.caches && |s'.pcs| == |s.pcs|
    ensures Mapped(s') && CntsLinked(s') && Cached(s')
  {
    MappedNew(s, s', id, x);
    hide Mapped;
    CachedKept(s, s');
    hide Cached;
  }

  lemma MappedNew(s: State, s': State, id: nat, x: Ctx)
    requires Mapped(s) && id !in s.ctxs && x.bt !in s.bt2ctx
    requires s'.ctxs == s.ctxs[id := x] && s'.bt2ctx == s.bt2ctx[x.bt := id]
    ensures Mapped(s')
  {
  }

  /** Caches stay good while their counters stay linked to contexts with the same backtrace. */
  lemma CachedKept(s: State, s': State)
    requires Cached(s) && s'.caches == s.caches && |s'.pcs| == |s.pcs|
    requires forall n :: n in s.cnts && s.cnts[n].ctx in s.ctxs ==>
      n in s'.cnts && s'.cnts[n].ctx == s.cnts[n].ctx && s.cnts[n].ctx in s'.ctxs
          && s'.ctxs[s.cnts[n].ctx].bt == s.ctxs[s.cnts[n].ctx].bt
    ensures Cached(s')
  {
  }

  lemma NewCtxLimbo(s: State, s': State, t: nat, id: nat, x: Ctx)
    requires LimboExact(s) && PcsOk(s) && t < |s.pcs| && id !in s.ctxs
    requires s.pcs[t].On? && s.pcs[t].place.Lookup? && s'.dumping == s.dumping
    requires s'.pcs == s.pcs[t := On(Got(id, true, s.pcs[t].place.why))]
    requires x.nlimbo == 1 && x.leaked == 0 && s'.ctxs == s.ctxs[id := x]
    ensures LimboExact(s')
  {
    NobodyHolds(s, id);
    forall c | c in s'.ctxs
      ensures s'.ctxs[c].nlimbo == Holders(s'.pcs, c) + (if c in s'.dumping then 1 else 0) + s'.ctxs[c].leaked
    {
      HoldersUpdate(s.pcs, t, s'.pcs[t], c);
    }
  }

  lemma NobodyHolds(s: State, id: nat)
    requires PcsOk(s) && id !in s.ctxs
    ensures Holders(s.pcs, id) == 0
  {
    forall u | 0 <= u < |s.pcs|
      ensures Holds(s.pcs[u], id) == 0
    {
      HeldLive(s, s.caches[u], s.pcs[u], id);
    }
    HoldersZero(s.pcs, id);
  }

  /** The places of the other threads stay good when a step adds to the maps and moves thread t. */
  lemma OthersOk(s: State, s': State, t: nat)
    requires PcsOk(s) && t < |s.pcs| && |s'.caches| == |s'.pcs| == |s.pcs|
    requires forall u :: 0 <= u < |s.pcs| && u != t ==> s'.pcs[u] == s.pcs[u] && s'.caches[u] == s.caches[u]
    requires PcOk(s', s'.caches[t], s'.pcs[t]) && Frees(s'.pcs[t]) <= Frees(s.pcs[t])
    requires forall u, c :: 0 <= u < |s.pcs| && u != t && c in s.ctxs && Holds(s.pcs[u], c) > 0 ==> c in s'.ctxs
    requires forall c :: c in s.ctxs && c in s'.ctxs ==> s'.ctxs[c].bt == s.ctxs[c].bt
    requires forall o :: o in s.objs && o !in Frees(s.pcs[t]) ==> o in s'.objs && s'.objs[o].ctx == s.objs[o].ctx
    requires forall o :: o in s.objs && o !in Frees(s.pcs[t]) && s.objs[o].ctx in s.ctxs ==> s.objs[o].ctx in s'.ctxs
    requires forall u, n ::
      0 <= u < |s.pcs| && u != t && n in s.caches[u].Values && n in s.cnts ==>
        n in s'.cnts && s'.cnts[n].ctx == s.cnts[n].ctx
    ensures PcsOk(s')
  {
    forall u | 0 <= u < |s.pcs| && u != t
      ensures PcOk(s', s'.caches[u], s'.pcs[u])
    {
      assert Frees(s.pcs[t]) !! Frees(s.pcs[u]);
      PcKeep(s, s', s.caches[u], s.pcs[u]);
    }
    hide PcOk;
    forall x, y | 0 <= x < |s.pcs| && 0 <= y < |s.pcs| && x != y
      ensures Frees(s'.pcs[x]) !! Frees(s'.pcs[y])
    {
      assert Frees(s.pcs[x]) !! Frees(s.pcs[y]);
    }
  }

  lemma NewCtx(s: State, t: nat, id: nat)
    requires Inv(s) && t < |s.pcs| && s.pcs[t].On? && s.pcs[t].place.Lookup? && s.pcs[t].place.bt !in s.caches[t]
    requires s.pcs[t].place.bt !in s.bt2ctx && id !in s.ctxs
    ensures Inv(GlobalStep(s, t, id, false))
  {
    var x := Ctx(s.pcs[t].place.bt, 1, NONE, {}, 0);
    var s' := GlobalStep(s, t, id, false);
    NewIsAlloc(s, t);
    hide Mapped, CntsLinked, Cached, Counted, LimboExact, Holds, Frees, PcsOk, PcOk, PlaceOk;
    NewCtxStructure(s, s', id, x);
    NewCtxCounted(s, s', id, x);
    NewCtxLimbo(s, s', t, id, x);
    NewCtxPcs(s, s', t, id, x);
  }

  lemma NewCtxPcs(s: State, s': State, t: nat, id: nat, x: Ctx)
    requires PcsOk(s) && t < |s.pcs| && s.pcs[t].On? && s.pcs[t].place.Lookup? && s.pcs[t].place.why.ForAlloc?
    requires id !in s.ctxs && x.bt !in s.caches[t] && s'.ctxs == s.ctxs[id := x]
    requires s'.objs == s.objs && s'.cnts == s.cnts && s'.caches == s.caches
    requires s'.pcs == s.pcs[t := On(Got(id, true, ForAlloc))]
    ensures PcsOk(s')
  {
    FreesNothing(s'.pcs[t]);
    OthersOk(s, s', t);
  }

  lemma FreesNothing(pc: Pc)
    requires pc.On? && (pc.place.Idle? || pc.place.why.ForAlloc?)
    ensures Frees(pc) == {}
  {
  }

  /** Freeing never makes a context: the object's own context is in bt2ctx. */
  lemma NewIsAlloc(s: State, t: nat)
    requires Inv(s) && t < |s.pcs| && s.pcs[t].On? && s.pcs[t].place.Lookup? && s.pcs[t].place.bt !in s.bt2ctx
    ensures s.pcs[t].place.why.ForAlloc?
  {
    assert PcOk(s, s.caches[t], s.pcs[t]);
  }

  // ----- Linking a counter

  lemma MappedKept(s: State, s': State)
    requires Mapped(s) && s'.bt2ctx == s.bt2ctx && s'.ctxs.Keys == s.ctxs.Keys
    requires forall c :: c in s.ctxs ==> s'.ctxs[c].bt == s.ctxs[c].bt
    ensures Mapped(s')
  {
  }

  lemma LinkLinks(s: State, s': State, c: nat, n: nat)
    requires CntsLinked(s) && c in s.ctxs && n !in s.cnts && s'.cnts == s.cnts[n := Cnt(c, NONE)]
    requires s'.ctxs.Keys == s.ctxs.Keys && s'.ctxs[c].cnts == s.ctxs[c].cnts + {n}
    requires forall x :: x in s.ctxs && x != c ==> s'.ctxs[x].cnts == s.ctxs[x].cnts
    ensures CntsLinked(s')
  {
  }

  lemma LinkCached(s: State, s': State, t: nat, c: nat, n: nat)
    requires Cached(s) && t < |s.pcs| == |s'.pcs| && c in s.ctxs && n !in s.cnts && s'.cnts == s.cnts[n := Cnt(c, NONE)]
    requires s'.ctxs.Keys == s.ctxs.Keys && forall x :: x in s.ctxs ==> s'.ctxs[x].bt == s.ctxs[x].bt
    requires s.ctxs[c].bt !in s.caches[t] && |s.caches[t]| < PROF_TCMAX
    requires s'.caches == s.caches[t := s.caches[t][s.ctxs[c].bt := n]]
    ensures Cached(s')
  {
    CacheMore(s.caches[t], s.ctxs[c].bt, n);
  }

  lemma CacheMore(cache: map<nat, nat>, bt: nat, n: nat)
    requires bt !in cache
    ensures |cache[bt := n]| == |cache| + 1 && n in cache[bt := n].Values
  {
    assert cache[bt := n].Keys == cache.Keys + {bt} && cache[bt := n][bt] == n;
  }

  lemma LinkCounted(s: State, s': State, c: nat, n: nat)
    requires Counted(s) && n !in s.cnts && c in s.ctxs && s'.cnts == s.cnts[n := Cnt(c, NONE)] && s'.objs == s.objs
    requires s'.ctxs.Keys == s.ctxs.Keys && forall x :: x in s.ctxs ==> s'.ctxs[x].merged == s.ctxs[x].merged
    ensures Counted(s')
  {
    hide CountSampled, CountLinked;
    LinkedUpdate(s.cnts, n, Cnt(c, NONE));
  }

  /** A change to one counter concerns the sum of its own context alone. */
  lemma LinkedUpdate(cnts: map<nat, Cnt>, n: nat, x: Cnt)
    requires n in cnts ==> cnts[n].ctx == x.ctx
    ensures CountLinked(cnts[n := x], x.ctx)
        == (if n in cnts then CountLinked(cnts, x.ctx).Sub(cnts[n].cur) else CountLinked(cnts, x.ctx)).Add(x.cur)
    ensures forall c :: c != x.ctx ==> CountLinked(cnts[n := x], c) == CountLinked(cnts, c)
  {
    assert Linked(cnts[n := x], x.ctx) == Linked(cnts, x.ctx)[n := x.cur];
    SumUpdate(Linked(cnts, x.ctx), n, x.cur);
    forall c | c != x.ctx
      ensures CountLinked(cnts[n := x], c) == CountLinked(cnts, c)
    {
      assert Linked(cnts[n := x], c) == Linked(cnts, c);
    }
  }

  /** Limbo counts after thread t moved, with one context changed. */
  lemma LimboMoved(s: State, s': State, t: nat)
    requires LimboExact(s) && t < |s.pcs| == |s'.pcs| && s'.pcs == s.pcs[t := s'.pcs[t]]
    requires s'.dumping == s.dumping && s'.ctxs.Keys == s.ctxs.Keys
    requires forall c :: c in s.ctxs ==>
      s'.ctxs[c].nlimbo - s'.ctxs[c].leaked - Holds(s'.pcs[t], c)
          == s.ctxs[c].nlimbo - s.ctxs[c].leaked - Holds(s.pcs[t], c)
    ensures LimboExact(s')
  {
    forall c | c in s'.ctxs
      ensures s'.ctxs[c].nlimbo == Holders(s'.pcs, c) + (if c in s'.dumping then 1 else 0) + s'.ctxs[c].leaked
    {
      HoldersUpdate(s.pcs, t, s'.pcs[t], c);
    }
  }

  lemma LinkShape(s: State, t: nat, n: nat)
    requires t < |s.pcs| == |s.caches| && s.pcs[t].On? && s.pcs[t].place.GotCnt?
    requires n !in s.cnts && s.pcs[t].place.ctx in s.ctxs
    ensures var s', c := LinkStep(s, t, n), s.pcs[t].place.ctx;
      && s'.ctxs == s.ctxs[c := s.ctxs[c].(cnts := s.ctxs[c].cnts + {n}, nlimbo := s.ctxs[c].nlimbo - 1)]
      && s'.cnts == s.cnts[n := Cnt(c, NONE)] && s'.caches == s.caches[t := s.caches[t][s.ctxs[c].bt := n]]
      && s'.pcs == s.pcs[t := On(Ready(n, s.pcs[t].place.why))]
      && s'.bt2ctx == s.bt2ctx && s'.objs == s.objs && s'.dumping == s.dumping && s'.bad == s.bad
  {
  }

  lemma LinkInv(s: State, t: nat, n: nat)
    requires Inv(s) && t < |s.pcs| && s.pcs[t].On? && s.pcs[t].place.GotCnt? && n !in s.cnts
    ensures Inv(LinkStep(s, t, n))
  {
    var c := s.pcs[t].place.ctx;
    assert PcOk(s, s.caches[t], s.pcs[t]);
    LinkShape(s, t, n);
    hide Mapped, CntsLinked, Cached, Counted, LimboExact, PcsOk, LinkStep, PcOk, PlaceOk, Holds, Frees, Inv;
    var s' := LinkStep(s, t, n);
    LinkStructure(s, s', t, c, n);
    LinkPcs(s, s', t, n);
    Whole(s');
  }

  lemma LinkStructure(s: State, s': State, t: nat, c: nat, n: nat)
    requires Inv(s) && t < |s.pcs| == |s'.pcs| && c in s.ctxs && n !in s.cnts
    requires s.ctxs[c].bt !in s.caches[t] && |s.caches[t]| < PROF_TCMAX
    requires s'.ctxs == s.ctxs[c := s.ctxs[c].(cnts := s.ctxs[c].cnts + {n}, nlimbo := s.ctxs[c].nlimbo - 1)]
    requires s'.cnts == s.cnts[n := Cnt(c, NONE)] && s'.caches == s.caches[t := s.caches[t][s.ctxs[c].bt := n]]
    requires s'.bt2ctx == s.bt2ctx && s'.objs == s.objs
    ensures Mapped(s') && CntsLinked(s') && Cached(s') && Counted(s')
  {
    hide Mapped, CntsLinked, Cached, Counted, LimboExact, PcsOk;
    MappedKept(s, s');
    LinkLinks(s, s', c, n);
    LinkCached(s, s', t, c, n);
    LinkCounted(s, s', c, n);
  }

  lemma Whole(s: State)
    requires !s.bad && Mapped(s) && CntsLinked(s) && Cached(s) && Counted(s) && LimboExact(s) && PcsOk(s)
    ensures Inv(s)
  {
  }

  lemma LinkPcs(s: State, s': State, t: nat, n: nat)
    requires PcsOk(s) && LimboExact(s) && t < |s.pcs| && s.pcs[t].On?
    requires s.pcs[t].place.GotCnt? && n !in s.cnts && s.pcs[t].place.ctx in s.ctxs
    requires s' == LinkStep(s, t, n)
    ensures PcsOk(s') && LimboExact(s')
  {
    var c := s.pcs[t].place.ctx;
    assert PcOk(s, s.caches[t], s.pcs[t]);
    LinkShape(s, t, n);
    CacheMore(s.caches[t], s.ctxs[c].bt, n);
    hide LinkStep, LimboExact;
    LimboMoved(s, s', t);
    OthersOk(s, s', t);
  }

  // ----- Merging a counter

  ghost predicate Merges(s: State, t: nat, victim: nat, next: Place) {
    && t < |s.pcs| == |s.caches| && victim in s.caches[t] && s.pcs[t].On?
    && ((s.pcs[t].place.Idle? && next.Idle?)
        || (s.pcs[t].place.Got? && next == GotCnt(s.pcs[t].place.ctx, s.pcs[t].place.isNew, s.pcs[t].place.why)))
  }

  /** The context after a counter was merged into it, and before prof_ctx_destroy is considered. */
  function Merged(x: Ctx, n: nat, cur: Counts): Ctx {
    x.(merged := x.merged.Add(cur), cnts := x.cnts - {n})
  }

  predicate Unused(x: Ctx) {
    x.cnts == {} && x.merged.objs == 0 && x.nlimbo == 0
  }

  lemma MergeShape(s: State, t: nat, victim: nat, next: Place)
    requires Merges(s, t, victim, next) && s.caches[t][victim] in s.cnts && s.cnts[s.caches[t][victim]].ctx in s.ctxs
    ensures var s', n := MergeStep(s, t, victim, next), s.caches[t][victim];
      var c := s.cnts[n].ctx;
      var y := Merged(s.ctxs[c], n, s.cnts[n].cur);
      && s'.ctxs == s.ctxs[c := if Unused(y) then y.(nlimbo := y.nlimbo + 1) else y]
      && s'.cnts == s.cnts - {n} && s'.caches == s.caches[t := s.caches[t] - {victim}]
      && s'.pcs == s.pcs[t := if Unused(y) then Destroying(c, next) else On(next)]
      && s'.bt2ctx == s.bt2ctx && s'.objs == s.objs && s'.dumping == s.dumping && s'.bad == s.bad
  {
  }

  lemma UnlinkLinks(s: State, s': State, c: nat, n: nat)
    requires CntsLinked(s) && c in s.ctxs && n in s.cnts && s.cnts[n].ctx == c && s'.cnts == s.cnts - {n}
    requires s'.ctxs.Keys == s.ctxs.Keys && s'.ctxs[c].cnts == s.ctxs[c].cnts - {n}
    requires forall x :: x in s.ctxs && x != c ==> s'.ctxs[x].cnts == s.ctxs[x].cnts
    ensures CntsLinked(s')
  {
  }

  lemma UnlinkCached(s: State, s': State, t: nat, victim: nat)
    requires Cached(s) && t < |s.pcs| == |s'.pcs| && victim in s.caches[t]
    requires s'.caches == s.caches[t := s.caches[t] - {victim}] && s'.cnts == s.cnts - {s.caches[t][victim]}
    requires s'.ctxs.Keys == s.ctxs.Keys && forall x :: x in s.ctxs ==> s'.ctxs[x].bt == s.ctxs[x].bt
    ensures Cached(s') && |s'.caches[t]| < |s.caches[t]|
  {
    CacheLess(s.caches[t], victim);
    UnlinkCounters(s, s', t, victim);
    UnlinkApart(s, s', t, victim);
  }

  lemma UnlinkCounters(s: State, s': State, t: nat, victim: nat)
    requires Cached(s) && t < |s.pcs| && victim in s.caches[t]
    requires s'.caches == s.caches[t := s.caches[t] - {victim}] && s'.cnts == s.cnts - {s.caches[t][victim]}
    requires s'.ctxs.Keys == s.ctxs.Keys && forall x :: x in s.ctxs ==> s'.ctxs[x].bt == s.ctxs[x].bt
    ensures forall u, bt :: 0 <= u < |s'.caches| && bt in s'.caches[u] ==>
      s'.caches[u][bt] in s'.cnts && s'.cnts[s'.caches[u][bt]].ctx in s'.ctxs
      && s'.ctxs[s'.cnts[s'.caches[u][bt]].ctx].bt == bt
  {
    forall u, bt | 0 <= u < |s'.caches| && bt in s'.caches[u]
      ensures s'.caches[u][bt] in s'.cnts && s'.cnts[s'.caches[u][bt]].ctx in s'.ctxs
      ensures s'.ctxs[s'.cnts[s'.caches[u][bt]].ctx].bt == bt
    {
      OtherCounter(s, t, victim, u, bt);
    }
  }

  lemma UnlinkApart(s: State, s': State, t: nat, victim: nat)
    requires Cached(s) && t < |s.pcs|
    requires s'.caches == s.caches[t := s.caches[t] - {victim}]
    ensures forall u, v, x, y ::
      0 <= u < |s'.caches| && 0 <= v < |s'.caches| && u != v && x in s'.caches[u] && y in s'.caches[v] ==>
        s'.caches[u][x] != s'.caches[v][y]
  {
  }

  /** Another cache entry has another counter. */
  lemma OtherCounter(s: State, t: nat, victim: nat, u: nat, bt: nat)
    requires Cached(s) && t < |s.caches| && victim in s.caches[t] && u < |s.caches| && bt in s.caches[u]
    requires t != u || bt != victim
    ensures s.caches[u][bt] != s.caches[t][victim] && s.caches[u][bt] in s.cnts
    ensures s.cnts[s.caches[u][bt]].ctx in s.ctxs && s.ctxs[s.cnts[s.caches[u][bt]].ctx].bt == bt
  {
  }

  lemma CacheLess(cache: map<nat, nat>, bt: nat)
    requires bt in cache
    ensures |cache - {bt}| == |cache| - 1
  {
    assert (cache - {bt}).Keys == cache.Keys - {bt};
  }

  lemma LinkedRemove(cnts: map<nat, Cnt>, n: nat)
    requires n in cnts
    ensures CountLinked(cnts, cnts[n].ctx) == cnts[n].cur.Add(CountLinked(cnts - {n}, cnts[n].ctx))
    ensures forall c :: c != cnts[n].ctx ==> CountLinked(cnts - {n}, c) == CountLinked(cnts, c)
  {
    assert Linked(cnts - {n}, cnts[n].ctx) == Linked(cnts, cnts[n].ctx) - {n};
    SumRemove(Linked(cnts, cnts[n].ctx), n);
    forall c | c != cnts[n].ctx
      ensures CountLinked(cnts - {n}, c) == CountLinked(cnts, c)
    {
      assert Linked(cnts - {n}, c) == Linked(cnts, c);
    }
  }

  lemma MergeCounted(s: State, s': State, c: nat, n: nat)
    requires Counted(s) && n in s.cnts && s.cnts[n].ctx == c && c in s.ctxs
    requires s'.cnts == s.cnts - {n} && s'.objs == s.objs
    requires s'.ctxs.Keys == s.ctxs.Keys && s'.ctxs[c].merged == s.ctxs[c].merged.Add(s.cnts[n].cur)
    requires forall x :: x in s.ctxs && x != c ==> s'.ctxs[x].merged == s.ctxs[x].merged
    ensures Counted(s')
  {
    hide CountSampled, CountLinked;
    LinkedRemove(s.cnts, n);
  }

  lemma MergePcs(s: State, s': State, t: nat, victim: nat, next: Place)
    requires PcsOk(s) && Cached(s) && Merges(s, t, victim, next) && s'.cnts == s.cnts - {s.caches[t][victim]}
    requires s'.caches == s.caches[t := s.caches[t] - {victim}] && |s'.caches[t]| < |s.caches[t]| && s'.objs == s.objs
    requires s'.ctxs.Keys == s.ctxs.Keys && forall x :: x in s.ctxs ==> s'.ctxs[x].bt == s.ctxs[x].bt
    requires |s'.pcs| == |s.pcs| && s'.pcs == s.pcs[t := s'.pcs[t]]
    requires s'.pcs[t] == On(next) || (s'.pcs[t].Destroying? && s'.pcs[t].next == next && s'.pcs[t].ctx in s.ctxs)
    ensures PcsOk(s')
  {
    hide PlaceOk, Holds;
    var n := s.caches[t][victim];
    CacheBound(s, t);
    OthersApart(s, t, n);
    hide Cached;
    MergeMine(s, s', t, victim, next);
    hide PcOk, Frees, Merges;
    OthersOk(s, s', t);
  }

  lemma CacheBound(s: State, t: nat)
    requires Cached(s) && t < |s.caches|
    ensures |s.caches[t]| <= PROF_TCMAX
  {
  }

  lemma OthersApart(s: State, t: nat, n: nat)
    requires Cached(s) && t < |s.caches| && n in s.caches[t].Values
    ensures forall u :: 0 <= u < |s.caches| && u != t ==> n !in s.caches[u].Values
  {
    var x :| x in s.caches[t] && s.caches[t][x] == n;
  }

  lemma MergeMine(s: State, s': State, t: nat, victim: nat, next: Place)
    requires Merges(s, t, victim, next) && PcOk(s, s.caches[t], s.pcs[t]) && |s.caches[t]| <= PROF_TCMAX
    requires |s'.pcs| == |s'.caches| == |s.pcs| && s'.caches[t] == s.caches[t] - {victim}
    requires |s'.caches[t]| < |s.caches[t]| && s'.objs == s.objs
    requires s'.ctxs.Keys == s.ctxs.Keys && forall x :: x in s.ctxs ==> s'.ctxs[x].bt == s.ctxs[x].bt
    requires s'.pcs[t] == On(next) || (s'.pcs[t].Destroying? && s'.pcs[t].next == next && s'.pcs[t].ctx in s.ctxs)
    ensures PcOk(s', s'.caches[t], s'.pcs[t]) && Frees(s'.pcs[t]) == Frees(s.pcs[t])
  {
  }

  lemma CachedCounter(s: State, t: nat, victim: nat)
    requires Cached(s) && t < |s.caches| && victim in s.caches[t]
    ensures var n := s.caches[t][victim]; n in s.cnts && s.cnts[n].ctx in s.ctxs
  {
  }

  lemma MergeInv(s: State, t: nat, victim: nat, next: Place)
    requires Inv(s) && Merges(s, t, victim, next)
    ensures Inv(MergeStep(s, t, victim, next))
  {
    hide Mapped, CntsLinked, Cached, Counted, LimboExact, PcsOk, MergeStep, PcOk, PlaceOk, Holds, Frees;
    CachedCounter(s, t, victim);
    MergeShape(s, t, victim, next);
    var n, s' := s.caches[t][victim], MergeStep(s, t, victim, next);
    var c := s.cnts[n].ctx;
    MappedKept(s, s');
    UnlinkLinks(s, s', c, n);
    UnlinkCached(s, s', t, victim);
    MergeCounted(s, s', c, n);
    MergePcs(s, s', t, victim, next);
    MergeLimbo(s, s', t, victim, next);
  }

  lemma MergeLimbo(s: State, s': State, t: nat, victim: nat, next: Place)
    requires LimboExact(s) && Merges(s, t, victim, next) && s.caches[t][victim] in s.cnts
    requires s.cnts[s.caches[t][victim]].ctx in s.ctxs
    requires s' == MergeStep(s, t, victim, next)
    ensures LimboExact(s')
  {
    hide LimboExact;
    MergeShape(s, t, victim, next);
    LimboMoved(s, s', t);
  }

  // ----- Destroying a context

  lemma NoCounters(s: State, c: nat)
    requires CntsLinked(s) && c in s.ctxs && s.ctxs[c].cnts == {}
    ensures CountLinked(s.cnts, c) == NONE && forall n :: n in s.cnts ==> s.cnts[n].ctx != c
  {
    assert Linked(s.cnts, c) == map[];
  }

  lemma NoObjects(objs: map<nat, Obj>, c: nat)
    requires CountSampled(objs, c).objs == 0
    ensures CountSampled(objs, c) == NONE && forall o :: o in objs ==> objs[o].ctx != c
  {
    SumObjs(Sampled(objs, c));
    forall o | o in objs
      ensures objs[o].ctx != c
    {
      assert o !in Sampled(objs, c);
    }
  }

  /** A context without counters and with merged counts of zero has no live objects... */
  lemma UnusedNoObjects(s: State, c: nat)
    requires Counted(s) && CntsLinked(s) && c in s.ctxs && s.ctxs[c].cnts == {} && s.ctxs[c].merged.objs == 0
    ensures forall o :: o in s.objs ==> s.objs[o].ctx != c
  {
    hide CntsLinked, CountLinked, CountSampled;
    assert Balanced(CountSampled(s.objs, c), s.ctxs[c].merged, CountLinked(s.cnts, c));
    NoCounters(s, c);
    NoObjects(s.objs, c);
  }

  /** ... and so no bytes in use either, as prof_ctx_destroy asserts. */
  lemma UnusedNoBytes(s: State, c: nat)
    requires Counted(s) && CntsLinked(s) && c in s.ctxs && s.ctxs[c].cnts == {} && s.ctxs[c].merged.objs == 0
    ensures s.ctxs[c].merged == NONE
  {
    hide CntsLinked, CountLinked, CountSampled;
    assert Balanced(CountSampled(s.objs, c), s.ctxs[c].merged, CountLinked(s.cnts, c));
    NoCounters(s, c);
    NoObjects(s.objs, c);
  }

  /** The only holder of a context is the thread that destroys it. */
  lemma OnlyHolder(s: State, t: nat, c: nat)
    requires LimboExact(s) && t < |s.pcs| && s.pcs[t].Destroying?
    requires s.pcs[t].ctx == c && c in s.ctxs && s.ctxs[c].nlimbo == 1
    ensures c !in s.dumping && s.ctxs[c].leaked == 0 && HoldsAt(s.pcs[t].next, c) == 0
    ensures forall u :: 0 <= u < |s.pcs| && u != t ==> Holds(s.pcs[u], c) == 0
  {
    HoldersAtLeast(s.pcs, t, c);
    forall u | 0 <= u < |s.pcs| && u != t
      ensures Holds(s.pcs[u], c) == 0
    {
      HoldersTwo(s.pcs, t, u, c);
    }
  }

  lemma DestroyStructure(s: State, s': State, c: nat)
    requires Mapped(s) && CntsLinked(s) && Cached(s) && Counted(s) && c in s.ctxs && s.ctxs[c].cnts == {}
    requires (forall o :: o in s.objs ==> s.objs[o].ctx != c) && forall n :: n in s.cnts ==> s.cnts[n].ctx != c
    requires s'.ctxs == s.ctxs - {c} && s'.bt2ctx == s.bt2ctx - {s.ctxs[c].bt} && s'.cnts == s.cnts && s'.objs == s.objs
    requires s'.caches == s.caches && |s'.pcs| == |s.pcs|
    ensures Mapped(s') && CntsLinked(s') && Cached(s') && Counted(s')
  {
    hide Mapped, CntsLinked, Cached, Counted;
    DestroyMapped(s, s', c);
    DestroyLinked(s, s', c);
    CachedKept(s, s');
    DestroyCounted(s, s', c);
  }

  lemma DestroyLinked(s: State, s': State, c: nat)
    requires CntsLinked(s) && c in s.ctxs && s'.ctxs == s.ctxs - {c}
    requires s'.cnts == s.cnts && forall n :: n in s.cnts ==> s.cnts[n].ctx != c
    ensures CntsLinked(s')
  {
  }

  lemma DestroyCounted(s: State, s': State, c: nat)
    requires Counted(s) && c in s.ctxs && s'.ctxs == s.ctxs - {c} && s'.cnts == s.cnts && s'.objs == s.objs
    requires forall o :: o in s.objs ==> s.objs[o].ctx != c
    ensures Counted(s')
  {
    hide CountSampled, CountLinked;
  }

  lemma DestroyMapped(s: State, s': State, c: nat)
    requires Mapped(s) && c in s.ctxs && s'.ctxs == s.ctxs - {c} && s'.bt2ctx == s.bt2ctx - {s.ctxs[c].bt}
    ensures Mapped(s')
  {
  }

  lemma DestroyPcs(s: State, s': State, t: nat, c: nat)
    requires PcsOk(s) && LimboExact(s) && t < |s.pcs| && s.pcs[t].Destroying?
    requires s.pcs[t].ctx == c && c in s.ctxs && s.ctxs[c].nlimbo == 1
    requires (forall o :: o in s.objs ==> s.objs[o].ctx != c) && forall n :: n in s.cnts ==> s.cnts[n].ctx != c
    requires s'.ctxs == s.ctxs - {c} && s'.cnts == s.cnts && s'.objs == s.objs
    requires s'.caches == s.caches && s'.dumping == s.dumping
    requires s'.pcs == s.pcs[t := On(s.pcs[t].next)]
    ensures PcsOk(s') && LimboExact(s')
  {
    OnlyHolder(s, t, c);
    DestroyLimbo(s, s', t, c);
    hide LimboExact;
    assert PcOk(s, s.caches[t], s.pcs[t]);
    PlaceKeep(s, s', s.caches[t], s.pcs[t].next);
    OthersOk(s, s', t);
  }

  lemma DestroyLimbo(s: State, s': State, t: nat, c: nat)
    requires LimboExact(s) && t < |s.pcs| && s.pcs[t].Destroying? && s.pcs[t].ctx == c && c !in s.dumping
    requires s'.ctxs == s.ctxs - {c} && s'.dumping == s.dumping && s'.pcs == s.pcs[t := On(s.pcs[t].next)]
    ensures LimboExact(s')
  {
    forall x | x in s'.ctxs
      ensures s'.ctxs[x].nlimbo == Holders(s'.pcs, x) + (if x in s'.dumping then 1 else 0) + s'.ctxs[x].leaked
    {
      HoldersUpdate(s.pcs, t, s'.pcs[t], x);
    }
  }

  lemma DestroyInv(s: State, t: nat)
    requires Inv(s) && t < |s.pcs| && s.pcs[t].Destroying?
    ensures Inv(DestroyStep(s, t))
  {
    var c := s.pcs[t].ctx;
    assert PcOk(s, s.caches[t], s.pcs[t]);
    hide Mapped, CntsLinked, Cached, Counted, LimboExact, PcsOk, PlaceOk;
    var x, s' := s.ctxs[c], DestroyStep(s, t);
    if x.cnts == {} && x.merged.objs == 0 && x.nlimbo == 1 {
      UnusedNoObjects(s, c);
      UnusedNoBytes(s, c);
      NoCounters(s, c);
      MappedOne(s, c);
      assert s' == s.(ctxs := s.ctxs - {c}, bt2ctx := s.bt2ctx - {x.bt}, pcs := s.pcs[t := On(s.pcs[t].next)]);
      DestroyReal(s, s', t, c);
    } else {
      assert s' == Limbo(s, c, -1).(pcs := s.pcs[t := On(s.pcs[t].next)]);
      DestroyNot(s, s', t, c);
    }
  }

  lemma MappedOne(s: State, c: nat)
    requires Mapped(s) && c in s.ctxs
    ensures s.ctxs[c].bt in s.bt2ctx
  {
  }

  lemma DestroyReal(s: State, s': State, t: nat, c: nat)
    requires Inv(s) && t < |s.pcs| && s.pcs[t].Destroying? && s.pcs[t].ctx == c
    requires c in s.ctxs && s.ctxs[c].nlimbo == 1 && s.ctxs[c].cnts == {}
    requires (forall o :: o in s.objs ==> s.objs[o].ctx != c) && forall n :: n in s.cnts ==> s.cnts[n].ctx != c
    requires s' == s.(ctxs := s.ctxs - {c}, bt2ctx := s.bt2ctx - {s.ctxs[c].bt}, pcs := s.pcs[t := On(s.pcs[t].next)])
    ensures Inv(s')
  {
    hide Mapped, CntsLinked, Cached, Counted, LimboExact, PcsOk;
    DestroyStructure(s, s', c);
    DestroyPcs(s, s', t, c);
  }

  lemma DestroyNot(s: State, s': State, t: nat, c: nat)
    requires Inv(s) && t < |s.pcs| && s.pcs[t].Destroying? && s.pcs[t].ctx == c && c in s.ctxs
    requires s' == Limbo(s, c, -1).(pcs := s.pcs[t := On(s.pcs[t].next)])
    ensures Inv(s')
  {
    MineOk(s, t);
    MineApart(s, t);
    DumpingLive(s);
    SameLengths(s);
    DestroyNotShape(s, s', t, c);
    hide *;
    OnlyLimboInv(s, s', t);
  }

  lemma DestroyNotShape(s: State, s': State, t: nat, c: nat)
    requires t < |s.pcs| == |s.caches| && s.pcs[t].Destroying? && s.pcs[t].ctx == c && c in s.ctxs
    requires PcOk(s, s.caches[t], s.pcs[t])
    requires s' == Limbo(s, c, -1).(pcs := s.pcs[t := On(s.pcs[t].next)])
    ensures OnlyLimbo(s, s', t) && PcOk(s, s.caches[t], s'.pcs[t]) && s'.dumping == s.dumping
    ensures Frees(s'.pcs[t]) == Frees(s.pcs[t])
    ensures forall x :: x in s.ctxs ==>
      s'.ctxs[x].nlimbo - (if x in s'.dumping then 1 else 0) - s'.ctxs[x].leaked - Holds(s'.pcs[t], x)
      == s.ctxs[x].nlimbo - (if x in s.dumping then 1 else 0) - s.ctxs[x].leaked - Holds(s.pcs[t], x)
  {
  }

  // ----- Counting objects

  lemma SampledAdd(objs: map<nat, Obj>, o: nat, x: Obj)
    requires o !in objs
    ensures CountSampled(objs[o := x], x.ctx) == CountSampled(objs, x.ctx).Add(Counts(1, x.size))
    ensures forall c :: c != x.ctx ==> CountSampled(objs[o := x], c) == CountSampled(objs, c)
  {
    assert Sampled(objs[o := x], x.ctx) == Sampled(objs, x.ctx)[o := Counts(1, x.size)];
    SumUpdate(Sampled(objs, x.ctx), o, Counts(1, x.size));
    forall c | c != x.ctx
      ensures CountSampled(objs[o := x], c) == CountSampled(objs, c)
    {
      assert Sampled(objs[o := x], c) == Sampled(objs, c);
    }
  }

  lemma SampledRemove(objs: map<nat, Obj>, o: nat)
    requires o in objs
    ensures CountSampled(objs, objs[o].ctx) == Counts(1, objs[o].size).Add(CountSampled(objs - {o}, objs[o].ctx))
    ensures forall c :: c != objs[o].ctx ==> CountSampled(objs - {o}, c) == CountSampled(objs, c)
  {
    assert Sampled(objs - {o}, objs[o].ctx) == Sampled(objs, objs[o].ctx) - {o};
    SumRemove(Sampled(objs, objs[o].ctx), o);
    forall c | c != objs[o].ctx
      ensures CountSampled(objs - {o}, c) == CountSampled(objs, c)
    {
      assert Sampled(objs - {o}, c) == Sampled(objs, c);
    }
  }

  /** The state apart from objects and counts is the same, and thread t is done. */
  ghost predicate OnlyCounts(s: State, s': State, t: nat) {
    && t < |s.pcs| && s'.pcs == s.pcs[t := On(Idle)] && s'.bt2ctx == s.bt2ctx && s'.caches == s.caches
        && s'.dumping == s.dumping && s'.bad == s.bad
    && s'.ctxs.Keys == s.ctxs.Keys && s'.cnts.Keys == s.cnts.Keys
    && (forall c :: c in s.ctxs ==> s'.ctxs[c] == s.ctxs[c].(merged := s'.ctxs[c].merged))
    && (forall n :: n in s.cnts ==> s'.cnts[n].ctx == s.cnts[n].ctx)
  }

  lemma OnlyCountsInv(s: State, s': State, t: nat)
    requires Inv(s) && OnlyCounts(s, s', t) && Counted(s') && HoldsNothing(s.pcs[t])
    requires forall o :: o in s.objs && o !in Frees(s.pcs[t]) ==> o in s'.objs && s'.objs[o] == s.objs[o]
    ensures Inv(s')
  {
    hide Mapped, CntsLinked, Cached, Counted, LimboExact, PcsOk, PcOk;
    MappedKept(s, s');
    LinkedKept(s, s');
    CachedKept(s, s');
    LimboMoved(s, s', t);
    CountsPcs(s, s', t);
  }

  ghost predicate HoldsNothing(pc: Pc) {
    forall c :: Holds(pc, c) == 0
  }

  lemma LinkedKept(s: State, s': State)
    requires CntsLinked(s) && s'.ctxs.Keys == s.ctxs.Keys && s'.cnts.Keys == s.cnts.Keys
    requires forall c :: c in s.ctxs ==> s'.ctxs[c].cnts == s.ctxs[c].cnts
    requires forall n :: n in s.cnts ==> s'.cnts[n].ctx == s.cnts[n].ctx
    ensures CntsLinked(s')
  {
  }

  lemma CountsPcs(s: State, s': State, t: nat)
    requires PcsOk(s) && OnlyCounts(s, s', t)
    requires forall o :: o in s.objs && o !in Frees(s.pcs[t]) ==> o in s'.objs && s'.objs[o] == s.objs[o]
    ensures PcsOk(s')
  {
    OthersOk(s, s', t);
  }

  /** Only the counts of context c changed, and there by the same amount on both sides. */
  lemma Rebalanced(s: State, s': State, c: nat, d: Counts, m: Counts)
    requires Counted(s) && c in s.ctxs && s'.ctxs.Keys == s.ctxs.Keys
    requires forall o :: o in s'.objs ==> s'.objs[o].ctx in s.ctxs
    requires CountSampled(s'.objs, c) == CountSampled(s.objs, c).Add(d)
    requires s'.ctxs[c].merged == s.ctxs[c].merged.Add(m)
    requires CountLinked(s'.cnts, c) == CountLinked(s.cnts, c).Add(d.Sub(m))
    requires forall x :: x in s.ctxs && x != c ==>
      s'.ctxs[x].merged == s.ctxs[x].merged && CountSampled(s'.objs, x) == CountSampled(s.objs, x)
          && CountLinked(s'.cnts, x) == CountLinked(s.cnts, x)
    ensures Counted(s')
  {
    hide CountSampled, CountLinked;
    assert Balanced(CountSampled(s.objs, c), s.ctxs[c].merged, CountLinked(s.cnts, c));
  }

  lemma MallocCounted(s: State, s': State, n: nat, o: nat, size: nat)
    requires Counted(s) && n in s.cnts && s.cnts[n].ctx in s.ctxs && o !in s.objs && s'.ctxs == s.ctxs
    requires s'.objs == s.objs[o := Obj(s.cnts[n].ctx, size)]
    requires s'.cnts == s.cnts[n := s.cnts[n].(cur := s.cnts[n].cur.Add(Counts(1, size)))]
    ensures Counted(s')
  {
    hide CountSampled, CountLinked;
    SampledAdd(s.objs, o, Obj(s.cnts[n].ctx, size));
    LinkedUpdate(s.cnts, n, s.cnts[n].(cur := s.cnts[n].cur.Add(Counts(1, size))));
    Rebalanced(s, s', s.cnts[n].ctx, Counts(1, size), NONE);
  }

  lemma FreeCountedLinked(s: State, s': State, n: nat, o: nat)
    requires Counted(s) && n in s.cnts && o in s.objs && s.cnts[n].ctx == s.objs[o].ctx && s'.ctxs == s.ctxs
    requires s'.objs == s.objs - {o}
    requires s'.cnts == s.cnts[n := s.cnts[n].(cur := s.cnts[n].cur.Sub(Counts(1, s.objs[o].size)))]
    ensures Counted(s')
  {
    hide CountSampled, CountLinked;
    SampledRemove(s.objs, o);
    LinkedUpdate(s.cnts, n, s.cnts[n].(cur := s.cnts[n].cur.Sub(Counts(1, s.objs[o].size))));
    Rebalanced(s, s', s.cnts[n].ctx, NONE.Sub(Counts(1, s.objs[o].size)), NONE);
  }

  lemma FreeCountedMerged(s: State, s': State, o: nat)
    requires Counted(s) && o in s.objs && s.objs[o].ctx in s.ctxs
    requires s'.objs == s.objs - {o} && s'.cnts == s.cnts
    requires var c := s.objs[o].ctx;
      s'.ctxs == s.ctxs[c := s.ctxs[c].(merged := s.ctxs[c].merged.Sub(Counts(1, s.objs[o].size)))]
    ensures Counted(s')
  {
    hide CountSampled, CountLinked;
    SampledRemove(s.objs, o);
    Rebalanced(s, s', s.objs[o].ctx, NONE.Sub(Counts(1, s.objs[o].size)), NONE.Sub(Counts(1, s.objs[o].size)));
  }

  lemma MallocShape(s: State, t: nat, o: nat, size: nat)
    requires t < |s.pcs| && s.pcs[t].On? && s.pcs[t].place.Ready?
    requires s.pcs[t].place.why.ForAlloc? && s.pcs[t].place.cnt in s.cnts && o !in s.objs
    ensures var s', n := MallocStep(s, t, o, size), s.pcs[t].place.cnt;
      && OnlyCounts(s, s', t) && HoldsNothing(s.pcs[t]) && s'.ctxs == s.ctxs
      && s'.objs == s.objs[o := Obj(s.cnts[n].ctx, size)]
          && s'.cnts == s.cnts[n := s.cnts[n].(cur := s.cnts[n].cur.Add(Counts(1, size)))]
  {
  }

  lemma MallocInv(s: State, t: nat, o: nat, size: nat)
    requires Inv(s) && t < |s.pcs| && s.pcs[t].On? && s.pcs[t].place.Ready? && s.pcs[t].place.why.ForAlloc?
    ensures Inv(MallocStep(s, t, o, size))
  {
    hide Mapped, Cached, Counted, LimboExact, PcsOk, CntsLinked, PcOk, OnlyCounts, HoldsNothing, Frees;
    ReadyLinked(s, t);
    if o !in s.objs {
      var s' := MallocStep(s, t, o, size);
      MallocShape(s, t, o, size);
      MallocCounted(s, s', s.pcs[t].place.cnt, o, size);
      OnlyCountsInv(s, s', t);
    }
  }

  lemma ReadyLinked(s: State, t: nat)
    requires Inv(s) && t < |s.pcs| && s.pcs[t].On? && s.pcs[t].place.Ready?
    ensures var n := s.pcs[t].place.cnt; n in s.cnts && s.cnts[n].ctx in s.ctxs
  {
    assert PcOk(s, s.caches[t], s.pcs[t]);
  }

  lemma Freed(s: State, t: nat)
    requires Inv(s) && t < |s.pcs| && s.pcs[t].On?
    requires (s.pcs[t].place.Ready? || s.pcs[t].place.Failed?) && s.pcs[t].place.why.ForFree?
    ensures var o := s.pcs[t].place.why.obj;
      && o in s.objs && s.objs[o].ctx in s.ctxs && Frees(s.pcs[t]) == {o}
      && (s.pcs[t].place.Ready? ==> s.pcs[t].place.cnt in s.cnts && s.cnts[s.pcs[t].place.cnt].ctx == s.objs[o].ctx)
  {
    MineOk(s, t);
    hide Mapped, CntsLinked, Cached, LimboExact, PcsOk;
    if s.pcs[t].place.why.obj in s.objs {
      ObjectLive(s, s.pcs[t].place.why.obj);
    }
  }

  lemma FreeShape(s: State, t: nat, o: nat)
    requires t < |s.pcs| && s.pcs[t].On? && (s.pcs[t].place.Ready? || s.pcs[t].place.Failed?)
    requires s.pcs[t].place.why == ForFree(o)
    requires o in s.objs && s.objs[o].ctx in s.ctxs && (s.pcs[t].place.Ready? ==> s.pcs[t].place.cnt in s.cnts)
    ensures var s', one, c := FreeStep(s, t), Counts(1, s.objs[o].size), s.objs[o].ctx;
      && OnlyCounts(s, s', t) && HoldsNothing(s.pcs[t]) && s'.objs == s.objs - {o}
      && (if s.pcs[t].place.Ready? then
            var n := s.pcs[t].place.cnt;
            s'.ctxs == s.ctxs && s'.cnts == s.cnts[n := s.cnts[n].(cur := s.cnts[n].cur.Sub(one))]
          else
            s'.cnts == s.cnts && s'.ctxs == s.ctxs[c := s.ctxs[c].(merged := s.ctxs[c].merged.Sub(one))])
  {
  }

  lemma FreeInv(s: State, t: nat)
    requires Inv(s) && t < |s.pcs| && s.pcs[t].On?
    requires (s.pcs[t].place.Ready? || s.pcs[t].place.Failed?) && s.pcs[t].place.why.ForFree?
    ensures Inv(FreeStep(s, t))
  {
    hide Mapped, Cached, Counted, LimboExact, PcsOk, CntsLinked, PcOk, OnlyCounts, HoldsNothing, Frees, FreeStep;
    var o, s' := s.pcs[t].place.why.obj, FreeStep(s, t);
    Freed(s, t);
    FreeShape(s, t, o);
    if s.pcs[t].place.Ready? {
      FreeCountedLinked(s, s', s.pcs[t].place.cnt, o);
    } else {
      FreeCountedMerged(s, s', o);
    }
    OnlyCountsInv(s, s', t);
  }

  // ----- Every step

  /** A thread moves, and no limbo count changes hands. */
  lemma MoveInv(s: State, t: nat, place: Place)
    requires Inv(s) && t < |s.pcs| && PlaceOk(s, s.caches[t], place)
    requires forall c :: Holds(On(place), c) == Holds(s.pcs[t], c)
    requires forall u :: 0 <= u < |s.pcs| && u != t ==> FreesAt(place) !! Frees(s.pcs[u])
    ensures Inv(At(s, t, place))
  {
    hide Mapped, Cached, Counted, LimboExact, PcsOk, CntsLinked, PlaceOk, Holds, HoldsAt, FreesAt;
    DumpingLive(s);
    OnlyLimboInv(s, At(s, t, place), t);
  }

  lemma DumpingLive(s: State)
    requires LimboExact(s)
    ensures s.dumping <= s.ctxs.Keys
  {
  }

  lemma GlobalInv(s: State, t: nat, id: nat, oom: bool)
    requires Inv(s) && t < |s.pcs| && s.pcs[t].On? && s.pcs[t].place.Lookup? && s.pcs[t].place.bt !in s.caches[t]
    ensures Inv(GlobalStep(s, t, id, oom))
  {
    var bt, why := s.pcs[t].place.bt, s.pcs[t].place.why;
    LookupOk(s, t);
    if bt in s.bt2ctx {
      GlobalFound(s, t, id, oom);
    } else if oom {
      MoveInv(s, t, Failed(why));
    } else if id !in s.ctxs {
      NewCtx(s, t, id);
    }
  }

  lemma LookupOk(s: State, t: nat)
    requires Inv(s) && t < |s.pcs| && s.pcs[t].On? && s.pcs[t].place.Lookup?
    ensures PlaceOk(s, s.caches[t], s.pcs[t].place) && PlaceOk(s, s.caches[t], Failed(s.pcs[t].place.why))
    ensures forall u :: 0 <= u < |s.pcs| && u != t ==> Frees(s.pcs[t]) !! Frees(s.pcs[u])
  {
    assert PcOk(s, s.caches[t], s.pcs[t]);
  }

  lemma GlobalFound(s: State, t: nat, id: nat, oom: bool)
    requires Inv(s) && t < |s.pcs| && s.pcs[t].On? && s.pcs[t].place.Lookup?
    requires s.pcs[t].place.bt !in s.caches[t] && s.pcs[t].place.bt in s.bt2ctx
    ensures Inv(GlobalStep(s, t, id, oom))
  {
    hide Mapped, Cached, Counted, LimboExact, PcsOk, CntsLinked, PlaceOk, OnlyLimbo;
    var c, s' := s.bt2ctx[s.pcs[t].place.bt], GlobalStep(s, t, id, oom);
    FoundPlace(s, t);
    DumpingLive(s);
    LookupOk(s, t);
    FoundShape(s, t, id, oom);
    OnlyLimboInv(s, s', t);
  }

  lemma FoundPlace(s: State, t: nat)
    requires Inv(s) && t < |s.pcs| && s.pcs[t].On? && s.pcs[t].place.Lookup?
    requires s.pcs[t].place.bt !in s.caches[t] && s.pcs[t].place.bt in s.bt2ctx
    ensures s.bt2ctx[s.pcs[t].place.bt] in s.ctxs
    ensures PlaceOk(s, s.caches[t], Got(s.bt2ctx[s.pcs[t].place.bt], false, s.pcs[t].place.why))
  {
    hide Cached, Counted, LimboExact, PcsOk, CntsLinked;
    var bt, why := s.pcs[t].place.bt, s.pcs[t].place.why;
    LookupOk(s, t);
    assert s.bt2ctx[bt] in s.ctxs && s.ctxs[s.bt2ctx[bt]].bt == bt;
    if why.ForFree? {
      SameBt(s, s.objs[why.obj].ctx);
    }
  }

  lemma FoundShape(s: State, t: nat, id: nat, oom: bool)
    requires t < |s.pcs| && s.pcs[t].On? && s.pcs[t].place.Lookup?
    requires s.pcs[t].place.bt in s.bt2ctx && s.bt2ctx[s.pcs[t].place.bt] in s.ctxs
    ensures var s', c, why := GlobalStep(s, t, id, oom), s.bt2ctx[s.pcs[t].place.bt], s.pcs[t].place.why;
      && OnlyLimbo(s, s', t) && s'.dumping == s.dumping && s'.pcs[t] == On(Got(c, false, why))
      && Frees(s'.pcs[t]) == Frees(s.pcs[t])
      && forall x ::
        x in s.ctxs ==>
          s'.ctxs[x].nlimbo - s'.ctxs[x].leaked - Holds(s'.pcs[t], x)
          == s.ctxs[x].nlimbo - s.ctxs[x].leaked - Holds(s.pcs[t], x)
  {
  }

  lemma FailInv(s: State, t: nat, c: nat, isNew: bool, why: Why)
    requires Inv(s) && t < |s.pcs| && (s.pcs[t] == On(Got(c, isNew, why)) || s.pcs[t] == On(GotCnt(c, isNew, why)))
    ensures Inv(FailStep(s, t, c, isNew, why))
  {
    hide Mapped, Cached, Counted, LimboExact, CntsLinked, PcOk, PcsOk, Frees;
    FailPlace(s, t, c, isNew, why);
    DumpingLive(s);
    MineApart(s, t);
    FailShape(s, t, c, isNew, why);
    hide FailStep, OnlyLimbo;
    OnlyLimboInv(s, FailStep(s, t, c, isNew, why), t);
  }

  lemma FailPlace(s: State, t: nat, c: nat, isNew: bool, why: Why)
    requires PcsOk(s) && t < |s.pcs| && (s.pcs[t] == On(Got(c, isNew, why)) || s.pcs[t] == On(GotCnt(c, isNew, why)))
    ensures c in s.ctxs && PcOk(s, s.caches[t], Destroying(c, Failed(why))) && PcOk(s, s.caches[t], On(Failed(why)))
  {
    assert PcOk(s, s.caches[t], s.pcs[t]);
  }

  lemma FailShape(s: State, t: nat, c: nat, isNew: bool, why: Why)
    requires t < |s.pcs| && c in s.ctxs && (s.pcs[t] == On(Got(c, isNew, why)) || s.pcs[t] == On(GotCnt(c, isNew, why)))
    ensures var s' := FailStep(s, t, c, isNew, why);
      && OnlyLimbo(s, s', t) && s'.dumping == s.dumping
      && s'.pcs[t] == (if isNew then Destroying(c, Failed(why)) else On(Failed(why)))
      && Frees(s'.pcs[t]) == Frees(s.pcs[t])
      && forall x ::
        x in s.ctxs ==>
          s'.ctxs[x].nlimbo - s'.ctxs[x].leaked - Holds(s'.pcs[t], x)
          == s.ctxs[x].nlimbo - s.ctxs[x].leaked - Holds(s.pcs[t], x)
  {
  }

  lemma MineApart(s: State, t: nat)
    requires PcsOk(s) && t < |s.pcs|
    ensures forall u :: 0 <= u < |s.pcs| && u != t ==> Frees(s.pcs[t]) !! Frees(s.pcs[u])
  {
  }

  lemma DumpInv(s: State, t: nat, c: nat, prep: bool)
    requires Inv(s) && t < |s.pcs| && (if prep then c in s.bt2ctx.Values && c !in s.dumping else c in s.dumping)
    ensures Inv(Step(s, t, if prep then DumpPrep(c) else DumpCleanup(c)))
  {
    DumpFacts(s, t, c, prep);
    hide *;
    var s' := Limbo(s, c, if prep then 1 else -1).(dumping := if prep then s.dumping + {c} else s.dumping - {c});
    DumpStepIs(s, t, c, prep);
    DumpShape(s, s', t, c, prep);
    OnlyLimboInv(s, s', t);
  }

  lemma DumpFacts(s: State, t: nat, c: nat, prep: bool)
    requires Inv(s) && t < |s.pcs| && (if prep then c in s.bt2ctx.Values else c in s.dumping)
    ensures c in s.ctxs && s.dumping <= s.ctxs.Keys && |s.caches| == |s.pcs| && PcOk(s, s.caches[t], s.pcs[t])
    ensures forall u :: 0 <= u < |s.pcs| && u != t ==> Frees(s.pcs[t]) !! Frees(s.pcs[u])
  {
    DumpLive(s, c, prep);
    MineOk(s, t);
    MineApart(s, t);
  }

  lemma DumpStepIs(s: State, t: nat, c: nat, prep: bool)
    requires t < |s.pcs| == |s.caches| && c in s.ctxs
    requires if prep then c in s.bt2ctx.Values && c !in s.dumping else c in s.dumping
    ensures Step(s, t, if prep then DumpPrep(c) else DumpCleanup(c))
            == Limbo(s, c, if prep then 1 else -1).(dumping := if prep then s.dumping + {c} else s.dumping - {c})
  {
  }

  lemma DumpShape(s: State, s': State, t: nat, c: nat, prep: bool)
    requires t < |s.pcs| && c in s.ctxs && (prep <==> c !in s.dumping)
    requires s' == Limbo(s, c, if prep then 1 else -1).(dumping := if prep then s.dumping + {c} else s.dumping - {c})
    ensures OnlyLimbo(s, s', t) && s'.pcs == s.pcs && (s.dumping <= s.ctxs.Keys ==> s'.dumping <= s.ctxs.Keys)
    ensures forall x :: x in s.ctxs ==>
      s'.ctxs[x].nlimbo - (if x in s'.dumping then 1 else 0) - s'.ctxs[x].leaked - Holds(s'.pcs[t], x)
      == s.ctxs[x].nlimbo - (if x in s.dumping then 1 else 0) - s.ctxs[x].leaked - Holds(s.pcs[t], x)
  {
  }

  lemma MineOk(s: State, t: nat)
    requires PcsOk(s) && t < |s.pcs|
    ensures PcOk(s, s.caches[t], s.pcs[t])
  {
  }

  lemma DumpLive(s: State, c: nat, prep: bool)
    requires Inv(s) && (if prep then c in s.bt2ctx.Values else c in s.dumping)
    ensures c in s.ctxs && s.dumping <= s.ctxs.Keys
  {
  }

  lemma ObjectLive(s: State, o: nat)
    requires Counted(s) && o in s.objs
    ensures s.objs[o].ctx in s.ctxs
  {
  }

  lemma StartFreeInv(s: State, t: nat, o: nat)
    requires Inv(s) && t < |s.pcs| && s.pcs[t] == On(Idle) && o in s.objs
    requires !exists i :: 0 <= i < |s.pcs| && o in Frees(s.pcs[i])
    ensures Inv(Step(s, t, StartFree(o)))
  {
    hide Mapped, Cached, LimboExact, PcsOk, CntsLinked, PcOk;
    ObjectLive(s, o);
    MoveInv(s, t, Lookup(s.ctxs[s.objs[o].ctx].bt, ForFree(o)));
  }

  lemma HitInv(s: State, t: nat)
    requires Inv(s) && t < |s.pcs| && s.pcs[t].On? && s.pcs[t].place.Lookup? && s.pcs[t].place.bt in s.caches[t]
    ensures Inv(Step(s, t, Hit))
  {
    hide Mapped, Cached, Counted, LimboExact, PcsOk, CntsLinked, PlaceOk;
    HitPlace(s, t);
    LookupOk(s, t);
    SameLengths(s);
    MoveInv(s, t, Ready(s.caches[t][s.pcs[t].place.bt], s.pcs[t].place.why));
  }

  lemma HitPlace(s: State, t: nat)
    requires Inv(s) && t < |s.pcs| && s.pcs[t].On? && s.pcs[t].place.Lookup? && s.pcs[t].place.bt in s.caches[t]
    ensures PlaceOk(s, s.caches[t], Ready(s.caches[t][s.pcs[t].place.bt], s.pcs[t].place.why))
    ensures s.caches[t][s.pcs[t].place.bt] in s.cnts
  {
    hide Mapped, Counted, LimboExact, PcsOk, CntsLinked;
    var bt, why := s.pcs[t].place.bt, s.pcs[t].place.why;
    var n := s.caches[t][bt];
    LookupOk(s, t);
    assert n in s.cnts && s.ctxs[s.cnts[n].ctx].bt == bt;
    SameBt(s, s.cnts[n].ctx);
    if why.ForFree? {
      SameBt(s, s.objs[why.obj].ctx);
    }
  }

  /** Two contexts with one backtrace are the same. */
  lemma SameBt(s: State, c: nat)
    requires Mapped(s) && c in s.ctxs
    ensures s.ctxs[c].bt in s.bt2ctx && s.bt2ctx[s.ctxs[c].bt] == c
  {
  }

  lemma AllocCntInv(s: State, t: nat)
    requires Inv(s) && t < |s.pcs| && s.pcs[t].On? && s.pcs[t].place.Got? && |s.caches[t]| < PROF_TCMAX
    ensures Inv(Step(s, t, AllocCnt))
  {
    var place := GotCnt(s.pcs[t].place.ctx, s.pcs[t].place.isNew, s.pcs[t].place.why);
    SameLengths(s);
    AllocCntPlace(s, t);
    hide *;
    AllocCntIs(s, t);
    MoveInv(s, t, place);
  }

  lemma AllocCntIs(s: State, t: nat)
    requires t < |s.pcs| == |s.caches| && s.pcs[t].On? && s.pcs[t].place.Got? && |s.caches[t]| < PROF_TCMAX
    ensures Step(s, t, AllocCnt)
            == At(s, t, GotCnt(s.pcs[t].place.ctx, s.pcs[t].place.isNew, s.pcs[t].place.why))
  {
  }

  lemma AllocCntPlace(s: State, t: nat)
    requires PcsOk(s) && t < |s.pcs| && s.pcs[t].On? && s.pcs[t].place.Got? && |s.caches[t]| < PROF_TCMAX
    ensures var place := GotCnt(s.pcs[t].place.ctx, s.pcs[t].place.isNew, s.pcs[t].place.why);
      && PlaceOk(s, s.caches[t], place) && (forall c :: Holds(On(place), c) == Holds(s.pcs[t], c))
      && forall u :: 0 <= u < |s.pcs| && u != t ==> FreesAt(place) !! Frees(s.pcs[u])
  {
    MineApart(s, t);
    MineOk(s, t);
    hide PcsOk;
  }

  lemma IdleInv(s: State, t: nat, place: Place)
    requires Inv(s) && t < |s.pcs| && s.pcs[t].On?
    requires (s.pcs[t].place.Idle? || s.pcs[t].place.Ready? || s.pcs[t].place.Failed?)
    requires place.Idle? || (place.Lookup? && place.why.ForAlloc?)
    ensures Inv(At(s, t, place))
  {
    hide Mapped, Cached, Counted, LimboExact, PcsOk, CntsLinked;
    MoveInv(s, t, place);
  }

  /** A failed insertion that loses an older item, and leaves the new one, which is freed then, in the table. */
  predicate Loses(s: State, t: nat, a: Action) {
    t < |s.pcs| == |s.caches| && match (s.pcs[t], a)
      case (On(Lookup(bt, _)), GlobalFail(id, lost)) =>
        bt !in s.caches[t] && id !in s.ctxs && CanFail(s.bt2ctx, bt, lost) && lost != bt
      case (On(GotCnt(c, _, _)), InsertFail(n, lost)) =>
        c in s.ctxs && n !in s.cnts && CanFail(s.caches[t], s.ctxs[c].bt, lost) && lost != s.ctxs[c].bt
      case _ => false
  }

  lemma GlobalFailInv(s: State, t: nat, id: nat, lost: nat)
    requires Inv(s) && t < |s.pcs| && s.pcs[t].On? && s.pcs[t].place.Lookup? && s.pcs[t].place.bt !in s.caches[t]
    requires !Loses(s, t, GlobalFail(id, lost))
    ensures Inv(GlobalFailStep(s, t, id, lost))
  {
    var bt, why := s.pcs[t].place.bt, s.pcs[t].place.why;
    LookupOk(s, t);
    SameLengths(s);
    hide Inv, FailedInsert, PlaceOk;
    if id !in s.ctxs && CanFail(s.bt2ctx, bt, lost) {
      NothingLost(s.bt2ctx, bt, id);
      NoTdataInv(s, t);
      assert s.(bt2ctx := s.bt2ctx) == s;
    }
  }

  lemma InsertFailInv(s: State, t: nat, n: nat, lost: nat)
    requires Inv(s) && t < |s.pcs| == |s.caches| && s.pcs[t].On? && s.pcs[t].place.GotCnt?
    requires !Loses(s, t, InsertFail(n, lost))
    ensures Inv(InsertFailStep(s, t, n, lost))
  {
    var c, isNew, why := s.pcs[t].place.ctx, s.pcs[t].place.isNew, s.pcs[t].place.why;
    hide Inv, FailStep, InsertFailStep, Loses;
    FailPlaceOf(s, t, c, isNew, why);
    InsertFailShape(s, t, n, lost);
    FailInv(s, t, c, isNew, why);
  }

  lemma InsertFailShape(s: State, t: nat, n: nat, lost: nat)
    requires t < |s.pcs| == |s.caches| && s.pcs[t].On? && s.pcs[t].place.GotCnt? && s.pcs[t].place.ctx in s.ctxs
    requires !Loses(s, t, InsertFail(n, lost))
    ensures var s', place := InsertFailStep(s, t, n, lost), s.pcs[t].place;
      s' == s || s' == FailStep(s, t, place.ctx, place.isNew, place.why)
  {
    hide FailedInsert, FailStep;
    var bt := s.ctxs[s.pcs[t].place.ctx].bt;
    if n !in s.cnts && CanFail(s.caches[t], bt, lost) {
      NothingLost(s.caches[t], bt, n);
      assert s.caches[t := s.caches[t]] == s.caches;
    }
  }

  lemma FailPlaceOf(s: State, t: nat, c: nat, isNew: bool, why: Why)
    requires Inv(s) && t < |s.pcs| && (s.pcs[t] == On(Got(c, isNew, why)) || s.pcs[t] == On(GotCnt(c, isNew, why)))
    ensures c in s.ctxs
  {
    FailPlace(s, t, c, isNew, why);
  }

  /** bt2ctx leads to the freed context, or the cache to the freed counter. */
  lemma LossBreaks(s: State, t: nat, a: Action)
    requires Inv(s) && Loses(s, t, a)
    ensures !Inv(Step(s, t, a))
  {
    hide Inv, FailedInsert;
    var s' := Step(s, t, a);
    match a
    case GlobalFail(id, lost) =>
      OlderLost(s.bt2ctx, s.pcs[t].place.bt, id, lost);
      Dangling(s', s.pcs[t].place.bt);
    case InsertFail(n, lost) =>
      OlderLost(s.caches[t], s.ctxs[s.pcs[t].place.ctx].bt, n, lost);
      DanglingCounter(s', t, s.ctxs[s.pcs[t].place.ctx].bt);
  }

  lemma Dangling(s: State, bt: nat)
    requires bt in s.bt2ctx && s.bt2ctx[bt] !in s.ctxs
    ensures !Inv(s)
  {
  }

  lemma DanglingCounter(s: State, t: nat, bt: nat)
    requires t < |s.caches| && bt in s.caches[t] && s.caches[t][bt] !in s.cnts
    ensures !Inv(s)
  {
  }

  /**
   A step of any thread keeps the invariant, so that no step follows a pointer to a freed context, if and only if it is
   not a failed insertion that loses an older item.
   */
  lemma StepInv(s: State, t: nat, a: Action)
    requires Inv(s)
    ensures Inv(Step(s, t, a)) <==> !Loses(s, t, a)
  {
    hide Inv, Step, Loses;
    if Loses(s, t, a) {
      LossBreaks(s, t, a);
    } else {
      StepKeeps(s, t, a);
    }
  }

  lemma StepKeeps(s: State, t: nat, a: Action)
    requires Inv(s) && !Loses(s, t, a)
    ensures Inv(Step(s, t, a))
  {
    hide Inv, Loses, MergeStep, GlobalStep, GlobalFailStep, InsertFailStep, FailStep, LinkStep, DestroyStep, MallocStep;
    hide FreeStep;
    if Step(s, t, a) != s && t < |s.pcs| {
      SameLengths(s);
      match a
      case DumpPrep(c) => DumpInv(s, t, c, true);
      case DumpCleanup(c) => DumpInv(s, t, c, false);
      case StartAlloc(bt) => IdleInv(s, t, Lookup(bt, ForAlloc));
      case StartFree(o) => StartFreeInv(s, t, o);
      case ExitMerge(victim) => MergeInv(s, t, victim, Idle);
      case NoTdata => NoTdataInv(s, t);
      case Hit => HitInv(s, t);
      case Global(id, oom) => GlobalInv(s, t, id, oom);
      case Flush(victim) =>
        MergeInv(s, t, victim, GotCnt(s.pcs[t].place.ctx, s.pcs[t].place.isNew, s.pcs[t].place.why));
      case AllocCnt => AllocCntInv(s, t);
      case AllocFail => FailInv(s, t, s.pcs[t].place.ctx, s.pcs[t].place.isNew, s.pcs[t].place.why);
      case GlobalFail(id, lost) => GlobalFailInv(s, t, id, lost);
      case InsertFail(n, lost) => InsertFailInv(s, t, n, lost);
      case Link(n) => LinkOrSame(s, t, n);
      case DestroyCtx => DestroyInv(s, t);
      case Malloc(o, size) => MallocInv(s, t, o, size);
      case Drop => IdleInv(s, t, Idle);
      case Free => FreeInv(s, t);
    }
  }

  lemma SameLengths(s: State)
    requires Inv(s)
    ensures |s.caches| == |s.pcs|
  {
  }

  lemma NoTdataInv(s: State, t: nat)
    requires Inv(s) && t < |s.pcs| && s.pcs[t].On? && s.pcs[t].place.Lookup?
    ensures Inv(At(s, t, Failed(s.pcs[t].place.why)))
  {
    LookupOk(s, t);
    hide Mapped, Cached, Counted, LimboExact, PcsOk, CntsLinked, PlaceOk;
    MoveInv(s, t, Failed(s.pcs[t].place.why));
  }

  lemma LinkOrSame(s: State, t: nat, n: nat)
    requires Inv(s) && t < |s.pcs| && s.pcs[t].On? && s.pcs[t].place.GotCnt?
    ensures |s.caches| == |s.pcs| && Inv(LinkStep(s, t, n))
  {
    if n !in s.cnts {
      LinkInv(s, t, n);
    }
  }

  // ----- Every run

  lemma StartInv(n: nat)
    ensures Inv(Start(n))
  {
    assert Sum(map[]) == NONE;
  }

  /** No step of a run loses an older item of a table. */
  ghost predicate NoLoss(n: nat, trace: Trace) {
    forall i: nat :: i < |trace| ==> !Loses(Run(Start(n), trace[..i]), trace[i].0, trace[i].1)
  }

  lemma NoLossInit(n: nat, trace: Trace)
    requires NoLoss(n, trace) && trace != []
    ensures var k := |trace| - 1;
      NoLoss(n, trace[..k]) && !Loses(Run(Start(n), trace[..k]), trace[k].0, trace[k].1)
  {
    hide Run, Loses;
    var u := trace[..|trace| - 1];
    forall i: nat | i < |u|
      ensures !Loses(Run(Start(n), u[..i]), u[i].0, u[i].1)
    {
      assert u[..i] == trace[..i] && u[i] == trace[i];
    }
  }

  /** Whatever the threads do, the invariant holds as long as no failed insertion loses an older item... */
  lemma {:induction false} RunInv(n: nat, trace: Trace)
    requires NoLoss(n, trace)
    ensures Inv(Run(Start(n), trace))
  {
    if trace == [] {
      StartInv(n);
    } else {
      NoLossInit(n, trace);
      RunInv(n, trace[..|trace| - 1]);
      hide Inv, Step, Loses, NoLoss;
      StepInv(Run(Start(n), trace[..|trace| - 1]), trace[|trace| - 1].0, trace[|trace| - 1].1);
    }
  }

  /** ... and no longer: it holds all along a run if and only if none does. */
  lemma RunInvExactly(n: nat, trace: Trace)
    ensures NoLoss(n, trace) <==> forall i: nat :: i <= |trace| ==> Inv(Run(Start(n), trace[..i]))
  {
    hide Inv, Step, Loses, Run;
    if NoLoss(n, trace) {
      forall i: nat | i <= |trace|
        ensures Inv(Run(Start(n), trace[..i]))
      {
        NoLossPrefix(n, trace, i);
        RunInv(n, trace[..i]);
      }
    }
    if forall i: nat :: i <= |trace| ==> Inv(Run(Start(n), trace[..i])) {
      forall i: nat | i < |trace|
        ensures !Loses(Run(Start(n), trace[..i]), trace[i].0, trace[i].1)
      {
        RunStep(n, trace, i);
        assert Inv(Run(Start(n), trace[..i])) && Inv(Run(Start(n), trace[..i + 1]));
        StepInv(Run(Start(n), trace[..i]), trace[i].0, trace[i].1);
      }
    }
  }

  lemma RunStep(n: nat, trace: Trace, i: nat)
    requires i < |trace|
    ensures Run(Start(n), trace[..i + 1]) == Step(Run(Start(n), trace[..i]), trace[i].0, trace[i].1)
  {
    hide Step;
    assert trace[..i + 1][..i] == trace[..i] && trace[..i + 1][i] == trace[i];
  }

  lemma NoLossPrefix(n: nat, trace: Trace, k: nat)
    requires NoLoss(n, trace) && k <= |trace|
    ensures NoLoss(n, trace[..k])
  {
    hide Run, Loses;
    forall i: nat | i < k
      ensures !Loses(Run(Start(n), trace[..k][..i]), trace[..k][i].0, trace[..k][i].1)
    {
      assert trace[..k][..i] == trace[..i] && trace[..k][i] == trace[i];
    }
  }

  /** Something refers to a context: a linked counter, a live sampled object, a thread in limbo or a dump. */
  ghost predicate Refers(s: State, c: nat) {
    HasCounter(s, c) || HasObject(s, c) || Held(s, c) || c in s.dumping
  }

  ghost predicate HasCounter(s: State, c: nat) {
    exists n :: n in s.cnts && s.cnts[n].ctx == c
  }

  ghost predicate HasObject(s: State, c: nat) {
    exists o :: o in s.objs && s.objs[o].ctx == c
  }

  ghost predicate Held(s: State, c: nat) {
    exists t :: 0 <= t < |s.pcs| && Holds(s.pcs[t], c) > 0
  }

  /**
   In every run without such a loss a context is never freed while it is referred to, and no step uses a freed one.
   */
  lemma NeverFreedInUse(n: nat, trace: Trace, c: nat)
    requires NoLoss(n, trace)
    ensures var s := Run(Start(n), trace);
      !s.bad && (Refers(s, c) ==> c in s.ctxs && s.ctxs[c].bt in s.bt2ctx && s.bt2ctx[s.ctxs[c].bt] == c)
  {
    RunInv(n, trace);
    var s := Run(Start(n), trace);
    hide Run;
    if t :| 0 <= t < |s.pcs| && Holds(s.pcs[t], c) > 0 {
      MineOk(s, t);
      HeldLive(s, s.caches[t], s.pcs[t], c);
    }
  }

  /**
   In every such run the counters of a context account for its live sampled objects, and nlimbo for those in limbo.
   */
  lemma Accounts(n: nat, trace: Trace, c: nat)
    requires NoLoss(n, trace) && c in Run(Start(n), trace).ctxs
    ensures var s := Run(Start(n), trace);
      && CountSampled(s.objs, c) == s.ctxs[c].merged.Add(CountLinked(s.cnts, c))
      && s.ctxs[c].nlimbo == Holders(s.pcs, c) + (if c in s.dumping then 1 else 0) + s.ctxs[c].leaked
  {
    RunInv(n, trace);
    AccountsOf(Run(Start(n), trace), c);
  }

  lemma AccountsOf(s: State, c: nat)
    requires Counted(s) && LimboExact(s) && c in s.ctxs
    ensures CountSampled(s.objs, c) == s.ctxs[c].merged.Add(CountLinked(s.cnts, c))
    ensures s.ctxs[c].nlimbo == Holders(s.pcs, c) + (if c in s.dumping then 1 else 0) + s.ctxs[c].leaked
  {
    hide CountSampled, CountLinked, Holders;
    assert Balanced(CountSampled(s.objs, c), s.ctxs[c].merged, CountLinked(s.cnts, c));
  }

  // ----- What a failed lookup leaves behind

  /**
   Running out of memory after finding a context that others use leaves its limbo count raised, with one holder less.
   */
  lemma FailedLookupLeaks(s: State, t: nat, c: nat, why: Why)
    requires Inv(s) && t < |s.pcs| == |s.caches| && s.pcs[t] == On(Got(c, false, why)) && |s.caches[t]| < PROF_TCMAX
    ensures var s' := Step(s, t, AllocFail);
      && c in s.ctxs && c in s'.ctxs && s'.ctxs[c].nlimbo == s.ctxs[c].nlimbo
          && s'.ctxs[c].leaked == s.ctxs[c].leaked + 1
      && Holders(s'.pcs, c) == Holders(s.pcs, c) - 1
  {
    hide Mapped, Cached, Counted, LimboExact, CntsLinked, PcOk, Frees;
    FailPlace(s, t, c, false, why);
    HoldersUpdate(s.pcs, t, On(Failed(why)), c);
  }

  ghost predicate KeepsLeak(s: State, s': State, c: nat)
    requires c in s.ctxs
  {
    c in s'.ctxs && s.ctxs[c].leaked <= s'.ctxs[c].leaked
  }

  lemma DestroyKeepsLeak(s: State, t: nat, c: nat)
    requires Inv(s) && c in s.ctxs && 0 < s.ctxs[c].leaked && t < |s.pcs| && s.pcs[t].Destroying?
    ensures KeepsLeak(s, DestroyStep(s, t), c)
  {
    hide Mapped, Cached, Counted, LimboExact, PcsOk, CntsLinked;
    if s.pcs[t].ctx == c && s.ctxs[c].nlimbo == 1 {
      OnlyHolder(s, t, c);
    }
  }

  lemma OthersKeepLeak(s: State, t: nat, victim: nat, next: Place, c: nat)
    requires c in s.ctxs && t < |s.pcs| == |s.caches|
    ensures victim in s.caches[t] ==> KeepsLeak(s, MergeStep(s, t, victim, next), c)
    ensures forall x, b, w :: KeepsLeak(s, FailStep(s, t, x, b, w), c)
  {
  }

  lemma LookupsKeepLeak(s: State, t: nat, c: nat)
    requires c in s.ctxs && t < |s.pcs| == |s.caches|
    ensures s.pcs[t].On? && s.pcs[t].place.Lookup? ==> forall id, oom :: KeepsLeak(s, GlobalStep(s, t, id, oom), c)
    ensures s.pcs[t].On? && s.pcs[t].place.Lookup? ==> forall id, x :: KeepsLeak(s, GlobalFailStep(s, t, id, x), c)
    ensures s.pcs[t].On? && s.pcs[t].place.GotCnt? ==> forall n :: KeepsLeak(s, LinkStep(s, t, n), c)
    ensures s.pcs[t].On? && s.pcs[t].place.GotCnt? ==> forall n, x :: KeepsLeak(s, InsertFailStep(s, t, n, x), c)
  {
  }

  lemma CountsKeepLeak(s: State, t: nat, c: nat)
    requires c in s.ctxs && t < |s.pcs| && s.pcs[t].On?
    ensures s.pcs[t].place.Ready? ==> forall o, size :: KeepsLeak(s, MallocStep(s, t, o, size), c)
    ensures (s.pcs[t].place.Ready? || s.pcs[t].place.Failed?) && s.pcs[t].place.why.ForFree?
        ==> KeepsLeak(s, FreeStep(s, t), c)
  {
  }

  lemma MovesKeepLeak(s: State, s': State, c: nat)
    requires c in s.ctxs
    ensures s'.ctxs == s.ctxs ==> KeepsLeak(s, s', c)
    ensures forall x, d, m :: x in s.ctxs ==> KeepsLeak(s, Limbo(s, x, d).(dumping := m), c)
    ensures KeepsLeak(s, s, c) && KeepsLeak(s, Bad(s), c)
  {
  }

  /** A limbo count left behind by a failed lookup is never taken back, and its context never freed. */
  lemma LeakedForever(s: State, t: nat, a: Action, c: nat)
    requires Inv(s) && c in s.ctxs && 0 < s.ctxs[c].leaked
    ensures KeepsLeak(s, Step(s, t, a), c)
  {
    hide Inv, MergeStep, GlobalStep, GlobalFailStep, InsertFailStep, FailStep, LinkStep, DestroyStep, MallocStep;
    hide FreeStep, Frees, KeepsLeak, Limbo;
    if t < |s.pcs| == |s.caches| {
      MovesKeepLeak(s, Step(s, t, a), c);
      if s.pcs[t].Destroying? {
        DestroyKeepsLeak(s, t, c);
      } else {
        match a
        case ExitMerge(victim) => OthersKeepLeak(s, t, victim, Idle, c);
        case Flush(victim) =>
          if s.pcs[t].place.Got? {
            OthersKeepLeak(s, t, victim, GotCnt(s.pcs[t].place.ctx, s.pcs[t].place.isNew, s.pcs[t].place.why), c);
          }
        case _ =>
          OthersKeepLeak(s, t, 0, Idle, c);
          LookupsKeepLeak(s, t, c);
          CountsKeepLeak(s, t, c);
      }
    } else {
      MovesKeepLeak(s, s, c);
    }
  }
}
