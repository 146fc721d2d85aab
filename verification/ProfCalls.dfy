/**
 What whole calls do that no other thread interrupts: prof_lookup followed by prof_malloc or prof_free, the merge of a
 counter at thread exit, and a dump.  Each is a run of several steps, and the state after it is given outright.
 */
module ProfCalls {

  import opened CuckooMaps
  import opened ProfCtx
  import opened ProfLoss

  /** The same state with thread t elsewhere. */
  function Put(s: State, t: nat, pc: Pc): State
    requires t < |s.pcs|
  {
    s.(pcs := s.pcs[t := pc])
  }

  /** Thread t caches counter n for a backtrace. */
  function Caching(s: State, t: nat, bt: nat, n: nat): (caches: seq<map<nat, nat>>)
    requires t < |s.caches|
  {
    var cache: map<nat, nat> := s.caches[t];
    s.caches[t := cache[bt := n]]
  }

  /** Thread t is between two calls. */
  ghost predicate Calm(s: State, t: nat) {
    Inv(s) && t < |s.pcs| && s.pcs[t] == On(Idle)
  }

  lemma CalmPut(s: State, t: nat)
    requires Calm(s, t)
    ensures Inv(s) && t < |s.pcs| == |s.caches| && s.pcs[t] == On(Idle) && Put(s, t, On(Idle)) == s
  {
    SameLengths(s);
    hide Inv;
    assert s.pcs[t := On(Idle)] == s.pcs;
  }

  lemma RunFour(s: State, t: nat, a: Action, b: Action, c: Action, d: Action)
    ensures Run(s, [(t, a), (t, b), (t, c), (t, d)]) == Step(Step(Step(Step(s, t, a), t, b), t, c), t, d)
  {
    hide Step;
    var x := [(t, a), (t, b), (t, c)];
    RunThree(s, t, a, b, c);
    RunOne(s, x, t, d);
    assert x + [(t, d)] == [(t, a), (t, b), (t, c), (t, d)];
  }

  lemma RunFive(s: State, t: nat, a: Action, b: Action, c: Action, d: Action, e: Action)
    ensures Run(s, [(t, a), (t, b), (t, c), (t, d), (t, e)])
            == Step(Step(Step(Step(Step(s, t, a), t, b), t, c), t, d), t, e)
  {
    hide Step;
    var x := [(t, a), (t, b), (t, c), (t, d)];
    RunFour(s, t, a, b, c, d);
    RunOne(s, x, t, e);
    assert x + [(t, e)] == [(t, a), (t, b), (t, c), (t, d), (t, e)];
  }

  lemma RunSix(s: State, t: nat, a: Action, b: Action, c: Action, d: Action, e: Action, f: Action)
    ensures Run(s, [(t, a), (t, b), (t, c), (t, d), (t, e), (t, f)])
            == Step(Step(Step(Step(Step(Step(s, t, a), t, b), t, c), t, d), t, e), t, f)
  {
    hide Step;
    var x := [(t, a), (t, b), (t, c), (t, d), (t, e)];
    RunFive(s, t, a, b, c, d, e);
    RunOne(s, x, t, f);
    assert x + [(t, f)] == [(t, a), (t, b), (t, c), (t, d), (t, e), (t, f)];
  }

  lemma RunParts(s: State, t: nat, a: Action, b: Action, c: Action, d: Action, e: Action, s1: State,
      s2: State, s3: State)
    requires Step(s, t, a) == s1 && Step(Step(Step(s1, t, b), t, c), t, d) == s2 && Step(s2, t, e) == s3
    ensures Run(s, [(t, a), (t, b), (t, c), (t, d), (t, e)]) == s3
  {
    hide Step, Run;
    RunFive(s, t, a, b, c, d, e);
  }

  // ----- Single steps

  lemma StartsAlloc(s: State, t: nat, bt: nat)
    requires t < |s.pcs| == |s.caches|
    ensures Step(Put(s, t, On(Idle)), t, StartAlloc(bt)) == Put(s, t, On(Lookup(bt, ForAlloc)))
  {
  }

  lemma Hits(s: State, t: nat, bt: nat, why: Why)
    requires t < |s.pcs| == |s.caches| && bt in s.caches[t] && s.caches[t][bt] in s.cnts
    ensures Step(Put(s, t, On(Lookup(bt, why))), t, Hit) == Put(s, t, On(Ready(s.caches[t][bt], why)))
  {
  }

  lemma FindsGlobal(s: State, t: nat, bt: nat, why: Why, id: nat, oom: bool)
    requires t < |s.pcs| == |s.caches| && bt !in s.caches[t] && bt in s.bt2ctx && s.bt2ctx[bt] in s.ctxs
    ensures var c := s.bt2ctx[bt];
      Step(Put(s, t, On(Lookup(bt, why))), t, Global(id, oom))
      == Put(s.(ctxs := s.ctxs[c := s.ctxs[c].(nlimbo := s.ctxs[c].nlimbo + 1)]), t, On(Got(c, false, why)))
  {
  }

  lemma MakesGlobal(s: State, t: nat, bt: nat, why: Why, id: nat)
    requires t < |s.pcs| == |s.caches| && bt !in s.caches[t] && bt !in s.bt2ctx && id !in s.ctxs
    ensures Step(Put(s, t, On(Lookup(bt, why))), t, Global(id, false))
            == Put(s.(ctxs := s.ctxs[id := Ctx(bt, 1, NONE, {}, 0)], bt2ctx := s.bt2ctx[bt := id]), t,
                   On(Got(id, true, why)))
  {
  }

  lemma GetsCnt(s: State, t: nat, c: nat, isNew: bool, why: Why)
    requires t < |s.pcs| == |s.caches| && |s.caches[t]| < PROF_TCMAX
    ensures Step(Put(s, t, On(Got(c, isNew, why))), t, AllocCnt) == Put(s, t, On(GotCnt(c, isNew, why)))
  {
  }

  lemma LinksCnt(s: State, t: nat, c: nat, isNew: bool, why: Why, n: nat)
    requires t < |s.pcs| == |s.caches| && c in s.ctxs && n !in s.cnts
    ensures var x := s.ctxs[c];
      Step(Put(s, t, On(GotCnt(c, isNew, why))), t, Link(n))
      == Put(s.(ctxs := s.ctxs[c := x.(cnts := x.cnts + {n}, nlimbo := x.nlimbo - 1)],
                cnts := s.cnts[n := Cnt(c, NONE)], caches := Caching(s, t, x.bt, n)), t,
             On(Ready(n, why)))
  {
  }

  lemma Mallocs(s: State, t: nat, n: nat, o: nat, size: nat)
    requires t < |s.pcs| == |s.caches| && n in s.cnts && o !in s.objs
    ensures var x := s.cnts[n];
      Step(Put(s, t, On(Ready(n, ForAlloc))), t, Malloc(o, size))
      == Put(s.(objs := s.objs[o := Obj(x.ctx, size)],
                cnts := s.cnts[n := Cnt(x.ctx, Counts(x.cur.objs + 1, x.cur.bytes + size))]), t, On(Idle))
  {
  }

  lemma DropsIt(s: State, t: nat, place: Place)
    requires t < |s.pcs| == |s.caches|
    requires place == Failed(ForAlloc) || (place.Ready? && place.why == ForAlloc)
    ensures Step(Put(s, t, On(place)), t, Drop) == Put(s, t, On(Idle))
  {
  }

  /** Nobody is freeing object o. */
  ghost predicate Unfreed(s: State, o: nat) {
    forall u :: 0 <= u < |s.pcs| ==> o !in Frees(s.pcs[u])
  }

  lemma StartsFree(s: State, t: nat, o: nat)
    requires t < |s.pcs| == |s.caches| && s.pcs[t] == On(Idle) && Unfreed(s, o)
    requires o in s.objs && s.objs[o].ctx in s.ctxs
    ensures Step(s, t, StartFree(o)) == Put(s, t, On(Lookup(s.ctxs[s.objs[o].ctx].bt, ForFree(o))))
  {
  }

  lemma FreesReady(s: State, t: nat, n: nat, o: nat)
    requires t < |s.pcs| == |s.caches| && n in s.cnts && o in s.objs
    ensures var x := s.cnts[n];
      Step(Put(s, t, On(Ready(n, ForFree(o)))), t, Free)
      == Put(s.(objs := s.objs - {o},
                cnts := s.cnts[n := Cnt(x.ctx, Counts(x.cur.objs - 1, x.cur.bytes - s.objs[o].size))]), t, On(Idle))
  {
  }

  lemma FreesFailed(s: State, t: nat, o: nat)
    requires t < |s.pcs| == |s.caches| && o in s.objs && s.objs[o].ctx in s.ctxs
    ensures var c := s.objs[o].ctx;
      var m := s.ctxs[c].merged;
      Step(Put(s, t, On(Failed(ForFree(o)))), t, Free)
      == Put(s.(objs := s.objs - {o},
                ctxs := s.ctxs[c := s.ctxs[c].(merged := Counts(m.objs - 1, m.bytes - s.objs[o].size))]), t, On(Idle))
  {
  }

  lemma NoData(s: State, t: nat, bt: nat, why: Why)
    requires t < |s.pcs| == |s.caches|
    ensures Step(Put(s, t, On(Lookup(bt, why))), t, NoTdata) == Put(s, t, On(Failed(why)))
  {
  }

  // ----- Finding a context, and linking a counter into it

  /** Counter n, which counts nothing yet, is linked into context c and cached by thread t. */
  function Linked(s: State, t: nat, c: nat, n: nat): State
    requires t < |s.caches| && c in s.ctxs
  {
    s.(ctxs := s.ctxs[c := s.ctxs[c].(cnts := s.ctxs[c].cnts + {n})], cnts := s.cnts[n := Cnt(c, NONE)],
       caches := Caching(s, t, s.ctxs[c].bt, n))
  }

  /** The context is there: it gets a counter, and nlimbo is what it was. */
  lemma FindsAndLinks(s: State, t: nat, bt: nat, why: Why, id: nat, oom: bool, n: nat)
    requires t < |s.pcs| == |s.caches| && bt !in s.caches[t] && |s.caches[t]| < PROF_TCMAX && n !in s.cnts
    requires bt in s.bt2ctx && s.bt2ctx[bt] in s.ctxs && s.ctxs[s.bt2ctx[bt]].bt == bt
    ensures Step(Step(Step(Put(s, t, On(Lookup(bt, why))), t, Global(id, oom)), t, AllocCnt), t, Link(n))
            == Put(Linked(s, t, s.bt2ctx[bt], n), t, On(Ready(n, why)))
  {
    hide Step;
    var c := s.bt2ctx[bt];
    var x := s.ctxs[c];
    FindsGlobal(s, t, bt, why, id, oom);
    var s1 := s.(ctxs := s.ctxs[c := x.(nlimbo := x.nlimbo + 1)]);
    GetsCnt(s1, t, c, false, why);
    LinksCnt(s1, t, c, false, why, n);
    assert s1.ctxs[c := x.(cnts := x.cnts + {n})] == s.ctxs[c := x.(cnts := x.cnts + {n})];
  }

  /** A context with nothing but its backtrace. */
  function Fresh(s: State, bt: nat, id: nat): State {
    s.(ctxs := s.ctxs[id := Ctx(bt, 0, NONE, {}, 0)], bt2ctx := s.bt2ctx[bt := id])
  }

  /** It is not: it is made, gets a counter, and is in no limbo. */
  lemma MakesAndLinks(s: State, t: nat, bt: nat, why: Why, id: nat, n: nat)
    requires t < |s.pcs| == |s.caches| && bt !in s.caches[t] && |s.caches[t]| < PROF_TCMAX && n !in s.cnts
    requires bt !in s.bt2ctx && id !in s.ctxs
    ensures Step(Step(Step(Put(s, t, On(Lookup(bt, why))), t, Global(id, false)), t, AllocCnt), t, Link(n))
            == Put(Linked(Fresh(s, bt, id), t, id, n), t, On(Ready(n, why)))
  {
    hide Step;
    var x := Ctx(bt, 1, NONE, {}, 0);
    MakesGlobal(s, t, bt, why, id);
    var s1 := s.(ctxs := s.ctxs[id := x], bt2ctx := s.bt2ctx[bt := id]);
    GetsCnt(s1, t, id, true, why);
    LinksCnt(s1, t, id, true, why, n);
    var y := x.(cnts := x.cnts + {n}, nlimbo := 0);
    assert s1.ctxs[id := y] == s.ctxs[id := y] == Fresh(s, bt, id).ctxs[id := y];
  }

  // ----- Sampling an allocation

  /** What a thread caches for a backtrace is a counter of the context of that backtrace. */
  lemma CacheRight(s: State, t: nat, bt: nat)
    requires Inv(s) && t < |s.pcs| == |s.caches| && bt in s.caches[t]
    ensures var n := s.caches[t][bt]; n in s.cnts && s.cnts[n].ctx in s.ctxs && s.ctxs[s.cnts[n].ctx].bt == bt
  {
  }

  /**
   The thread has seen the backtrace: the object is recorded with its context, and the cached counter grows by one
   object of this size.
   */
  lemma SampledHit(s: State, t: nat, bt: nat, o: nat, size: nat)
    requires Calm(s, t) && o !in s.objs && t < |s.caches| && bt in s.caches[t]
    ensures var n := s.caches[t][bt];
      && n in s.cnts && s.cnts[n].ctx in s.ctxs && s.ctxs[s.cnts[n].ctx].bt == bt
      && var x := s.cnts[n];
        Run(s, [(t, StartAlloc(bt)), (t, Hit), (t, Malloc(o, size))])
        == s.(objs := s.objs[o := Obj(x.ctx, size)],
              cnts := s.cnts[n := Cnt(x.ctx, Counts(x.cur.objs + 1, x.cur.bytes + size))])
  {
    hide Step, Inv, Calm, Unfreed, Run;
    CalmPut(s, t);
    CacheRight(s, t, bt);
    var n := s.caches[t][bt];
    RunThree(s, t, StartAlloc(bt), Hit, Malloc(o, size));
    StartsAlloc(s, t, bt);
    Hits(s, t, bt, ForAlloc);
    Mallocs(s, t, n, o, size);
    assert s.pcs[t := On(Idle)] == s.pcs;
  }

  /** The context of a backtrace is in bt2ctx, and is one of that backtrace. */
  lemma GlobalRight(s: State, bt: nat)
    requires Inv(s) && bt in s.bt2ctx
    ensures s.bt2ctx[bt] in s.ctxs && s.ctxs[s.bt2ctx[bt]].bt == bt
  {
  }

  /** Another thread has seen it: a new counter is linked into the context, and nlimbo is what it was. */
  lemma SampledFound(s: State, t: nat, bt: nat, id: nat, oom: bool, n: nat, o: nat, size: nat)
    requires Calm(s, t) && o !in s.objs && t < |s.caches| && bt !in s.caches[t] && |s.caches[t]| < PROF_TCMAX
    requires bt in s.bt2ctx && n !in s.cnts
    ensures var c := s.bt2ctx[bt];
      && c in s.ctxs && s.ctxs[c].bt == bt
      && Run(s, [(t, StartAlloc(bt)), (t, Global(id, oom)), (t, AllocCnt), (t, Link(n)), (t, Malloc(o, size))])
         == s.(ctxs := s.ctxs[c := s.ctxs[c].(cnts := s.ctxs[c].cnts + {n})],
               cnts := s.cnts[n := Cnt(c, Counts(1, size))], objs := s.objs[o := Obj(c, size)],
               caches := Caching(s, t, bt, n))
  {
    hide Step, Inv, Calm, Unfreed, Run;
    CalmPut(s, t);
    GlobalRight(s, bt);
    var c := s.bt2ctx[bt];
    RunFive(s, t, StartAlloc(bt), Global(id, oom), AllocCnt, Link(n), Malloc(o, size));
    StartsAlloc(s, t, bt);
    FindsAndLinks(s, t, bt, ForAlloc, id, oom, n);
    Mallocs(Linked(s, t, c, n), t, n, o, size);
    Settles(Linked(s, t, c, n).cnts, s.cnts, n, Cnt(c, NONE), Cnt(c, Counts(1, size)));
    assert s.pcs[t := On(Idle)] == s.pcs;
  }

  lemma Settles(m: map<nat, Cnt>, m0: map<nat, Cnt>, n: nat, x: Cnt, y: Cnt)
    requires m == m0[n := x]
    ensures m[n := y] == m0[n := y]
  {
  }

  /** Nobody has: a context is made and entered in bt2ctx, with this counter and in no limbo. */
  lemma SampledNew(s: State, t: nat, bt: nat, id: nat, n: nat, o: nat, size: nat)
    requires Calm(s, t) && o !in s.objs && t < |s.caches| && |s.caches[t]| < PROF_TCMAX
    requires bt !in s.bt2ctx && id !in s.ctxs && n !in s.cnts
    ensures Run(s, [(t, StartAlloc(bt)), (t, Global(id, false)), (t, AllocCnt), (t, Link(n)), (t, Malloc(o, size))])
            == s.(ctxs := s.ctxs[id := Ctx(bt, 0, NONE, {n}, 0)], bt2ctx := s.bt2ctx[bt := id],
                  cnts := s.cnts[n := Cnt(id, Counts(1, size))], objs := s.objs[o := Obj(id, size)],
                  caches := Caching(s, t, bt, n))
  {
    hide Step, Inv, Calm, Unfreed, Run;
    CalmPut(s, t);
    NotCached(s, t, bt);
    RunFive(s, t, StartAlloc(bt), Global(id, false), AllocCnt, Link(n), Malloc(o, size));
    StartsAlloc(s, t, bt);
    MakesAndLinks(s, t, bt, ForAlloc, id, n);
    var s1 := Linked(Fresh(s, bt, id), t, id, n);
    assert Ctx(bt, 0, NONE, {}, 0).cnts + {n} == {n};
    assert s1.ctxs == s.ctxs[id := Ctx(bt, 0, NONE, {n}, 0)];
    Mallocs(s1, t, n, o, size);
    Settles(s1.cnts, s.cnts, n, Cnt(id, NONE), Cnt(id, Counts(1, size)));
    assert s.pcs[t := On(Idle)] == s.pcs;
  }

  lemma CachedMapped(s: State, t: nat, bt: nat)
    requires Inv(s) && t < |s.caches| && bt in s.caches[t]
    ensures bt in s.bt2ctx
  {
    CacheRight(s, t, bt);
    MappedOne(s, s.cnts[s.caches[t][bt]].ctx);
  }

  /** A backtrace without a context is in no cache. */
  lemma NotCached(s: State, t: nat, bt: nat)
    requires Inv(s) && t < |s.caches| && bt !in s.bt2ctx
    ensures bt !in s.caches[t]
  {
    if bt in s.caches[t] {
      CachedMapped(s, t, bt);
      assert false;
    }
  }

  // ----- Freeing a sampled object

  /** With the counter in the cache, it shrinks by the object. */
  lemma FreedHit(s: State, t: nat, o: nat)
    requires Calm(s, t) && o in s.objs && Unfreed(s, o) && t < |s.caches|
    requires s.objs[o].ctx in s.ctxs && s.ctxs[s.objs[o].ctx].bt in s.caches[t]
    ensures var c := s.objs[o].ctx;
      var n := s.caches[t][s.ctxs[c].bt];
      && n in s.cnts && s.cnts[n].ctx == c
      && var x := s.cnts[n].cur;
        Run(s, [(t, StartFree(o)), (t, Hit), (t, Free)])
        == s.(objs := s.objs - {o}, cnts := s.cnts[n := Cnt(c, Counts(x.objs - 1, x.bytes - s.objs[o].size))])
  {
    hide Step, Inv, Calm, Unfreed, Run;
    CalmPut(s, t);
    var c := s.objs[o].ctx;
    var bt := s.ctxs[c].bt;
    CacheRight(s, t, bt);
    var n := s.caches[t][bt];
    OneCtx(s, s.cnts[n].ctx, c);
    RunThree(s, t, StartFree(o), Hit, Free);
    StartsFree(s, t, o);
    Hits(s, t, bt, ForFree(o));
    FreesReady(s, t, n, o);
    assert s.pcs[t := On(Idle)] == s.pcs;
  }

  /** A backtrace has one context. */
  lemma OneCtx(s: State, c: nat, d: nat)
    requires Inv(s) && c in s.ctxs && d in s.ctxs && s.ctxs[c].bt == s.ctxs[d].bt
    ensures c == d
  {
  }

  /** With none, a new counter is linked, which then stands below zero. */
  lemma FreedFound(s: State, t: nat, o: nat, id: nat, oom: bool, n: nat)
    requires Calm(s, t) && o in s.objs && Unfreed(s, o) && t < |s.caches| && |s.caches[t]| < PROF_TCMAX && n !in s.cnts
    requires s.objs[o].ctx in s.ctxs && s.ctxs[s.objs[o].ctx].bt !in s.caches[t]
    ensures var c := s.objs[o].ctx;
      Run(s, [(t, StartFree(o)), (t, Global(id, oom)), (t, AllocCnt), (t, Link(n)), (t, Free)])
      == s.(objs := s.objs - {o}, ctxs := s.ctxs[c := s.ctxs[c].(cnts := s.ctxs[c].cnts + {n})],
            cnts := s.cnts[n := Cnt(c, Counts(-1, 0 - s.objs[o].size))],
            caches := Caching(s, t, s.ctxs[c].bt, n))
  {
    hide Step, Inv, Calm, Unfreed, Run, Caching;
    CalmPut(s, t);
    var c, y := s.objs[o].ctx, Cnt(s.objs[o].ctx, Counts(-1, 0 - s.objs[o].size));
    InMap(s, c);
    LinkedParts(s, t, c, n, o, y);
    var s1 := Linked(s, t, c, n);
    FreesLinked(s, t, o, id, oom, n, s1, y);
    RunParts(s, t, StartFree(o), Global(id, oom), AllocCnt, Link(n), Free,
        Put(s, t, On(Lookup(s.ctxs[c].bt, ForFree(o)))), Put(s1, t, On(Ready(n, ForFree(o)))),
        Put(s1.(objs := s.objs - {o}, cnts := s1.cnts[n := y]), t, On(Idle)));
  }

  lemma FreesLinked(s: State, t: nat, o: nat, id: nat, oom: bool, n: nat, s1: State, y: Cnt)
    requires t < |s.pcs| == |s.caches| && s.pcs[t] == On(Idle) && Unfreed(s, o) && o in s.objs
    requires s.objs[o].ctx in s.ctxs && n !in s.cnts && |s.caches[t]| < PROF_TCMAX
    requires var c := s.objs[o].ctx;
      && s.ctxs[c].bt !in s.caches[t] && s.ctxs[c].bt in s.bt2ctx && s.bt2ctx[s.ctxs[c].bt] == c
      && s1 == Linked(s, t, c, n) && y == Cnt(c, Counts(-1, 0 - s.objs[o].size))
    ensures var r := Put(s, t, On(Lookup(s.ctxs[s.objs[o].ctx].bt, ForFree(o))));
      && Step(s, t, StartFree(o)) == r && |s1.pcs| == |s.pcs|
      && Step(Step(Step(r, t, Global(id, oom)), t, AllocCnt), t, Link(n)) == Put(s1, t, On(Ready(n, ForFree(o))))
      && Step(Put(s1, t, On(Ready(n, ForFree(o)))), t, Free)
         == Put(s1.(objs := s.objs - {o}, cnts := s1.cnts[n := y]), t, On(Idle))
  {
    hide Step, Run, Unfreed, Linked, Caching;
    var c := s.objs[o].ctx;
    StartsFree(s, t, o);
    FindsAndLinks(s, t, s.ctxs[c].bt, ForFree(o), id, oom, n);
    LinkedParts(s, t, c, n, o, y);
    FreesReady(s1, t, n, o);
    assert Cnt(c, Counts(NONE.objs - 1, NONE.bytes - s.objs[o].size)) == y;
  }

  lemma LinkedParts(s: State, t: nat, c: nat, n: nat, o: nat, y: Cnt)
    requires t < |s.pcs| == |s.caches| && c in s.ctxs && s.pcs[t] == On(Idle)
    ensures var s1 := Linked(s, t, c, n);
      && s1.objs == s.objs && s1.pcs == s.pcs && |s1.caches| == |s.caches| && n in s1.cnts && s1.cnts[n] == Cnt(c, NONE)
      && Put(s1.(objs := s.objs - {o}, cnts := s1.cnts[n := y]), t, On(Idle))
         == s.(objs := s.objs - {o}, ctxs := s.ctxs[c := s.ctxs[c].(cnts := s.ctxs[c].cnts + {n})],
               cnts := s.cnts[n := y], caches := Caching(s, t, s.ctxs[c].bt, n))
  {
    assert s.pcs[t := On(Idle)] == s.pcs && s.cnts[n := Cnt(c, NONE)][n := y] == s.cnts[n := y];
  }

  lemma InMap(s: State, c: nat)
    requires Inv(s) && c in s.ctxs
    ensures s.ctxs[c].bt in s.bt2ctx && s.bt2ctx[s.ctxs[c].bt] == c
  {
  }

  lemma ObjectIn(s: State, o: nat)
    requires Inv(s) && o in s.objs
    ensures s.objs[o].ctx in s.ctxs
  {
  }

  /** If there is no counter to be had, the merged counts of the context shrink instead. */
  lemma FreedMerged(s: State, t: nat, o: nat)
    requires Calm(s, t) && o in s.objs && Unfreed(s, o)
    ensures var c := s.objs[o].ctx;
      && c in s.ctxs
      && var m := s.ctxs[c].merged;
        Run(s, [(t, StartFree(o)), (t, NoTdata), (t, Free)])
        == s.(objs := s.objs - {o},
              ctxs := s.ctxs[c := s.ctxs[c].(merged := Counts(m.objs - 1, m.bytes - s.objs[o].size))])
  {
    hide Step, Inv, Calm, Unfreed, Run;
    CalmPut(s, t);
    ObjectIn(s, o);
    RunThree(s, t, StartFree(o), NoTdata, Free);
    StartsFree(s, t, o);
    NoData(s, t, s.ctxs[s.objs[o].ctx].bt, ForFree(o));
    FreesFailed(s, t, o);
    assert s.pcs[t := On(Idle)] == s.pcs;
  }

  /** No thread frees an object that is not there. */
  lemma NobodyFrees(s: State, o: nat)
    requires Inv(s) && o !in s.objs
    ensures Unfreed(s, o)
  {
    hide Inv, PcOk, Frees;
    InvPcs(s);
    forall u | 0 <= u < |s.pcs|
      ensures o !in Frees(s.pcs[u])
    {
      MineOk(s, u);
      FreesThere(s, s.caches[u], s.pcs[u], o);
    }
  }

  lemma InvPcs(s: State)
    requires Inv(s)
    ensures PcsOk(s)
  {
  }

  lemma FreesThere(s: State, cache: map<nat, nat>, pc: Pc, o: nat)
    requires PcOk(s, cache, pc) && o !in s.objs
    ensures o !in Frees(pc)
  {
  }

  /** Sampling an object and freeing it again leaves everything as it was. */
  lemma SampledFreed(s: State, t: nat, bt: nat, o: nat, size: nat)
    requires Calm(s, t) && o !in s.objs && t < |s.caches| && bt in s.caches[t]
    ensures Run(s, [(t, StartAlloc(bt)), (t, Hit), (t, Malloc(o, size)), (t, StartFree(o)), (t, Hit), (t, Free)]) == s
  {
    hide Step, Inv, Calm, Unfreed, Run;
    CalmPut(s, t);
    CacheRight(s, t, bt);
    NobodyFrees(s, o);
    BackAgain(s, t, bt, o, size);
  }

  lemma SameObj(s: State, o: nat, n: nat, x: Cnt, y: Cnt, z: Obj)
    requires o !in s.objs && n in s.cnts && s.cnts[n] == x
    ensures s.objs[o := z] - {o} == s.objs && s.cnts[n := y][n := x] == s.cnts
  {
  }

  lemma BackAgain(s: State, t: nat, bt: nat, o: nat, size: nat)
    requires t < |s.pcs| == |s.caches| && s.pcs[t] == On(Idle) && Unfreed(s, o) && o !in s.objs && bt in s.caches[t]
    requires var n := s.caches[t][bt]; n in s.cnts && s.cnts[n].ctx in s.ctxs && s.ctxs[s.cnts[n].ctx].bt == bt
    ensures Run(s, [(t, StartAlloc(bt)), (t, Hit), (t, Malloc(o, size)), (t, StartFree(o)), (t, Hit), (t, Free)]) == s
  {
    hide Step, Run, Unfreed;
    assert s.pcs[t := On(Idle)] == s.pcs;
    var n := s.caches[t][bt];
    var x := s.cnts[n];
    StartsAlloc(s, t, bt);
    Hits(s, t, bt, ForAlloc);
    Mallocs(s, t, n, o, size);
    var y := Cnt(x.ctx, Counts(x.cur.objs + 1, x.cur.bytes + size));
    var s1 := s.(objs := s.objs[o := Obj(x.ctx, size)], cnts := s.cnts[n := y]);
    StillUnfreed(s, s1, o);
    StartsFree(s1, t, o);
    Hits(s1, t, bt, ForFree(o));
    FreesReady(s1, t, n, o);
    SameObj(s, o, n, x, y, Obj(x.ctx, size));
    assert Cnt(x.ctx, Counts(y.cur.objs - 1, y.cur.bytes - size)) == x;
    RunSix(s, t, StartAlloc(bt), Hit, Malloc(o, size), StartFree(o), Hit, Free);
  }

  lemma StillUnfreed(s: State, s1: State, o: nat)
    requires Unfreed(s, o) && s1.pcs == s.pcs
    ensures Unfreed(s1, o)
  {
  }

  // ----- Calls that fail

  lemma FailsGlobal(s: State, t: nat, bt: nat, why: Why, id: nat)
    requires t < |s.pcs| == |s.caches| && bt !in s.caches[t] && bt !in s.bt2ctx
    ensures Step(Put(s, t, On(Lookup(bt, why))), t, Global(id, true)) == Put(s, t, On(Failed(why)))
    ensures id !in s.ctxs && BUCKET_CELLS <= |s.bt2ctx|
        ==> Step(Put(s, t, On(Lookup(bt, why))), t, GlobalFail(id, bt)) == Put(s, t, On(Failed(why)))
  {
    NothingLost(s.bt2ctx, bt, id);
  }

  /** Without thread data, or without memory for the context or for its place in bt2ctx, nothing changes. */
  lemma FailedEarly(s: State, t: nat, bt: nat, id: nat)
    requires Calm(s, t)
    ensures Run(s, [(t, StartAlloc(bt)), (t, NoTdata), (t, Drop)]) == s
    ensures bt !in s.bt2ctx ==> Run(s, [(t, StartAlloc(bt)), (t, Global(id, true)), (t, Drop)]) == s
    ensures bt !in s.bt2ctx && id !in s.ctxs && BUCKET_CELLS <= |s.bt2ctx|
        ==> Run(s, [(t, StartAlloc(bt)), (t, GlobalFail(id, bt)), (t, Drop)]) == s
  {
    hide Step, Inv, Calm, Run;
    CalmPut(s, t);
    StartsAlloc(s, t, bt);
    NoData(s, t, bt, ForAlloc);
    DropsIt(s, t, Failed(ForAlloc));
    RunThree(s, t, StartAlloc(bt), NoTdata, Drop);
    if bt !in s.bt2ctx {
      NotCached(s, t, bt);
      FailsGlobal(s, t, bt, ForAlloc, id);
      RunThree(s, t, StartAlloc(bt), Global(id, true), Drop);
      RunThree(s, t, StartAlloc(bt), GlobalFail(id, bt), Drop);
    }
  }

  /** What a failure to get a counter leaves of the state. */
  function Left(s: State, c: nat, isNew: bool): State
    requires c in s.ctxs
  {
    if isNew then s else s.(ctxs := s.ctxs[c := s.ctxs[c].(leaked := s.ctxs[c].leaked + 1)])
  }

  /** No memory for a counter. */
  lemma FailsCnt(s: State, t: nat, c: nat, isNew: bool, why: Why)
    requires t < |s.pcs| == |s.caches| && c in s.ctxs && |s.caches[t]| < PROF_TCMAX
    ensures Step(Put(s, t, On(Got(c, isNew, why))), t, AllocFail)
            == Put(Left(s, c, isNew), t, if isNew then Destroying(c, Failed(why)) else On(Failed(why)))
  {
  }

  /** No memory for its place in the cache. */
  lemma FailsInsert(s: State, t: nat, c: nat, isNew: bool, why: Why, n: nat)
    requires t < |s.pcs| == |s.caches| && c in s.ctxs && n !in s.cnts
    requires s.ctxs[c].bt !in s.caches[t] && BUCKET_CELLS <= |s.caches[t]|
    ensures Step(Put(s, t, On(GotCnt(c, isNew, why))), t, InsertFail(n, s.ctxs[c].bt))
            == Put(Left(s, c, isNew), t, if isNew then Destroying(c, Failed(why)) else On(Failed(why)))
  {
    hide FailedInsert;
    NothingLost(s.caches[t], s.ctxs[c].bt, n);
    assert s.caches[t := s.caches[t]] == s.caches;
  }

  lemma Destroys(s: State, t: nat, id: nat, bt: nat, next: Place)
    requires t < |s.pcs| == |s.caches| && id !in s.ctxs && bt !in s.bt2ctx
    ensures var s1 := s.(ctxs := s.ctxs[id := Ctx(bt, 1, NONE, {}, 0)], bt2ctx := s.bt2ctx[bt := id]);
      Step(Put(s1, t, Destroying(id, next)), t, DestroyCtx) == Put(s, t, On(next))
  {
    assert s.ctxs[id := Ctx(bt, 1, NONE, {}, 0)] - {id} == s.ctxs && s.bt2ctx[bt := id] - {bt} == s.bt2ctx;
  }

  /** A context made for a call that then fails is taken away again, and everything is as it was. */
  lemma FailedNew(s: State, t: nat, bt: nat, id: nat, n: nat)
    requires Calm(s, t) && bt !in s.bt2ctx && id !in s.ctxs && t < |s.caches| && |s.caches[t]| < PROF_TCMAX
    ensures Run(s, [(t, StartAlloc(bt)), (t, Global(id, false)), (t, AllocFail), (t, DestroyCtx), (t, Drop)]) == s
    ensures n !in s.cnts && BUCKET_CELLS <= |s.caches[t]|
        ==> Run(s, [(t, StartAlloc(bt)), (t, Global(id, false)), (t, AllocCnt), (t, InsertFail(n, bt)), (t, DestroyCtx),
                    (t, Drop)]) == s
  {
    hide Step, Inv, Calm, Run;
    CalmPut(s, t);
    NotCached(s, t, bt);
    StartsAlloc(s, t, bt);
    MakesGlobal(s, t, bt, ForAlloc, id);
    var s1 := s.(ctxs := s.ctxs[id := Ctx(bt, 1, NONE, {}, 0)], bt2ctx := s.bt2ctx[bt := id]);
    FailsCnt(s1, t, id, true, ForAlloc);
    GetsCnt(s1, t, id, true, ForAlloc);
    Destroys(s, t, id, bt, Failed(ForAlloc));
    DropsIt(s, t, Failed(ForAlloc));
    RunFive(s, t, StartAlloc(bt), Global(id, false), AllocFail, DestroyCtx, Drop);
    if n !in s.cnts && BUCKET_CELLS <= |s.caches[t]| {
      FailsInsert(s1, t, id, true, ForAlloc, n);
      RunSix(s, t, StartAlloc(bt), Global(id, false), AllocCnt, InsertFail(n, bt), DestroyCtx, Drop);
    }
  }

  /** On a context that was there the limbo count stays raised, with nobody to take it back. */
  lemma FailedOld(s: State, t: nat, bt: nat, id: nat, oom: bool)
    requires Calm(s, t) && bt in s.bt2ctx && t < |s.caches| && bt !in s.caches[t] && |s.caches[t]| < PROF_TCMAX
    ensures var c := s.bt2ctx[bt];
      && c in s.ctxs
      && Run(s, [(t, StartAlloc(bt)), (t, Global(id, oom)), (t, AllocFail), (t, Drop)])
         == s.(ctxs := s.ctxs[c := s.ctxs[c].(nlimbo := s.ctxs[c].nlimbo + 1, leaked := s.ctxs[c].leaked + 1)])
  {
    hide Step, Inv, Calm, Run;
    CalmPut(s, t);
    GlobalRight(s, bt);
    var c := s.bt2ctx[bt];
    StartsAlloc(s, t, bt);
    FindsGlobal(s, t, bt, ForAlloc, id, oom);
    var s1 := s.(ctxs := s.ctxs[c := s.ctxs[c].(nlimbo := s.ctxs[c].nlimbo + 1)]);
    FailsCnt(s1, t, c, false, ForAlloc);
    var s2 := s.(ctxs := s.ctxs[c := s.ctxs[c].(nlimbo := s.ctxs[c].nlimbo + 1, leaked := s.ctxs[c].leaked + 1)]);
    assert s1.(ctxs := s1.ctxs[c := s2.ctxs[c]]) == s2;
    DropsIt(s2, t, Failed(ForAlloc));
    RunFour(s, t, StartAlloc(bt), Global(id, oom), AllocFail, Drop);
    assert s.pcs[t := On(Idle)] == s.pcs;
  }

  // ----- Giving up a counter

  /** Nothing refers to the context of counter n but this counter. */
  ghost predicate LastOf(s: State, n: nat)
    requires n in s.cnts && s.cnts[n].ctx in s.ctxs
  {
    var c := s.cnts[n].ctx;
    && OnlyCounter(s.cnts, n, c) && !HasObject(s, c) && !Held(s, c) && c !in s.dumping && s.ctxs[c].leaked == 0
  }

  ghost predicate OnlyCounter(cnts: map<nat, Cnt>, n: nat, c: nat) {
    forall k :: k in cnts && k != n ==> cnts[k].ctx != c
  }

  lemma CountOnly(cnts: map<nat, Cnt>, n: nat, c: nat)
    requires n in cnts && cnts[n].ctx == c && OnlyCounter(cnts, n, c)
    ensures CountLinked(cnts, c) == cnts[n].cur
  {
    hide CountLinked;
    LinkedRemove(cnts, n);
    NothingRefers(map[], cnts - {n}, c);
  }

  lemma NoLimbo(s: State, c: nat)
    requires LimboExact(s) && c in s.ctxs
    ensures s.ctxs[c].nlimbo == 0 <==> !Held(s, c) && c !in s.dumping && s.ctxs[c].leaked == 0
  {
    if !Held(s, c) {
      HoldersZero(s.pcs, c);
    } else {
      var u :| 0 <= u < |s.pcs| && Holds(s.pcs[u], c) > 0;
      HoldersAtLeast(s.pcs, u, c);
    }
  }

  lemma NoSamples(objs: map<nat, Obj>, c: nat)
    ensures CountSampled(objs, c).objs == 0 <==> forall o :: o in objs ==> objs[o].ctx != c
    ensures CountSampled(objs, c).objs == 0 ==> CountSampled(objs, c).bytes == 0
  {
    if CountSampled(objs, c).objs == 0 {
      NoObjects(objs, c);
    }
    if forall o :: o in objs ==> objs[o].ctx != c {
      NothingRefers(objs, map[], c);
    }
  }

  /** What prof_ctx_merge tests is that nothing refers to the context any more. */
  lemma UnusedMeans(s: State, n: nat)
    requires Inv(s) && n in s.cnts && s.cnts[n].ctx in s.ctxs
    ensures var x := s.ctxs[s.cnts[n].ctx];
      x.cnts - {n} == {} && x.merged.objs + s.cnts[n].cur.objs == 0 && x.nlimbo == 0 <==> LastOf(s, n)
    ensures var x := s.ctxs[s.cnts[n].ctx];
      LastOf(s, n) ==> x.merged.bytes + s.cnts[n].cur.bytes == 0 && x.leaked == 0 && x.bt in s.bt2ctx
  {
    MappedOne(s, s.cnts[n].ctx);
    var c := s.cnts[n].ctx;
    NoLimbo(s, c);
    NoSamples(s.objs, c);
    AccountsOf(s, c);
    OnlyMeans(s, n);
    hide Inv, Held, CountSampled, CountLinked, Holders, OnlyCounter;
    if OnlyCounter(s.cnts, n, c) {
      CountOnly(s.cnts, n, c);
    }
  }

  lemma OnlyMeans(s: State, n: nat)
    requires CntsLinked(s) && n in s.cnts && s.cnts[n].ctx in s.ctxs
    ensures s.ctxs[s.cnts[n].ctx].cnts - {n} == {} <==> OnlyCounter(s.cnts, n, s.cnts[n].ctx)
  {
    var c := s.cnts[n].ctx;
    if OnlyCounter(s.cnts, n, c) {
      forall k | k in s.ctxs[c].cnts
        ensures k == n
      {
        assert k in s.cnts && s.cnts[k].ctx == c;
      }
    } else {
      var k :| k in s.cnts && k != n && s.cnts[k].ctx == c;
      assert k in s.ctxs[c].cnts - {n};
    }
  }

  /** Thread t gives up the counter it caches for victim: its context keeps the counts, or goes if that was the last. */
  ghost function GivenUp(s: State, t: nat, victim: nat): State
    requires t < |s.caches| && victim in s.caches[t] && s.caches[t][victim] in s.cnts
    requires s.cnts[s.caches[t][victim]].ctx in s.ctxs
  {
    var n := s.caches[t][victim];
    var c, d := s.cnts[n].ctx, s.cnts[n].cur;
    var x := s.ctxs[c];
    var s1 := s.(cnts := s.cnts - {n}, caches := s.caches[t := s.caches[t] - {victim}]);
    if LastOf(s, n) then s1.(ctxs := s.ctxs - {c}, bt2ctx := s.bt2ctx - {x.bt})
    else
      s1.(ctxs := s.ctxs[c := x.(merged := Counts(x.merged.objs + d.objs, x.merged.bytes + d.bytes),
                                 cnts := x.cnts - {n})])
  }

  /** Thread t has merged that counter, and then destroyed the context if it is to go. */
  ghost predicate GivesUp(s: State, t: nat, victim: nat, a: Action, next: Place)
    requires t < |s.pcs| == |s.caches| && victim in s.caches[t] && s.caches[t][victim] in s.cnts
    requires s.cnts[s.caches[t][victim]].ctx in s.ctxs
  {
    var n := s.caches[t][victim];
    var s1, s2 := Step(s, t, a), GivenUp(s, t, victim);
    && s2.pcs == s.pcs
    && if LastOf(s, n) then
        |s1.pcs| == |s.pcs| && s1.pcs[t] == Destroying(s.cnts[n].ctx, next)
        && Step(s1, t, DestroyCtx) == Put(s2, t, On(next))
      else s1 == Put(s2, t, On(next))
  }

  lemma MergeStays(s: State, t: nat, victim: nat, next: Place)
    requires t < |s.pcs| == |s.caches| && victim in s.caches[t] && s.caches[t][victim] in s.cnts
    requires s.cnts[s.caches[t][victim]].ctx in s.ctxs && !LastOf(s, s.caches[t][victim])
    requires var n := s.caches[t][victim];
      var x := s.ctxs[s.cnts[n].ctx];
      !(x.cnts - {n} == {} && x.merged.objs + s.cnts[n].cur.objs == 0 && x.nlimbo == 0)
    ensures MergeStep(s, t, victim, next) == Put(GivenUp(s, t, victim), t, On(next))
  {
    hide LastOf;
  }

  lemma MergeGoes(s: State, t: nat, victim: nat, next: Place)
    requires t < |s.pcs| == |s.caches| && victim in s.caches[t] && s.caches[t][victim] in s.cnts
    requires s.cnts[s.caches[t][victim]].ctx in s.ctxs && LastOf(s, s.caches[t][victim])
    requires var n := s.caches[t][victim];
      var x := s.ctxs[s.cnts[n].ctx];
      && x.cnts - {n} == {} && x.merged.objs + s.cnts[n].cur.objs == 0 && x.nlimbo == 0
      && x.merged.bytes + s.cnts[n].cur.bytes == 0 && x.bt in s.bt2ctx
    ensures var s1 := MergeStep(s, t, victim, next);
      && |s1.pcs| == |s.pcs| == |s1.caches| && s1.pcs[t] == Destroying(s.cnts[s.caches[t][victim]].ctx, next)
      && DestroyStep(s1, t) == Put(GivenUp(s, t, victim), t, On(next))
  {
    hide LastOf;
    var n := s.caches[t][victim];
    var c := s.cnts[n].ctx;
    var y := Ctx(s.ctxs[c].bt, 1, NONE, {}, s.ctxs[c].leaked);
    assert s.ctxs[c := y] - {c} == s.ctxs - {c};
    assert MergeStep(s, t, victim, next).ctxs == s.ctxs[c := y];
  }

  /** A thread that merges a counter: its context keeps the counts, or is destroyed if nothing else refers to it. */
  lemma Gives(s: State, t: nat, victim: nat, a: Action, next: Place)
    requires Inv(s) && Merges(s, t, victim, next) && (next.Idle? || |s.caches[t]| == PROF_TCMAX)
    requires a == if next.Idle? then ExitMerge(victim) else Flush(victim)
    ensures s.caches[t][victim] in s.cnts && s.cnts[s.caches[t][victim]].ctx in s.ctxs
    ensures GivesUp(s, t, victim, a, next)
  {
    hide Inv, Step, MergeStep, DestroyStep, LastOf, GivenUp;
    CachedThere(s, t, victim);
    var n := s.caches[t][victim];
    UnusedMeans(s, n);
    MergesBy(s, t, victim, a, next);
    GivenUpPcs(s, t, victim);
    if LastOf(s, n) {
      MergeGoes(s, t, victim, next);
      DestroysBy(Step(s, t, a), t);
    } else {
      MergeStays(s, t, victim, next);
    }
  }

  lemma MergesBy(s: State, t: nat, victim: nat, a: Action, next: Place)
    requires Merges(s, t, victim, next) && (next.Idle? || |s.caches[t]| == PROF_TCMAX)
    requires a == if next.Idle? then ExitMerge(victim) else Flush(victim)
    ensures Step(s, t, a) == MergeStep(s, t, victim, next)
  {
    hide MergeStep;
  }

  lemma DestroysBy(s: State, t: nat)
    requires t < |s.pcs| == |s.caches| && s.pcs[t].Destroying?
    ensures Step(s, t, DestroyCtx) == DestroyStep(s, t)
  {
    hide DestroyStep;
  }

  lemma GivenUpPcs(s: State, t: nat, victim: nat)
    requires t < |s.caches| && victim in s.caches[t] && s.caches[t][victim] in s.cnts
    requires s.cnts[s.caches[t][victim]].ctx in s.ctxs
    ensures GivenUp(s, t, victim).pcs == s.pcs
  {
    hide LastOf;
  }

  lemma CachedThere(s: State, t: nat, victim: nat)
    requires Inv(s) && t < |s.caches| && victim in s.caches[t]
    ensures s.caches[t][victim] in s.cnts && s.cnts[s.caches[t][victim]].ctx in s.ctxs
  {
  }

  /** Thread exit merges the counters it caches one by one, each as a call of its own. */
  lemma Exited(s: State, t: nat, victim: nat)
    requires Calm(s, t) && t < |s.caches| && victim in s.caches[t]
    ensures s.caches[t][victim] in s.cnts && s.cnts[s.caches[t][victim]].ctx in s.ctxs
    ensures var exit := (t, ExitMerge(victim));
      Run(s, if LastOf(s, s.caches[t][victim]) then [exit, (t, DestroyCtx)] else [exit]) == GivenUp(s, t, victim)
  {
    hide Step, Inv, Calm, Run, LastOf, GivenUp;
    CalmPut(s, t);
    Gives(s, t, victim, ExitMerge(victim), Idle);
    var s2 := GivenUp(s, t, victim);
    assert s2.pcs[t := On(Idle)] == s2.pcs;
    if LastOf(s, s.caches[t][victim]) {
      RunTwo(s, t, ExitMerge(victim), DestroyCtx);
    } else {
      RunOne(s, [], t, ExitMerge(victim));
      assert [] + [(t, ExitMerge(victim))] == [(t, ExitMerge(victim))];
      RunNone(s);
    }
  }

  lemma RunNone(s: State)
    ensures Run(s, []) == s
  {
  }

  /** A full cache gives up one of its counters before the new one is linked. */
  lemma Flushed(s: State, t: nat, victim: nat)
    requires Inv(s) && t < |s.pcs| && s.pcs[t].On? && s.pcs[t].place.Got? && t < |s.caches|
    requires victim in s.caches[t] && |s.caches[t]| == PROF_TCMAX
    ensures s.caches[t][victim] in s.cnts && s.cnts[s.caches[t][victim]].ctx in s.ctxs && |s.caches| == |s.pcs|
    ensures var place := s.pcs[t].place;
      GivesUp(s, t, victim, Flush(victim), GotCnt(place.ctx, place.isNew, place.why))
  {
    hide Inv, GivesUp;
    SameLengths(s);
    Gives(s, t, victim, Flush(victim), GotCnt(s.pcs[t].place.ctx, s.pcs[t].place.isNew, s.pcs[t].place.why));
  }

  // ----- Dumps

  lemma Prepares(s: State, t: nat, c: nat)
    requires t < |s.pcs| == |s.caches| && c in s.ctxs && c in s.bt2ctx.Values && c !in s.dumping
    ensures Step(s, t, DumpPrep(c))
            == s.(ctxs := s.ctxs[c := s.ctxs[c].(nlimbo := s.ctxs[c].nlimbo + 1)], dumping := s.dumping + {c})
  {
  }

  lemma CleansUp(s: State, t: nat, c: nat)
    requires t < |s.pcs| == |s.caches| && c in s.ctxs && c in s.dumping
    ensures Step(s, t, DumpCleanup(c))
            == s.(ctxs := s.ctxs[c := s.ctxs[c].(nlimbo := s.ctxs[c].nlimbo - 1)], dumping := s.dumping - {c})
  {
  }

  /** While a dump reads a context it holds one limbo count of it, and gives it back. */
  lemma Dumped(s: State, t: nat, c: nat)
    requires Inv(s) && t < |s.pcs| && c in s.bt2ctx.Values && c !in s.dumping
    ensures c in s.ctxs
    ensures Step(s, t, DumpPrep(c))
            == s.(ctxs := s.ctxs[c := s.ctxs[c].(nlimbo := s.ctxs[c].nlimbo + 1)], dumping := s.dumping + {c})
    ensures Run(s, [(t, DumpPrep(c)), (t, DumpCleanup(c))]) == s
  {
    hide Run, Step, Inv;
    SameLengths(s);
    var bt :| bt in s.bt2ctx && s.bt2ctx[bt] == c;
    GlobalRight(s, bt);
    Prepares(s, t, c);
    var x := s.ctxs[c];
    var s1 := s.(ctxs := s.ctxs[c := x.(nlimbo := x.nlimbo + 1)], dumping := s.dumping + {c});
    CleansUp(s1, t, c);
    assert s1.ctxs[c := x] == s.ctxs && s.dumping + {c} - {c} == s.dumping;
    RunTwo(s, t, DumpPrep(c), DumpCleanup(c));
  }

  // ----- Every step

  ghost predicate Fails(pc: Pc) {
    if pc.On? then pc.place.Failed? else pc.next.Failed?
  }

  /** Only thread t may be elsewhere: at place, or about to destroy a context and then to go on there. */
  ghost predicate Moves(s: State, s': State, t: nat, place: Place)
    requires t < |s.pcs|
  {
    |s'.pcs| == |s.pcs| && (forall u :: 0 <= u < |s.pcs| && u != t ==> s'.pcs[u] == s.pcs[u])
    && (s'.pcs[t] == s.pcs[t] || s'.pcs[t] == On(place) || (s'.pcs[t].Destroying? && s'.pcs[t].next == place))
  }

  lemma LookupMoves(s: State, t: nat, id: nat, oom: bool, lost: nat)
    requires t < |s.pcs| && s.pcs[t].On? && s.pcs[t].place.Lookup?
    ensures var place, s' := s.pcs[t].place, GlobalStep(s, t, id, oom);
      if place.bt in s.bt2ctx then Moves(s, s', t, Got(s.bt2ctx[place.bt], false, place.why))
      else if oom then Moves(s, s', t, Failed(place.why)) else Moves(s, s', t, Got(id, true, place.why))
    ensures var place, s' := s.pcs[t].place, GlobalFailStep(s, t, id, lost);
      if CanFail(s.bt2ctx, place.bt, lost) then Moves(s, s', t, Failed(place.why)) else s' == s
  {
    hide CanFail, FailedInsert;
  }

  lemma CntMoves(s: State, t: nat, n: nat, lost: nat)
    requires t < |s.pcs| == |s.caches| && s.pcs[t].On? && s.pcs[t].place.GotCnt?
    ensures Moves(s, LinkStep(s, t, n), t, Ready(n, s.pcs[t].place.why))
    ensures var place, s' := s.pcs[t].place, InsertFailStep(s, t, n, lost);
      if place.ctx in s.ctxs && CanFail(s.caches[t], s.ctxs[place.ctx].bt, lost) then Moves(s, s', t, Failed(place.why))
      else s'.pcs == s.pcs
  {
    hide CanFail, FailedInsert;
  }

  lemma FailMoves(s: State, t: nat, c: nat, isNew: bool, why: Why)
    requires t < |s.pcs|
    ensures Moves(s, FailStep(s, t, c, isNew, why), t, Failed(why))
  {
  }

  lemma MergeMoves(s: State, t: nat, victim: nat, next: Place)
    requires t < |s.pcs| == |s.caches| && victim in s.caches[t]
    ensures Moves(s, MergeStep(s, t, victim, next), t, next)
  {
  }

  lemma CountMoves(s: State, t: nat, o: nat, size: nat)
    requires t < |s.pcs| && s.pcs[t].On? && (s.pcs[t].place.Ready? || s.pcs[t].place.Failed?)
    ensures s.pcs[t].place.Ready? ==> Moves(s, MallocStep(s, t, o, size), t, Idle)
    ensures s.pcs[t].place.why.ForFree? ==> Moves(s, FreeStep(s, t), t, Idle)
  {
  }

  lemma DestroyMoves(s: State, t: nat)
    requires t < |s.pcs| && s.pcs[t].Destroying?
    ensures var s' := DestroyStep(s, t); s'.pcs == s.pcs || s'.pcs == s.pcs[t := On(s.pcs[t].next)]
  {
  }

  /** Where an action takes a thread that is at a place, if it does anything. */
  ghost function Target(s: State, t: nat, a: Action): Place
    requires t < |s.pcs| == |s.caches| && s.pcs[t].On?
  {
    var place, cache := s.pcs[t].place, s.caches[t];
    match (place, a)
    case (Idle, StartAlloc(bt)) => Lookup(bt, ForAlloc)
    case (Idle, StartFree(o)) =>
      if o in s.objs && s.objs[o].ctx in s.ctxs then Lookup(s.ctxs[s.objs[o].ctx].bt, ForFree(o)) else Idle
    case (Lookup(_, why), NoTdata) => Failed(why)
    case (Lookup(bt, why), Hit) => if bt in cache then Ready(cache[bt], why) else place
    case (Lookup(bt, why), Global(id, oom)) =>
      if bt in cache then place
      else if bt in s.bt2ctx then Got(s.bt2ctx[bt], false, why)
      else if oom then Failed(why)
      else Got(id, true, why)
    case (Lookup(bt, why), GlobalFail(_, lost)) =>
      if bt !in cache && CanFail(s.bt2ctx, bt, lost) then Failed(why) else place
    case (Got(c, isNew, why), Flush(_)) => GotCnt(c, isNew, why)
    case (Got(c, isNew, why), AllocCnt) => GotCnt(c, isNew, why)
    case (Got(_, _, why), AllocFail) => if |cache| < PROF_TCMAX then Failed(why) else place
    case (GotCnt(c, _, why), InsertFail(_, lost)) =>
      if c in s.ctxs && CanFail(cache, s.ctxs[c].bt, lost) then Failed(why) else place
    case (GotCnt(_, _, why), Link(n)) => Ready(n, why)
    case (Ready(_, _), _) => Idle
    case (Failed(_), _) => Idle
    case _ => place
  }

  lemma SearchMoves(s: State, t: nat, a: Action)
    requires t < |s.pcs| == |s.caches| && s.pcs[t].On? && s.pcs[t].place.Lookup?
    ensures Moves(s, Step(s, t, a), t, Target(s, t, a))
    ensures Target(s, t, a) == s.pcs[t].place ==> Step(s, t, a).pcs == s.pcs
  {
    hide FailedInsert, GlobalStep, GlobalFailStep, MergeStep, FailStep, InsertFailStep, LinkStep, MallocStep, FreeStep;
    if a.Global? {
      LookupMoves(s, t, a.id, a.oom, 0);
    } else if a.GlobalFail? {
      LookupMoves(s, t, a.id, false, a.lost);
    }
  }

  lemma IdleMoves(s: State, t: nat, a: Action)
    requires t < |s.pcs| == |s.caches| && s.pcs[t] == On(Idle)
    ensures Moves(s, Step(s, t, a), t, Target(s, t, a))
  {
    hide MergeStep, Frees;
    if a.ExitMerge? && a.victim in s.caches[t] {
      MergeMoves(s, t, a.victim, Idle);
    }
  }

  lemma GotMoves(s: State, t: nat, a: Action)
    requires t < |s.pcs| == |s.caches| && s.pcs[t].On? && s.pcs[t].place.Got?
    ensures Moves(s, Step(s, t, a), t, Target(s, t, a))
    ensures Target(s, t, a) == s.pcs[t].place ==> Step(s, t, a).pcs == s.pcs
  {
    hide MergeStep, FailStep, GlobalStep, GlobalFailStep, InsertFailStep, LinkStep, MallocStep, FreeStep, FailedInsert;
    var place := s.pcs[t].place;
    if a.AllocFail? {
      FailMoves(s, t, place.ctx, place.isNew, place.why);
    } else if a.Flush? && a.victim in s.caches[t] {
      MergeMoves(s, t, a.victim, GotCnt(place.ctx, place.isNew, place.why));
    }
  }

  lemma LinkMoves(s: State, t: nat, a: Action)
    requires t < |s.pcs| == |s.caches| && s.pcs[t].On? && s.pcs[t].place.GotCnt?
    ensures Moves(s, Step(s, t, a), t, Target(s, t, a))
    ensures Target(s, t, a) == s.pcs[t].place ==> Step(s, t, a).pcs == s.pcs
  {
    hide FailedInsert, InsertFailStep, LinkStep, MergeStep, FailStep, GlobalStep, GlobalFailStep, MallocStep, FreeStep;
    if a.Link? {
      CntMoves(s, t, a.cnt, 0);
    } else if a.InsertFail? {
      CntMoves(s, t, a.cnt, a.lost);
    }
  }

  lemma LateMoves(s: State, t: nat, a: Action)
    requires t < |s.pcs| == |s.caches| && s.pcs[t].On? && (s.pcs[t].place.Ready? || s.pcs[t].place.Failed?)
    ensures Moves(s, Step(s, t, a), t, Target(s, t, a))
  {
    hide MallocStep, FreeStep;
    if a.Malloc? {
      CountMoves(s, t, a.obj, a.size);
    } else if a.Free? {
      CountMoves(s, t, 0, 0);
    }
  }

  lemma IdleNext(s: State, t: nat, a: Action)
    requires t < |s.pcs| == |s.caches| && s.pcs[t].On? && (s.pcs[t].place.Ready? || s.pcs[t].place.Failed?)
    ensures Target(s, t, a) == Idle
  {
  }

  lemma StepMoves(s: State, t: nat, a: Action)
    requires t < |s.pcs| == |s.caches| && s.pcs[t].On?
    ensures Moves(s, Step(s, t, a), t, Target(s, t, a))
    ensures Target(s, t, a) == s.pcs[t].place != Idle ==> Step(s, t, a).pcs == s.pcs
  {
    hide Step, Target;
    var place := s.pcs[t].place;
    if place.GotCnt? {
      LinkMoves(s, t, a);
    } else if place.Ready? || place.Failed? {
      LateMoves(s, t, a);
      assert Target(s, t, a) == Idle by {
        IdleNext(s, t, a);
      }
    } else if place.Lookup? {
      SearchMoves(s, t, a);
    } else if place.Got? {
      GotMoves(s, t, a);
    } else {
      IdleMoves(s, t, a);
    }
  }

  lemma DestroyingMoves(s: State, t: nat, a: Action)
    requires t < |s.pcs| == |s.caches| && s.pcs[t].Destroying?
    ensures Step(s, t, a).pcs == s.pcs || Step(s, t, a).pcs == s.pcs[t := On(s.pcs[t].next)]
  {
    hide DestroyStep;
    DestroyMoves(s, t);
  }

  /**
   A lookup comes to nothing only for want of thread data, or of memory for a context that nobody has made yet, for its
   place in bt2ctx, for a counter, or for its place in the cache.
   */
  lemma FailsOnly(s: State, t: nat, a: Action, u: nat)
    requires t < |s.pcs| == |s.caches| && u < |s.pcs| == |Step(s, t, a).pcs|
    requires !Fails(s.pcs[u]) && Fails(Step(s, t, a).pcs[u])
    ensures u == t && s.pcs[t].On?
    ensures var place := s.pcs[t].place;
      || (place.Lookup? && a.NoTdata?)
      || (place.Lookup? && a.Global? && a.oom && place.bt !in s.bt2ctx && place.bt !in s.caches[t])
      || (place.Lookup? && a.GlobalFail? && CanFail(s.bt2ctx, place.bt, a.lost) && place.bt !in s.caches[t])
      || (place.Got? && a.AllocFail? && |s.caches[t]| < PROF_TCMAX)
      || (place.GotCnt? && a.InsertFail? && place.ctx in s.ctxs
          && CanFail(s.caches[t], s.ctxs[place.ctx].bt, a.lost))
  {
    hide Step;
    if s.pcs[t].Destroying? {
      DestroyingMoves(s, t, a);
    } else {
      StepMoves(s, t, a);
    }
  }

  /** A measure of what a call still has before it. */
  function RankAt(place: Place): nat {
    match place
    case Idle => 0
    case Lookup(_, _) => 8
    case Got(_, _, _) => 6
    case GotCnt(_, _, _) => 4
    case Ready(_, _) => 2
    case Failed(_) => 2
  }

  function Rank(pc: Pc): nat {
    if pc.On? then RankAt(pc.place) else RankAt(pc.next) + 1
  }

  /** A call ends: each step of its thread that does anything to where it is brings it closer to the end. */
  lemma CallEnds(s: State, t: nat, a: Action, s': State)
    requires t < |s.pcs| == |s.caches| && s.pcs[t] != On(Idle) && s' == Step(s, t, a)
    ensures |s'.pcs| == |s.pcs| && (s'.pcs[t] == s.pcs[t] || Rank(s'.pcs[t]) < Rank(s.pcs[t]))
  {
    hide Step;
    if s.pcs[t].Destroying? {
      DestroyingMoves(s, t, a);
    } else {
      StepMoves(s, t, a);
    }
  }
}
