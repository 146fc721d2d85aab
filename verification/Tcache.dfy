/**
 One bin of a thread cache: a stack of cached objects, filled from the thread's arena and flushed to the arenas
 that own the objects, and the two figures by which the collector sizes it.
 */
module Tcache {

  import opened Machine

  /** An object and the arena whose lock was held when it was given back. */
  datatype Freed = Freed(arena: nat, ptr: nat)

  type Owner = nat -> nat

  // ----- the order of a flush -----

  function Of(s: seq<nat>, owner: Owner, a: nat): seq<nat> {
    if s == [] then [] else Of(s[..|s| - 1], owner, a) + if owner(s[|s| - 1]) == a then [s[|s| - 1]] else []
  }

  function Others(s: seq<nat>, owner: Owner, a: nat): (r: seq<nat>)
    ensures |r| <= |s|
  {
    if s == [] then [] else Others(s[..|s| - 1], owner, a) + if owner(s[|s| - 1]) != a then [s[|s| - 1]] else []
  }

  /** The first object's arena has at least one. */
  lemma {:induction false} OthersFewer(s: seq<nat>, owner: Owner)
    requires s != []
    ensures |Others(s, owner, owner(s[0]))| < |s|
  {
    if |s| > 1 {
      OthersFewer(s[..|s| - 1], owner);
    }
  }

  /** The arenas in the order in which a flush locks them. */
  function Arenas(s: seq<nat>, owner: Owner): seq<nat>
    decreases |s|
  {
    if s == [] then [] else
      OthersFewer(s, owner);
      [owner(s[0])] + Arenas(Others(s, owner, owner(s[0])), owner)
  }

  function Tagged(a: nat, s: seq<nat>): (f: seq<Freed>)
    ensures |f| == |s|
  {
    seq(|s|, k requires 0 <= k < |s| => Freed(a, s[k]))
  }

  /** What a flush gives back: arena by arena, and the objects of each in their order. */
  function FlushLog(s: seq<nat>, owner: Owner): seq<Freed>
    decreases |s|
  {
    if s == [] then [] else
      OthersFewer(s, owner);
      Tagged(owner(s[0]), Of(s, owner, owner(s[0]))) + FlushLog(Others(s, owner, owner(s[0])), owner)
  }

  function Ptrs(f: seq<Freed>): (p: seq<nat>)
    ensures |p| == |f|
  {
    seq(|f|, k requires 0 <= k < |f| => f[k].ptr)
  }

  lemma {:induction false} Split(s: seq<nat>, owner: Owner, a: nat)
    ensures multiset(Of(s, owner, a)) + multiset(Others(s, owner, a)) == multiset(s)
  {
    if s != [] {
      var h, x := s[..|s| - 1], s[|s| - 1];
      Split(h, owner, a);
      assert multiset(s) == multiset(h) + multiset{x} by {
        assert s == h + [x];
      }
    }
  }

  lemma SplitNone(owner: Owner, a: nat)
    ensures Of([], owner, a) == [] && Others([], owner, a) == []
  {
  }

  lemma SplitMore(s: seq<nat>, owner: Owner, a: nat, i: nat)
    requires i < |s|
    ensures Of(s[..i + 1], owner, a) == Of(s[..i], owner, a) + if owner(s[i]) == a then [s[i]] else []
    ensures Others(s[..i + 1], owner, a) == Others(s[..i], owner, a) + if owner(s[i]) != a then [s[i]] else []
  {
    assert s[..i + 1][..i] == s[..i];
  }

  lemma {:induction false} SplitBy(s: seq<nat>, owner: Owner, a: nat, x: nat)
    ensures x in Of(s, owner, a) <==> x in s && owner(x) == a
    ensures x in Others(s, owner, a) <==> x in s && owner(x) != a
  {
    if s != [] {
      SplitBy(s[..|s| - 1], owner, a, x);
      assert s == s[..|s| - 1] + [s[|s| - 1]];
    }
  }

  lemma PtrsTagged(a: nat, s: seq<nat>, f: seq<Freed>)
    ensures Ptrs(Tagged(a, s) + f) == s + Ptrs(f)
  {
  }

  /** Every object goes back exactly once. */
  lemma {:induction false} FlushedOnce(s: seq<nat>, owner: Owner)
    ensures multiset(Ptrs(FlushLog(s, owner))) == multiset(s)
    decreases |s|
  {
    if s != [] {
      OthersFewer(s, owner);
      var a := owner(s[0]);
      var o := Others(s, owner, a);
      Split(s, owner, a);
      FlushedOnce(o, owner);
      PtrsTagged(a, Of(s, owner, a), FlushLog(o, owner));
    }
  }

  /** Every object goes back to the arena that owns it. */
  lemma {:induction false} FlushedHome(s: seq<nat>, owner: Owner, f: Freed)
    requires f in FlushLog(s, owner)
    ensures f.arena == owner(f.ptr) && f.ptr in s
    decreases |s|
  {
    OthersFewer(s, owner);
    var a := owner(s[0]);
    var own := Of(s, owner, a);
    if f in Tagged(a, own) {
      SplitBy(s, owner, a, f.ptr);
    } else {
      FlushedHome(Others(s, owner, a), owner, f);
      SplitBy(s, owner, a, f.ptr);
    }
  }

  /** The arenas locked are those that own an object. */
  lemma {:induction false} LockedOwners(s: seq<nat>, owner: Owner, a: nat)
    ensures a in Arenas(s, owner) <==> exists x :: x in s && owner(x) == a
    decreases |s|
  {
    if s != [] {
      OthersFewer(s, owner);
      var o := Others(s, owner, owner(s[0]));
      LockedOwners(o, owner, a);
      assert s[0] in s;
      forall x ensures x in o <==> x in s && owner(x) != owner(s[0]) {
        SplitBy(s, owner, owner(s[0]), x);
      }
    }
  }

  predicate Distinct(s: seq<nat>) {
    forall i, j :: 0 <= i < j < |s| ==> s[i] != s[j]
  }

  /** No arena is locked twice. */
  lemma {:induction false} LockedOnce(s: seq<nat>, owner: Owner)
    ensures Distinct(Arenas(s, owner))
    decreases |s|
  {
    if s != [] {
      OthersFewer(s, owner);
      var a := owner(s[0]);
      var o := Others(s, owner, a);
      LockedOnce(o, owner);
      LockedOwners(o, owner, a);
      assert a !in Arenas(o, owner) by {
        forall x | x in o ensures owner(x) != a { SplitBy(s, owner, a, x); }
      }
    }
  }

  // ----- filling -----

  function Reverse(s: seq<nat>): (r: seq<nat>)
    ensures |r| == |s| && forall k :: 0 <= k < |s| ==> r[k] == s[|s| - 1 - k]
  {
    seq(|s|, k requires 0 <= k < |s| => s[|s| - 1 - k])
  }

  /** The slots after a fill that asked for n objects and got some: the first one got is in the last of the n slots. */
  function Filled(avail: seq<nat>, n: nat, got: seq<nat>): (a: seq<nat>)
    requires |got| <= n <= |avail|
    ensures |a| == |avail|
  {
    avail[..n - |got|] + Reverse(got) + avail[n..]
  }

  /**
   A fill counts the objects it got from the bottom of the stack, where so many slots still hold what they held before.
   */
  function Stale(n: nat, got: nat): (m: nat)
    requires got <= n
    ensures m <= got
  {
    if got < n - got then got else n - got
  }

  /** The stack after a fill: stale slots, and above them what was got, the first of it left out for each stale slot. */
  lemma FillShape(avail: seq<nat>, n: nat, got: seq<nat>)
    requires |got| <= n <= |avail|
    ensures Filled(avail, n, got)[..|got|] == avail[..Stale(n, |got|)] + Reverse(got[Stale(n, |got|)..])
  {
  }

  /** The stack holds what was got exactly if the stale slots happen to hold the objects that are left out for them. */
  lemma FillExact(avail: seq<nat>, n: nat, got: seq<nat>)
    requires |got| <= n <= |avail|
    ensures var m := Stale(n, |got|);
      multiset(Filled(avail, n, got)[..|got|]) == multiset(got) <==> multiset(avail[..m]) == multiset(got[..m])
  {
    var m := Stale(n, |got|);
    FillShape(avail, n, got);
    ReverseSame(got[m..]);
    assert got == got[..m] + got[m..];
    Cancel(multiset(avail[..m]), multiset(got[..m]), multiset(got[m..]));
  }

  lemma Cancel(a: multiset<nat>, b: multiset<nat>, c: multiset<nat>)
    ensures a + c == b + c <==> a == b
  {
    assert a + c - c == a && b + c - c == b;
  }

  /**
   If the stale slots hold none of what was got, that is so only if the arena gave all that was asked for, or nothing.
   */
  lemma FillPartial(avail: seq<nat>, n: nat, got: seq<nat>)
    requires |got| <= n <= |avail|
    requires forall k :: 0 <= k < Stale(n, |got|) ==> avail[k] !in got
    ensures multiset(Filled(avail, n, got)[..|got|]) == multiset(got) <==> |got| == n || got == []
  {
    var m := Stale(n, |got|);
    FillExact(avail, n, got);
    if m == 0 {
      assert avail[..m] == [] && got[..m] == [];
    } else {
      assert avail[..m][0] == avail[0];
      assert avail[0] in multiset(avail[..m]) && avail[0] !in multiset(got[..m]);
    }
  }

  lemma {:induction false} ReverseSame(s: seq<nat>)
    ensures multiset(Reverse(s)) == multiset(s)
  {
    if s == [] {
      assert Reverse(s) == [];
    } else {
      ReverseSame(s[1..]);
      assert Reverse(s) == Reverse(s[1..]) + [s[0]];
      assert s == [s[0]] + s[1..];
    }
  }

  /** Of two objects asked for the arena gives one, 9: the stack then holds 5, which was taken before, and 9 is lost. */
  lemma FillStale()
    ensures Filled([5, 7], 2, [9])[..1] == [5]
  {
  }

  /** A shift leaves at least one exactly if the power of two is no larger; and it leaves no more than before. */
  lemma ShrSmaller(n: nat, k: nat)
    ensures Shr(n, k) >= 1 <==> Pow2(k) <= n
    ensures Shr(n, k) <= n
    ensures Pow2(1) == 2
  {
    hide Shr;
    NoMultiple(Shr(n, k), Pow2(k));
    MulLe(1, Pow2(k), Shr(n, k));
  }

  lemma FlushStep(s: seq<nat>, owner: Owner)
    requires s != []
    ensures |Others(s, owner, owner(s[0]))| < |s|
    ensures FlushLog(s, owner) == Tagged(owner(s[0]), Of(s, owner, owner(s[0])))
        + FlushLog(Others(s, owner, owner(s[0])), owner)
    ensures Arenas(s, owner) == [owner(s[0])] + Arenas(Others(s, owner, owner(s[0])), owner)
  {
    OthersFewer(s, owner);
  }

  lemma LockedLater(locked: seq<nat>, s: seq<nat>, owner: Owner)
    requires s != [] && Distinct(locked + Arenas(s, owner))
    ensures owner(s[0]) !in locked
  {
    OthersFewer(s, owner);
    var all := locked + Arenas(s, owner);
    assert all[|locked|] == owner(s[0]);
    forall i | 0 <= i < |locked| ensures locked[i] != owner(s[0]) {
      assert all[i] == locked[i];
    }
  }

  lemma NothingFlushed(owner: Owner)
    ensures FlushLog([], owner) == [] && Arenas([], owner) == []
  {
  }

  class TcacheBin {
    /** The arena that owns an object, the thread's own arena, and whether the objects are small. */
    const owner: Owner
    const home: nat
    const small: bool
    const ncachedMax: nat
    var avail: array<nat>
    var ncached: nat
    var lowWater: int
    var lgFillDiv: nat
    var nrequests: nat
    /** Statistics of the thread's own arena. */
    var arenaRequests: nat
    var arenaFlushes: nat
    ghost var freed: seq<Freed>

    ghost predicate Valid()
      reads this
    {
      && avail.Length == ncachedMax
      && -1 <= lowWater <= ncached <= ncachedMax
      && 1 <= lgFillDiv && 1 <= Shr(ncachedMax, lgFillDiv)
    }

    ghost function Cached(): (s: seq<nat>)
      requires ncached <= avail.Length
      reads this, avail
      ensures |s| == ncached
    {
      avail[..ncached]
    }

    /** tcache_create: every class of objects has at least two slots. */
    constructor (owner: Owner, home: nat, small: bool, ncachedMax: nat)
      requires ncachedMax >= 2
      ensures Valid() && Cached() == [] && fresh(avail) && freed == [] && lowWater == 0 && lgFillDiv == 1
      ensures nrequests == arenaRequests == arenaFlushes == 0
      ensures this.owner == owner && this.home == home && this.small == small && this.ncachedMax == ncachedMax
    {
      this.owner, this.home, this.small, this.ncachedMax := owner, home, small, ncachedMax;
      avail := new nat[ncachedMax];
      ncached, lowWater, lgFillDiv, nrequests, arenaRequests, arenaFlushes := 0, 0, 1, 0, 0, 0;
      freed := [];
      ShrSmaller(ncachedMax, 1);
    }

    /** One pass: with the lock of one arena held, its objects go back and the others move down. */
    method Pass(a: nat, nflush: nat) returns (ndeferred: nat)
      requires nflush <= avail.Length
      modifies avail, `freed
      ensures ndeferred <= nflush && avail[..ndeferred] == Others(old(avail[..nflush]), owner, a)
      ensures avail[nflush..] == old(avail[nflush..])
      ensures freed == old(freed) + Tagged(a, Of(old(avail[..nflush]), owner, a))
    {
      hide Of, Others;
      ndeferred := 0;
      ghost var s := avail[..nflush];
      SplitNone(owner, a);
      assert s[..0] == [];
      for i := 0 to nflush
        invariant ndeferred <= i && avail[..ndeferred] == Others(s[..i], owner, a)
        invariant avail[i..] == old(avail[i..])
        invariant freed == old(freed) + Tagged(a, Of(s[..i], owner, a))
      {
        var ptr := avail[i];
        SplitMore(s, owner, a, i);
        if owner(ptr) == a {
          freed := freed + [Freed(a, ptr)];
          assert Tagged(a, Of(s[..i], owner, a) + [ptr]) == Tagged(a, Of(s[..i], owner, a)) + [Freed(a, ptr)];
        } else {
          avail[ndeferred] := ptr;
          ndeferred := ndeferred + 1;
          assert avail[..ndeferred] == Others(s[..i], owner, a) + [ptr];
        }
        assert avail[i + 1..] == old(avail[i..])[1..];
      }
      assert s[..nflush] == s;
    }

    /** The thread's requests go to the statistics of its own arena. */
    method MergeStats()
      modifies `arenaRequests, `arenaFlushes, `nrequests
      ensures arenaRequests == old(arenaRequests + nrequests) && nrequests == 0
      ensures arenaFlushes == old(arenaFlushes) + if small then 1 else 0
    {
      if small {
        arenaFlushes := arenaFlushes + 1;
      }
      arenaRequests := arenaRequests + nrequests;
      nrequests := 0;
    }

    /** The loop of passes; the statistics are merged at most once, when the own arena is locked. */
    method Passes(count: nat) returns (merged: bool, ghost locked: seq<nat>)
      requires count <= avail.Length
      modifies avail, `freed, `arenaRequests, `arenaFlushes, `nrequests
      ensures avail[count..] == old(avail[count..])
      ensures freed == old(freed) + FlushLog(old(avail[..count]), owner)
      ensures locked == Arenas(old(avail[..count]), owner)
      ensures merged ==> arenaRequests == old(arenaRequests + nrequests) && nrequests == 0
      ensures merged ==> arenaFlushes == old(arenaFlushes) + if small then 1 else 0
      ensures !merged
          ==> arenaRequests == old(arenaRequests) && nrequests == old(nrequests) && arenaFlushes == old(arenaFlushes)
    {
      hide FlushLog, Arenas, Of, Others, Tagged, Distinct;
      ghost var s := avail[..count];
      merged, locked := false, [];
      var nflush := count;
      LockedOnce(s, owner);
      ghost var r := s;
      while nflush > 0
        invariant |r| == nflush <= count && r == avail[..nflush] && avail[count..] == old(avail[count..])
        invariant freed + FlushLog(r, owner) == old(freed) + FlushLog(s, owner)
        invariant locked + Arenas(r, owner) == Arenas(s, owner)
        invariant merged <==> home in locked
        invariant merged ==> arenaRequests == old(arenaRequests + nrequests) && nrequests == 0
        invariant merged ==> arenaFlushes == old(arenaFlushes) + if small then 1 else 0
        invariant !merged
            ==> arenaRequests == old(arenaRequests) && nrequests == old(nrequests) && arenaFlushes == old(arenaFlushes)
        decreases nflush
      {
        var a := owner(avail[0]);
        LockedLater(locked, r, owner);
        FlushStep(r, owner);
        if a == home {
          assert !merged;
          merged := true;
          MergeStats();
        }
        var ndeferred := Pass(a, nflush);
        assert avail[count..] == avail[nflush..][count - nflush..];
        r := avail[..ndeferred];
        locked := locked + [a];
        nflush := ndeferred;
      }
      NothingFlushed(owner);
    }

    /** The newest rem objects move to the bottom of the stack. */
    method MoveDown(rem: nat)
      requires Valid() && rem <= ncached
      modifies avail, `ncached, `lowWater
      ensures Valid() && Cached() == old(Cached()[ncached - rem..])
      ensures lowWater == if rem < old(lowWater) then rem else old(lowWater)
    {
      hide Shr;
      var n := ncached - rem;
      assert avail[n..ncached] == avail[..ncached][n..];
      Copy(avail, 0, avail[n..ncached]);
      ncached := rem;
      if ncached < lowWater {
        lowWater := ncached;
      }
    }

    /** tcache_bin_flush_small and tcache_bin_flush_large: all but the newest rem objects go back. */
    method Flush(rem: nat) returns (ghost locked: seq<nat>)
      requires Valid() && rem <= ncached
      modifies avail, `freed, `arenaRequests, `arenaFlushes, `nrequests, `ncached, `lowWater
      ensures Valid() && Cached() == old(Cached()[ncached - rem..])
      ensures freed == old(freed) + FlushLog(old(Cached()[..ncached - rem]), owner)
      ensures locked == Arenas(old(Cached()[..ncached - rem]), owner)
      ensures arenaRequests == old(arenaRequests + nrequests) && nrequests == 0
      ensures arenaFlushes == old(arenaFlushes) + if small then 1 else 0
      ensures lowWater == if rem < old(lowWater) then rem else old(lowWater)
    {
      hide FlushLog, Arenas, Shr;
      var n := ncached - rem;
      ghost var c := avail[..ncached];
      assert c[..n] == avail[..n];
      var merged;
      merged, locked := Passes(n);
      if !merged {
        MergeStats();
      }
      assert avail[..ncached][n..] == avail[n..][..rem] == c[n..];
      MoveDown(rem);
    }

    /** tcache_alloc_easy: the newest object, or a note that there was none. */
    method AllocEasy() returns (ret: Option<nat>)
      requires Valid()
      modifies `ncached, `lowWater
      ensures Valid()
      ensures old(ncached) == 0 ==> ret == None && Cached() == [] && lowWater == -1
      ensures old(ncached) > 0
          ==> ret == Some(old(Cached())[old(ncached) - 1]) && Cached() == old(Cached())[..old(ncached) - 1]
      ensures old(ncached) > 0 ==> lowWater == if ncached < old(lowWater) then ncached else old(lowWater)
    {
      hide Shr;
      if ncached == 0 {
        lowWater := -1;
        return None;
      }
      ncached := ncached - 1;
      if ncached < lowWater {
        lowWater := ncached;
      }
      ret := Some(avail[ncached]);
    }

    /** A flush merges the thread's requests into the statistics of its arena; without one they stay apart. */
    twostate predicate Merged(flushed: bool)
      reads this
    {
      if flushed then
        && arenaRequests == old(arenaRequests + nrequests) && nrequests == 0
        && arenaFlushes == old(arenaFlushes) + if small then 1 else 0
      else unchanged(`arenaRequests, `nrequests, `arenaFlushes)
    }

    /** arena_tcache_fill_small: the arena is asked for objects until it has no more memory. */
    method Fill(supply: seq<nat>) returns (ghost got: seq<nat>)
      requires Valid() && ncached == 0 && lowWater <= 0
      modifies avail, `ncached, `nrequests, `arenaRequests
      ensures Valid() && ncached == |got|
      ensures got == supply[..if |supply| < Shr(ncachedMax, lgFillDiv) then |supply| else Shr(ncachedMax, lgFillDiv)]
      ensures Shr(ncachedMax, lgFillDiv) <= ncachedMax
      ensures avail[..] == Filled(old(avail[..]), Shr(ncachedMax, lgFillDiv), got)
      ensures arenaRequests == old(arenaRequests + nrequests) && nrequests == 0
    {
      hide Shr, Filled;
      ShrSmaller(ncachedMax, lgFillDiv);
      var nfill := Shr(ncachedMax, lgFillDiv);
      var i := 0;
      ghost var was := avail[..];
      FilledNone(was, nfill);
      assert supply[..0] == [];
      while i < nfill
        invariant i <= nfill && i <= |supply|
        invariant avail[..] == Filled(was, nfill, supply[..i])
        invariant arenaRequests == old(arenaRequests) && nrequests == old(nrequests)
      {
        if i == |supply| {
          break;
        }
        FilledMore(was, nfill, supply, i);
        avail[nfill - 1 - i] := supply[i];
        i := i + 1;
      }
      got := supply[..i];
      arenaRequests := arenaRequests + nrequests;
      nrequests := 0;
      ncached := i;
    }

    /** The uppermost of some objects was taken, and the others are cached. */
    ghost predicate TopOf(stack: seq<nat>, ret: Option<nat>)
      reads this, avail
    {
      stack != [] && ret == Some(stack[|stack| - 1]) && ncached <= avail.Length
          && avail[..ncached] == stack[..|stack| - 1]
    }

    /**
     tcache_alloc_small_hard: fill, and take the uppermost object; after a fill that got only a part it may be a stale
     one.
     */
    method AllocSmallHard(supply: seq<nat>) returns (ret: Option<nat>)
      requires Valid() && ncached == 0 && lowWater <= 0
      modifies avail, `ncached, `lowWater, `nrequests, `arenaRequests
      ensures Valid() && (ret == None <==> supply == []) && (ret == None ==> ncached == 0)
      ensures 0 < |supply| <= Shr(ncachedMax, lgFillDiv) <= |old(avail[..])|
          ==> TopOf(Filled(old(avail[..]), Shr(ncachedMax, lgFillDiv), supply)[..|supply|], ret)
      ensures |supply| >= Shr(ncachedMax, lgFillDiv)
          ==> ret == Some(supply[0]) && avail[..ncached] == Reverse(supply[1..Shr(ncachedMax, lgFillDiv)])
      ensures arenaRequests == old(arenaRequests + nrequests) && nrequests == 0
      ensures lowWater == if ret == None then -1 else old(lowWater)
    {
      hide Shr, Filled;
      ShrSmaller(ncachedMax, lgFillDiv);
      var got := Fill(supply);
      assert |supply| <= Shr(ncachedMax, lgFillDiv) ==> got == supply;
      FilledBottom(old(avail[..]), Shr(ncachedMax, lgFillDiv), got);
      ret := AllocEasy();
    }

    /** tcache_alloc_small: the newest object; an empty cache is filled first. */
    method AllocSmall(supply: seq<nat>) returns (ret: Option<nat>)
      requires Valid()
      modifies avail, `ncached, `lowWater, `nrequests, `arenaRequests
      ensures Valid()
      ensures old(ncached) > 0
          ==> ret == Some(old(Cached())[old(ncached) - 1]) && Cached() == old(Cached())[..old(ncached) - 1]
      ensures old(ncached) == 0 && |supply| >= Shr(ncachedMax, lgFillDiv)
          ==> ret == Some(supply[0]) && Cached() == Reverse(supply[1..Shr(ncachedMax, lgFillDiv)])
      ensures old(ncached) == 0 && supply == [] ==> ret == None && Cached() == []
      ensures ret == None ==> old(ncached) == 0 && supply == []
      // A fill that got only a part: a stale slot may be handed out.
      ensures old(ncached) == 0 && 0 < |supply| <= Shr(ncachedMax, lgFillDiv) <= |old(avail[..])|
          ==> TopOf(Filled(old(avail[..]), Shr(ncachedMax, lgFillDiv), supply)[..|supply|], ret)
      ensures old(ncached) > 0 ==> nrequests == old(nrequests) + 1 && arenaRequests == old(arenaRequests)
      ensures old(ncached) == 0
          ==> nrequests == (if ret == None then 0 else 1) && arenaRequests == old(arenaRequests + nrequests)
      // An allocation that found the cache empty is remembered until the next collection.
      ensures lowWater == if old(ncached) == 0 then -1 else if ncached < old(lowWater) then ncached else old(lowWater)
    {
      hide Shr, Filled, Reverse;
      ret := AllocEasy();
      if ret == None {
        ret := AllocSmallHard(supply);
        if ret == None {
          return;
        }
      }
      nrequests := nrequests + 1;
    }

    /**
     tcache_dalloc_small and tcache_dalloc_large: the object goes on top; from a full cache the older half goes first.
     */
    method Dalloc(ptr: nat) returns (ghost locked: seq<nat>)
      requires Valid()
      modifies avail, `freed, `arenaRequests, `arenaFlushes, `nrequests, `ncached, `lowWater
      ensures Valid()
      ensures var keep := if old(ncached) == ncachedMax then ncachedMax / 2 else old(ncached);
        && Cached() == old(Cached())[old(ncached) - keep..] + [ptr]
        && freed == old(freed) + FlushLog(old(Cached())[..old(ncached) - keep], owner)
        && lowWater == (if keep < old(lowWater) then keep else old(lowWater))
        && locked == Arenas(old(Cached())[..old(ncached) - keep], owner)
      ensures Merged(old(ncached) == ncachedMax)
    {
      hide FlushLog, Shr;
      ghost var c := Cached();
      assert c[0..] == c && c[..0] == [];
      NothingFlushed(owner);
      locked := [];
      if ncached == ncachedMax {
        locked := Flush(ncachedMax / 2);
      }
      ghost var k := Cached();
      avail[ncached] := ptr;
      ncached := ncached + 1;
      assert avail[..ncached] == k + [ptr];
    }

    /** tcache_event_hard: of the objects below the low water mark three quarters go back, rounded up. */
    method Collect()
      requires Valid()
      modifies avail, `freed, `arenaRequests, `arenaFlushes, `nrequests, `ncached, `lowWater, `lgFillDiv
      ensures Valid() && lowWater == ncached
      ensures var n := if old(lowWater) > 0 then old(lowWater) - old(lowWater) / 4 else 0;
        && Cached() == old(Cached())[n..]
        && freed == old(freed) + FlushLog(old(Cached())[..n], owner)
      ensures lgFillDiv
           == if old(lowWater) > 0 && Pow2(old(lgFillDiv) + 1) <= ncachedMax then old(lgFillDiv) + 1
              else if old(lowWater) < 0 && old(lgFillDiv) > 1 then old(lgFillDiv) - 1 else old(lgFillDiv)
      ensures Merged(old(lowWater) > 0)
    {
      hide FlushLog, Shr, Pow2;
      ghost var c := Cached();
      assert c[0..] == c && c[..0] == [];
      NothingFlushed(owner);
      if lowWater > 0 {
        var locked := Flush(ncached - lowWater + lowWater / 4);
        ShrSmaller(ncachedMax, lgFillDiv + 1);
        if Shr(ncachedMax, lgFillDiv + 1) >= 1 {
          lgFillDiv := lgFillDiv + 1;
        }
      } else if lowWater < 0 {
        if lgFillDiv > 1 {
          lgFillDiv := lgFillDiv - 1;
          ShrSmaller(ncachedMax, lgFillDiv);
          ShrSmaller(ncachedMax, lgFillDiv + 1);
          Pow2Monotone(lgFillDiv, lgFillDiv + 1);
        }
      }
      lowWater := ncached;
    }
  }

  lemma FilledNone(was: seq<nat>, n: nat)
    requires n <= |was|
    ensures Filled(was, n, []) == was
  {
  }

  lemma FilledMore(was: seq<nat>, n: nat, supply: seq<nat>, i: nat)
    requires i < |supply| && i < n <= |was|
    ensures Filled(was, n, supply[..i])[n - 1 - i := supply[i]] == Filled(was, n, supply[..i + 1])
  {
  }

  lemma FilledBottom(was: seq<nat>, n: nat, got: seq<nat>)
    requires |got| <= n <= |was|
    ensures |got| == n > 0 ==> Filled(was, n, got)[n - 1] == got[0] && Filled(was, n, got)[..n - 1] == Reverse(got[1..])
  {
  }
}
