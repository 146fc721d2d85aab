/**
 Small allocations (arena.c, arena.h): runs of equal regions, the bin that hands regions out of its lowest
 non-full run, and the index computation that avoids dividing.
 */
module RegionIndex {

  import opened Machine

  const RUN_MAXREGS: nat := 2048
  const SIZE_INV_SCALE: nat := 0x20_0000

  lemma QuotIs(x: nat, d: nat, q: nat)
    requires 0 < d && q * d <= x < q * d + d
    ensures Quot(x, d) == q
  {
    var y := Quot(x, d);
    assert (y - q) * d < d && (q - y) * d < d;
    NoMultiple(y - q, d);
  }

  /** ffs, less one: how often 2 divides a number. */
  function Twos(x: nat): (n: nat)
    requires 0 < x
    ensures Quot(x, Pow2(n)) * Pow2(n) == x && Quot(x, Pow2(n)) % 2 == 1
  {
    if x % 2 == 1 then
      QuotIs(x, 1, x);
      0
    else
      TwosStep(x, Twos(x / 2));
      Twos(x / 2) + 1
  }

  lemma TwosStep(x: nat, n: nat)
    requires 0 < x && x % 2 == 0 && Quot(x / 2, Pow2(n)) * Pow2(n) == x / 2
    ensures Quot(x, Pow2(n + 1)) == Quot(x / 2, Pow2(n)) && Quot(x, Pow2(n + 1)) * Pow2(n + 1) == x
  {
    var q, p := Quot(x / 2, Pow2(n)), Pow2(n + 1);
    assert x == q * p;
    QuotIs(x, p, q);
  }

  /** SIZE_INV */
  function Inverse(d: nat): nat
    requires 0 < d
  {
    Quot(SIZE_INV_SCALE, d) + 1
  }

  /** arena_run_regind, from the offset of a pointer in the regions of its run; products are taken modulo the word. */
  function RegInd(offset: nat, regInterval: nat): nat
    requires 0 < regInterval
  {
    var shift := Twos(regInterval);
    var diff, interval := Quot(offset % WORD, Pow2(shift)), Quot(regInterval, Pow2(shift));
    if interval == 1 then diff
    else if interval <= 31 then Quot(diff * Inverse(interval) % WORD, SIZE_INV_SCALE)
    else Quot(diff, interval)
  }

  /** Scaling both sides down by a common factor leaves the quotient. */
  lemma Rescale(x: nat, p: nat, d: nat)
    requires 0 < p && 0 < d
    ensures 0 < d * p && Quot(Quot(x, p), d) == Quot(x, d * p)
  {
    hide Quot;
    var y, q := Quot(x, p), Quot(Quot(x, p), d);
    NoMultiple(d, p);
    assert q * d <= y <= q * d + d - 1;
    MulLe(q * d, y, p);
    MulLe(y, q * d + d - 1, p);
    assert q * (d * p) == q * d * p && (q * d + d - 1) * p == q * (d * p) + d * p - p;
    QuotIs(x, d * p, q);
  }

  /** How much the inverse of an odd number is rounded up. */
  lemma InverseGap(d: nat)
    requires 3 <= d <= 31 && d % 2 == 1
    ensures var e := Inverse(d) * d - SIZE_INV_SCALE; 0 < e < d && e * RUN_MAXREGS < Inverse(d)
  {
    if d < 16 {
      InverseGapLow(d);
    } else {
      InverseGapHigh(d);
    }
  }

  lemma InverseGapLow(d: nat)
    requires 3 <= d < 16 && d % 2 == 1
    ensures var e := Inverse(d) * d - SIZE_INV_SCALE; 0 < e < d && e * RUN_MAXREGS < Inverse(d)
  {
  }

  lemma InverseGapHigh(d: nat)
    requires 16 < d <= 31 && d % 2 == 1
    ensures var e := Inverse(d) * d - SIZE_INV_SCALE; 0 < e < d && e * RUN_MAXREGS < Inverse(d)
  {
  }

  /**
   Multiplying by the rounded-up inverse divides exactly, and the product fits a word, for as many regions as a run may
   have.
   */
  lemma InverseExact(x: nat, d: nat)
    requires 3 <= d <= 31 && d % 2 == 1 && x < RUN_MAXREGS * d
    ensures x * Inverse(d) < WORD && Quot(x * Inverse(d), SIZE_INV_SCALE) == Quot(x, d)
  {
    InverseGap(d);
    hide Quot, Inverse;
    var inv, k := Inverse(d), Quot(x, d);
    var e, r := inv * d - SIZE_INV_SCALE, x - k * d;
    QuotBelow(x, d, RUN_MAXREGS);
    Product(inv, d, k, r, e);
    RestBound(inv, d, k, r, e);
    QuotIs(x * inv, SIZE_INV_SCALE, k);
  }

  lemma QuotBelow(x: nat, d: nat, n: nat)
    requires 0 < d && x < n * d
    ensures Quot(x, d) < n
  {
    assert (Quot(x, d) - n) * d < 0;
    NoMultiple(Quot(x, d) - n, d);
  }

  lemma RestBound(inv: nat, d: nat, k: nat, r: nat, e: nat)
    requires 0 < d && inv * d == SIZE_INV_SCALE + e && k < RUN_MAXREGS && r < d && e * RUN_MAXREGS < inv
    ensures 0 <= k * e + r * inv < SIZE_INV_SCALE
  {
    MulLe(k, RUN_MAXREGS - 1, e);
    MulLe(r, d - 1, inv);
    assert (d - 1) * inv == SIZE_INV_SCALE + e - inv;
  }

  lemma Product(inv: nat, d: nat, k: nat, r: nat, e: nat)
    requires inv * d == SIZE_INV_SCALE + e
    ensures (k * d + r) * inv == k * SIZE_INV_SCALE + k * e + r * inv
  {
    assert (k * d + r) * inv == k * (inv * d) + r * inv;
    assert k * (SIZE_INV_SCALE + e) == k * SIZE_INV_SCALE + k * e;
  }

  /** arena_run_regind gives the region in which the pointer lies. */
  lemma RegIndExact(offset: nat, regInterval: nat, nregs: nat)
    requires 0 < regInterval && nregs <= RUN_MAXREGS && offset < nregs * regInterval < WORD
    ensures RegInd(offset, regInterval) == Quot(offset, regInterval) < nregs
  {
    hide Quot, Inverse, Twos, Pow2;
    var shift := Twos(regInterval);
    var p, d := Pow2(shift), Quot(regInterval, Pow2(shift));
    var diff := Quot(offset, p);
    Rescale(offset, p, d);
    QuotBelow(offset, regInterval, nregs);
    Fits(offset);
    QuotOne(diff);
    if 1 < d <= 31 {
      Unbounded(diff, d, RUN_MAXREGS);
      InverseExact(diff, d);
      Fits(diff * Inverse(d));
    }
  }

  lemma QuotOne(x: nat)
    ensures Quot(x, 1) == x
  {
    QuotIs(x, 1, x);
  }

  lemma Fits(x: nat)
    requires x < WORD
    ensures x % WORD == x
  {
  }

  lemma Unbounded(x: nat, d: nat, n: nat)
    requires 0 < d && Quot(x, d) < n
    ensures x < n * d
  {
    MulLe(Quot(x, d) + 1, n, d);
  }
}

module Bins {
  import opened Machine
  import opened RegionIndex

  /** A run of a bin: regions from nextind on have never been handed out; used gives the bits set in its bitmap. */
  datatype Run = Run(nextind: nat, nfree: nat, used: set<nat>)

  ghost function Upto(n: nat): (s: set<nat>)
    ensures |s| == n && forall i :: i in s <==> 0 <= i < n
  {
    if n == 0 then {} else Upto(n - 1) + {n - 1}
  }

  lemma {:induction false} SubsetCard(s: set<nat>, t: set<nat>)
    requires s <= t
    ensures |s| <= |t| && (|s| == |t| ==> s == t)
  {
    if s != {} {
      var x :| x in s;
      SubsetCard(s - {x}, t - {x});
    }
  }

  ghost function NonFullOf(runs: map<nat, Run>): set<nat> {
    set a | a in runs && 0 < runs[a].nfree
  }

  /** What other threads leave of a bin while its lock is not held. */
  datatype Others = Others(runs: map<nat, Run>, tree: set<nat>, runcur: nat)

  /** A free region was handed out: the first one of a run that had some, or of the new run. */
  ghost predicate Handed(was: map<nat, Run>, runs: map<nat, Run>, newRun: nat, a: nat, regind: nat) {
    && a in runs && runs == was[a := runs[a]]
    && (if a == newRun then regind == 0 && runs[a].used == {0}
        else a in NonFullOf(was) && regind !in was[a].used && (forall j: nat :: j < regind ==> j in was[a].used)
             && runs[a].used == was[a].used + {regind})
  }

  /** A region handed out counts as touched from then on, and everything touched before still does. */
  ghost predicate Touched(was: map<nat, set<nat>>, now: map<nat, set<nat>>, ok: bool, a: nat, regind: nat) {
    now == if ok then was[a := (if a in was then was[a] else {}) + {regind}] else was
  }

  ghost function RegionsOf(runs: map<nat, Run>): set<(nat, nat)> {
    set a, i | a in runs && i in runs[a].used :: (a, i)
  }

  /** What is handed out was not in use, and nothing else changes. */
  lemma HandedRegions(was: map<nat, Run>, runs: map<nat, Run>, newRun: nat, a: nat, regind: nat)
    requires Handed(was, runs, newRun, a, regind) && newRun !in was
    ensures (a, regind) !in RegionsOf(was) && RegionsOf(runs) == RegionsOf(was) + {(a, regind)}
  {
    forall x | x in RegionsOf(was)
      ensures x in RegionsOf(runs)
    {
      assert x.0 != a ==> runs[x.0] == was[x.0];
    }
    assert regind in runs[a].used;
    forall x | x in RegionsOf(runs)
      ensures x in RegionsOf(was) || x == (a, regind)
    {
      assert x.0 != a ==> x.0 in was && was[x.0] == runs[x.0];
    }
  }

  lemma FreedRegions(was: map<nat, Run>, runs: map<nat, Run>, a: nat, regind: nat)
    requires a in was && regind in was[a].used && a in runs
    requires runs == was[a := runs[a]] && runs[a].used == was[a].used - {regind}
    ensures RegionsOf(runs) == RegionsOf(was) - {(a, regind)}
    ensures runs[a].used == {} ==> RegionsOf(runs - {a}) == RegionsOf(runs)
  {
    forall x | x in RegionsOf(was) && x != (a, regind)
      ensures x in RegionsOf(runs)
    {
      assert x.0 != a ==> runs[x.0] == was[x.0];
    }
    forall x | x in RegionsOf(runs) && runs[a].used == {}
      ensures x in RegionsOf(runs - {a})
    {
      assert x.0 in runs - {a};
    }
  }

  /** Every run is in use, and those with free regions are in the tree, but for the current run. */
  ghost predicate BinOk(runs: map<nat, Run>, tree: set<nat>, runcur: nat) {
    && (runcur == 0 || runcur in runs) && (forall a :: a in runs ==> runs[a].used != {})
    && tree == NonFullOf(runs) - {runcur}
  }

  /** The current run, if there is one, lies below the runs of the tree, so that objects stay packed in low runs. */
  ghost predicate Packed(tree: set<nat>, runcur: nat) {
    runcur != 0 ==> forall a :: a in tree ==> runcur < a
  }

  /** The same, but for run a, which has free regions and is in neither place. */
  ghost predicate BinButFor(runs: map<nat, Run>, tree: set<nat>, runcur: nat, a: nat) {
    && a in runs && a != runcur && (runcur == 0 || runcur in runs) && (forall b :: b in runs ==> runs[b].used != {})
    && tree == NonFullOf(runs) - {runcur} - {a}
  }

  /** Run a has no region in use any more; a run of a single region was full before and is in neither place. */
  ghost predicate BinWithout(runs: map<nat, Run>, tree: set<nat>, runcur: nat, a: nat, single: bool) {
    && a in runs && (runcur == 0 || runcur in runs) && (forall b :: b in runs && b != a ==> runs[b].used != {})
    && tree == NonFullOf(runs) - {runcur} - (if single then {a} else {})
  }

  /** The runs of a bin after a region of one was freed. */
  lemma LoweredOk(was: map<nat, Run>, runs: map<nat, Run>, tree: set<nat>, runcur: nat, a: nat)
    requires BinOk(was, tree, runcur) && 0 !in was && a in was && a in runs && runs == was[a := runs[a]]
    requires runs[a].used != {} && runs[a].nfree == was[a].nfree + 1
    ensures if runs[a].nfree == 1 && a != runcur then BinButFor(runs, tree, runcur, a) else BinOk(runs, tree, runcur)
  {
    NonFullUpdate(was, a, runs[a]);
  }

  /** The runs of a bin after the last region of one was freed. */
  lemma DissociatedOk(was: map<nat, Run>, runs: map<nat, Run>, tree: set<nat>, runcur: nat, a: nat, nregs: nat)
    requires BinOk(was, tree, runcur) && 0 !in was && a in was && a in runs && runs == was[a := runs[a]]
    requires 0 < runs[a].nfree && (nregs != 1 ==> 0 < was[a].nfree) && (nregs == 1 ==> was[a].nfree == 0)
    ensures BinWithout(runs, tree, runcur, a, nregs == 1)
  {
    NonFullUpdate(was, a, runs[a]);
  }

  /** The bin after a region was taken from a run that is now the current one. */
  lemma TakenOk(was: map<nat, Run>, before: map<nat, Run>, runs: map<nat, Run>, tree: set<nat>, a: nat)
    requires (forall b :: b in was ==> was[b].used != {}) && a in before && before == was[a := before[a]]
    requires a in runs && runs == before[a := runs[a]] && runs[a].used != {}
    requires tree == NonFullOf(before) - {a}
    ensures BinOk(runs, tree, a)
  {
    NonFullUpdate(before, a, runs[a]);
  }

  lemma CurrentLowest(runs: map<nat, Run>, tree: set<nat>, runcur: nat)
    requires BinOk(runs, tree, runcur) && Packed(tree, runcur) && runcur != 0 && 0 < runs[runcur].nfree
    ensures runcur in NonFullOf(runs) && forall b :: b in NonFullOf(runs) ==> runcur <= b
  {
    assert forall b :: b in NonFullOf(runs) ==> b == runcur || b in tree;
  }

  lemma CurrentOk(was: map<nat, Run>, runs: map<nat, Run>, tree: set<nat>, a: nat)
    requires BinOk(was, tree, a) && a != 0 && a in runs && runs == was[a := runs[a]] && runs[a].used != {}
    ensures BinOk(runs, tree, a)
  {
    NonFullUpdate(was, a, runs[a]);
  }

  lemma BinOkUsed(runs: map<nat, Run>, tree: set<nat>, runcur: nat)
    requires BinOk(runs, tree, runcur)
    ensures forall b :: b in runs ==> runs[b].used != {}
    ensures (runcur == 0 || (runcur in runs && runs[runcur].nfree == 0)) && 0 !in runs ==> tree == NonFullOf(runs)
    ensures runcur == 0 || runcur in runs
    ensures runcur in runs && 0 < runs[runcur].nfree ==> runcur in NonFullOf(runs) && tree == NonFullOf(runs) - {runcur}
    ensures forall b :: b in tree ==> b in runs && 0 < runs[b].nfree
  {
  }

  lemma NewNonFull(runs: map<nat, Run>, a: nat, r: Run)
    requires a !in runs && 0 < r.nfree
    ensures NonFullOf(runs[a := r]) - {a} == NonFullOf(runs) == NonFullOf(runs) - {a}
  {
  }

  /** Taking a region from a run with some, or from a new run. */
  lemma HandedBy(was: map<nat, Run>, before: map<nat, Run>, runs: map<nat, Run>, newRun: nat, a: nat, regind: nat)
    requires a in before && a in runs && runs == before[a := runs[a]] && runs[a].used == before[a].used + {regind}
    requires regind !in before[a].used && forall j: nat :: j < regind ==> j in before[a].used
    requires if a == newRun then before[a].used == {} && before == was[a := before[a]]
      else before == was && a in NonFullOf(was)
    ensures Handed(was, runs, newRun, a, regind)
  {
    var first := 0 in before[a].used;
  }

  /** A region of the current run was handed out, and the new run that was not needed is gone again. */
  lemma GivenBack(was: map<nat, Run>, empty: Run, runs: map<nat, Run>, newRun: nat, a: nat)
    requires newRun !in was && a in was && a in runs && runs == was[newRun := empty][a := runs[a]]
    ensures runs - {newRun} == was[a := runs[a]]
  {
  }

  lemma GivenBackTouched(was: map<nat, set<nat>>, newRun: nat, a: nat, regind: nat)
    requires newRun !in was && a in was
    ensures was[newRun := {}][a := was[newRun := {}][a] + {regind}] - {newRun} == was[a := was[a] + {regind}]
  {
  }

  /** The same, but run b was taken from the tree and has to find its place again. */
  lemma CurrentButFor(was: map<nat, Run>, runs: map<nat, Run>, tree: set<nat>, a: nat, b: nat)
    requires BinOk(was, tree, a) && a != 0 && a in runs && runs == was[a := runs[a]] && runs[a].used != {} && b in tree
    ensures BinButFor(runs, tree - {b}, a, b) && 0 < runs[b].nfree
  {
    NonFullUpdate(was, a, runs[a]);
  }

  lemma NonFullUpdate(runs: map<nat, Run>, a: nat, r: Run)
    ensures NonFullOf(runs[a := r]) == NonFullOf(runs) - {a} + (if 0 < r.nfree then {a} else {})
  {
  }

  lemma OneFull(runs: map<nat, Run>)
    requires 100 in runs && runs == map[100 := runs[100]] && runs[100].nfree == 0 && runs[100].used != {}
    ensures NonFullOf(runs) == {} && BinOk(runs, {}, 0)
  {
  }

  lemma OneFree(runs: map<nat, Run>, tree: set<nat>, runcur: nat)
    requires BinOk(runs, tree, runcur) && runcur == 0 && 100 in runs && (forall a :: a in runs ==> a == 100)
    requires 0 < runs[100].nfree
    ensures tree == {100}
  {
    assert NonFullOf(runs) == {100};
  }

  class Bin {
    const nregs: nat
    const regInterval: nat
    /** The address of the current run, 0 if there is none. */
    var runcur: nat
    /** bin->runs: the addresses of the runs in the tree. */
    var tree: set<nat>
    /** The runs of the bin, by address. */
    var runs: map<nat, Run>
    /** The regions that were ever handed out from a run. */
    ghost var touched: map<nat, set<nat>>

    /** The regions below nextind, and no others, were ever handed out. */
    ghost predicate RunOk(r: Run, t: set<nat>) {
      && r.nfree + |r.used| == nregs && r.nextind <= nregs
      && r.used <= t && forall i: nat :: i in t <==> i < r.nextind
    }

    /** Bins are well set up, and all runs agree with themselves. */
    ghost predicate RunsOk()
      reads this`runs, this`touched
    {
      && 0 < nregs <= RUN_MAXREGS && 0 < regInterval && nregs * regInterval < WORD
      && AllOk(runs, touched)
    }

    ghost predicate AllOk(rs: map<nat, Run>, ts: map<nat, set<nat>>) {
      ts.Keys == rs.Keys && 0 !in rs && forall a :: a in rs ==> RunOk(rs[a], ts[a])
    }

    lemma ZeroOut(rs: map<nat, Run>, ts: map<nat, set<nat>>)
      requires AllOk(rs, ts)
      ensures 0 !in rs && ts.Keys == rs.Keys
    {
    }

    lemma AllOkNew(rs: map<nat, Run>, ts: map<nat, set<nat>>, a: nat)
      requires AllOk(rs, ts) && a != 0
      ensures AllOk(rs[a := Run(0, nregs, {})], ts[a := {}])
    {
    }

    lemma AllOkLess(rs: map<nat, Run>, ts: map<nat, set<nat>>, a: nat)
      requires AllOk(rs, ts)
      ensures AllOk(rs - {a}, ts - {a})
    {
    }

    lemma AllOkKeys(rs: map<nat, Run>, ts: map<nat, set<nat>>)
      requires AllOk(rs, ts)
      ensures ts.Keys == rs.Keys && 0 !in rs
    {
    }

    lemma RunFacts(a: nat)
      requires AllOk(runs, touched)
      ensures 0 !in runs && touched.Keys == runs.Keys
      ensures a in runs
          ==> runs[a].nfree + |runs[a].used| == nregs && runs[a].nextind <= nregs && runs[a].used <= touched[a]
      ensures a in runs ==> forall i: nat :: i in touched[a] <==> i < runs[a].nextind
    {
    }

    /** The runs with a free region. */
    ghost function NonFull(): set<nat>
      reads this`runs
    {
      NonFullOf(runs)
    }

    ghost predicate Valid()
      reads this
    {
      RunsOk() && BinOk(runs, tree, runcur)
    }

    /** What other threads leave is a bin in order again, and the new run is none of its runs. */
    ghost predicate OthersOk(o: Others, ts: map<nat, set<nat>>, newRun: nat) {
      AllOk(o.runs, ts) && BinOk(o.runs, o.tree, o.runcur) && newRun !in o.runs
    }

    /** The regions that are in use. */
    ghost function Regions(): set<(nat, nat)>
      reads this`runs
    {
      RegionsOf(runs)
    }

    constructor (nregs: nat, regInterval: nat)
      requires 0 < nregs <= RUN_MAXREGS && 0 < regInterval && nregs * regInterval < WORD
      ensures Valid() && Packed(tree, runcur) && runs == map[] && touched == map[]
      ensures this.nregs == nregs && this.regInterval == regInterval
    {
      this.nregs, this.regInterval := nregs, regInterval;
      runcur, tree, runs, touched := 0, {}, map[], map[];
    }

    /** bitmap_sfu on the bitmap of a run that is not full. */
    method FirstUnset(r: Run) returns (i: nat)
      requires 0 < r.nfree && r.nfree + |r.used| == nregs
      ensures i < nregs && i !in r.used && forall j: nat :: j < i ==> j in r.used
    {
      i := 0;
      while i in r.used
        invariant i <= nregs && forall j: nat :: j < i ==> j in r.used
        decreases nregs - i
      {
        i := i + 1;
        SubsetCard(Upto(i), r.used);
      }
      SubsetCard(Upto(i), r.used);
    }

    /** arena_run_reg_alloc: the first region that is free. */
    method RegAlloc(a: nat) returns (regind: nat)
      requires RunsOk() && a in runs && 0 < runs[a].nfree
      modifies this`runs, this`touched
      ensures RunsOk() && regind < nregs && regind !in old(runs[a].used)
      ensures forall j: nat :: j < regind ==> j in old(runs[a].used)
      ensures a in runs && runs == old(runs)[a := runs[a]] && runs[a].used == old(runs[a].used) + {regind}
      ensures runs[a].nfree == old(runs[a].nfree) - 1
      ensures runs[a].nextind == if regind < old(runs[a].nextind) then old(runs[a].nextind) else regind + 1
      ensures a in old(touched) && touched == old(touched)[a := old(touched)[a] + {regind}]
    {
      var r := runs[a];
      regind := FirstUnset(r);
      assert r.nextind !in r.used;
      var nextind := if regind == r.nextind then r.nextind + 1 else r.nextind;
      assert regind < nextind;
      touched := touched[a := touched[a] + {regind}];
      runs := runs[a := Run(nextind, r.nfree - 1, r.used + {regind})];
    }

    /** arena_run_reg_dalloc, from the offset of the region. */
    method RegDalloc(a: nat, offset: nat) returns (regind: nat)
      requires RunsOk() && a in runs && offset % regInterval == 0 && offset / regInterval in runs[a].used
      modifies this`runs
      ensures RunsOk() && regind == offset / regInterval
      ensures a in runs && runs == old(runs)[a := runs[a]] && runs[a].used == old(runs[a].used) - {regind}
      ensures runs[a].nfree == old(runs[a].nfree) + 1 && runs[a].nextind == old(runs[a].nextind)
    {
      var r := runs[a];
      assert offset / regInterval < r.nextind;
      OffsetFits(offset);
      RegIndExact(offset, regInterval, nregs);
      regind := RegInd(offset, regInterval);
      runs := runs[a := Run(r.nextind, r.nfree + 1, r.used - {regind})];
    }

    lemma OffsetFits(offset: nat)
      requires 0 < regInterval && offset % regInterval == 0 && offset / regInterval < nregs
      ensures offset < nregs * regInterval
    {
      assert offset == offset / regInterval * regInterval;
      MulLe(offset / regInterval + 1, nregs, regInterval);
    }

    /** arena_bin_nonfull_run_tryget: take the lowest run out of the tree. */
    method TryGet() returns (a: nat)
      requires 0 !in tree
      modifies this`tree
      ensures tree == old(tree) - {a} && (a == 0 <==> old(tree) == {})
      ensures (a != 0 ==> a in old(tree) && forall b :: b in old(tree) ==> a <= b)
    {
      a := 0;
      if tree != {} {
        ghost var m := LeastOf(tree);
        a :| a in tree && forall b :: b in tree ==> a <= b;
        tree := tree - {a};
      }
    }

    lemma {:induction false} LeastOf(s: set<nat>) returns (m: nat)
      requires s != {}
      ensures m in s && forall b :: b in s ==> m <= b
    {
      var x :| x in s;
      m := x;
      if s != {x} {
        var n := LeastOf(s - {x});
        m := if n < x then n else x;
        assert forall b :: b in s ==> b == x || b in s - {x};
      }
    }

    /**
     arena_bin_nonfull_run_get: a run of the tree.  If there is none the lock is dropped for a new one, and other
     threads change the bin; without memory for a new one the tree is searched again.
     */
    method NonFullRunGet(newRun: nat, oom: bool, o: Others, ghost ts: map<nat, set<nat>>) returns (a: nat)
      requires RunsOk() && newRun !in runs && newRun != 0 && tree == NonFull() && runcur == 0
      requires tree == {} ==> OthersOk(o, ts, newRun)
      modifies this
      ensures RunsOk() && (a == 0 <==> old(tree) == {} && oom && o.tree == {})
      ensures old(tree) != {}
          ==> a in old(tree) && (forall b :: b in old(tree) ==> a <= b) && tree == old(tree) - {a}
              && runs == old(runs) && touched == old(touched) && runcur == 0
      ensures old(tree) == {}
          ==> runcur == o.runcur && tree == o.tree - {a}
              && (oom && a != 0 ==> a in o.tree && forall b :: b in o.tree ==> a <= b)
              && (!oom ==> a == newRun)
              && runs == (if oom then o.runs else o.runs[newRun := Run(0, nregs, {})])
              && touched == (if oom then ts else ts[newRun := {}])
    {
      hide AllOk;
      ZeroOut(runs, touched);
      a := TryGet();
      if a != 0 {
        return;
      }
      runs, tree, runcur, touched := o.runs, o.tree, o.runcur, ts;
      ZeroOut(runs, touched);
      if !oom {
        AllOkNew(runs, touched, newRun);
        runs, touched := runs[newRun := Run(0, nregs, {})], touched[newRun := {}];
        return newRun;
      }
      a := TryGet();
    }

    /**
     Another thread has set the current run meanwhile, and it has a free region: that is used, and the run found, if
     any, is given back, to the arena if it is a new one and to its place in the bin if not.
     */
    method UseOther(run: nat, newRun: nat, oom: bool, ghost o: Others, ghost ts: map<nat, set<nat>>)
      returns (a: nat, regind: nat)
      requires RunsOk() && OthersOk(o, ts, newRun) && newRun != 0 && runcur == o.runcur != 0
      requires runcur in o.runs && 0 < o.runs[runcur].nfree
      requires (run == 0 <==> oom && o.tree == {}) && (oom && run != 0 ==> run in o.tree) && (!oom ==> run == newRun)
      requires tree == o.tree - {run} && runs == if oom then o.runs else o.runs[newRun := Run(0, nregs, {})]
      requires touched == if oom then ts else ts[newRun := {}]
      modifies this
      ensures Valid() && a == o.runcur && regind < nregs && Handed(o.runs, runs, newRun, a, regind)
      ensures Touched(ts, touched, true, a, regind)
      ensures Packed(o.tree, o.runcur) ==> Packed(tree, runcur)
    {
      hide BinOk, BinButFor, NonFullOf, AllOk, Handed;
      a := runcur;
      BinOkUsed(o.runs, o.tree, o.runcur);
      AllOkKeys(o.runs, ts);
      regind := RegAlloc(a);
      if run == newRun {
        GivenBack(o.runs, Run(0, nregs, {}), runs, newRun, a);
        GivenBackTouched(ts, newRun, a, regind);
        AllOkLess(runs, touched, newRun);
        runs, touched := runs - {newRun}, touched - {newRun};
        CurrentOk(o.runs, runs, tree, a);
      } else if run != 0 {
        CurrentButFor(o.runs, runs, o.tree, a, run);
        LowerRun(run);
      } else {
        CurrentOk(o.runs, runs, tree, a);
      }
      HandedBy(o.runs, o.runs, runs, newRun, a, regind);
    }

    /** Which run a region is taken from when the lock was dropped. */
    ghost predicate Chosen(o: Others, newRun: nat, oom: bool, ok: bool, a: nat) {
      if o.runcur in o.runs && 0 < o.runs[o.runcur].nfree then ok && a == o.runcur
      else if !oom then ok && a == newRun
      else if o.tree != {} then ok && a in o.tree && forall b :: b in o.tree ==> a <= b
      else !ok
    }

    /** The run found becomes the current one, and its first free region is used. */
    method UseRun(a: nat, ghost was: map<nat, Run>, newRun: nat) returns (regind: nat)
      requires RunsOk() && a in runs && 0 < runs[a].nfree && tree == NonFull() - {a}
      requires newRun !in was && forall b :: b in was ==> was[b].used != {}
      requires if a == newRun then runs[a].used == {} && runs == was[a := runs[a]]
        else runs == was && a in NonFullOf(was)
      modifies this`runcur, this`runs, this`touched
      ensures Valid() && tree == old(tree) && runcur == a && regind < nregs && Handed(was, runs, newRun, a, regind)
      ensures a in old(touched) && touched == old(touched)[a := old(touched)[a] + {regind}]
    {
      hide NonFullOf, Handed, BinOk, AllOk;
      runcur := a;
      regind := RegAlloc(a);
      TakenOk(was, old(runs), runs, tree, a);
      HandedBy(was, old(runs), runs, newRun, a, regind);
    }

    /** arena_bin_malloc_hard */
    method MallocHard(newRun: nat, oom: bool, o: Others, ghost ts: map<nat, set<nat>>)
      returns (ok: bool, a: nat, regind: nat)
      requires Valid() && newRun !in runs && newRun != 0 && (runcur == 0 || runs[runcur].nfree == 0)
      requires NonFull() == {} ==> OthersOk(o, ts, newRun)
      modifies this
      ensures Valid() && (ok ==> regind < nregs)
      ensures old(NonFull()) != {}
          ==> ok && Handed(old(runs), runs, newRun, a, regind) && Touched(old(touched), touched, ok, a, regind)
              && (forall b :: b in old(NonFull()) ==> a <= b) && Packed(tree, runcur)
      ensures old(NonFull()) == {}
          ==> Chosen(o, newRun, oom, ok, a) && Touched(ts, touched, ok, a, regind)
              && if ok then Handed(o.runs, runs, newRun, a, regind) else Others(runs, tree, runcur) == o
      ensures old(NonFull()) == {} && Packed(o.tree, o.runcur)
          ==> (Packed(tree, runcur) <==> ok && a == newRun ==> forall b :: b in o.tree ==> newRun < b)
    {
      hide RunsOk, NonFullOf, Handed, BinOk;
      TouchedRuns();
      NonFullNotNull();
      BinOkUsed(runs, tree, runcur);
      runcur := 0;
      a := NonFullRunGet(newRun, oom, o, ts);
      if old(NonFull()) == {} {
        BinOkUsed(o.runs, o.tree, o.runcur);
      }
      if runcur != 0 && 0 < runs[runcur].nfree {
        a, regind := UseOther(a, newRun, oom, o, ts);
        return true, a, regind;
      }
      if a == 0 {
        assert tree == o.tree;
        return false, 0, 0;
      }
      ghost var was := if old(NonFull()) == {} then o.runs else old(runs);
      NewNonFull(was, newRun, Run(0, nregs, {}));
      ghost var rest := tree;
      regind := UseRun(a, was, newRun);
      assert tree == rest && runcur == a;
      ok := true;
    }

    /** arena_malloc_small: the first free region of a run; if none has any, the lock is dropped for a new run. */
    method Malloc(newRun: nat, oom: bool, o: Others, ghost ts: map<nat, set<nat>>)
      returns (ok: bool, a: nat, regind: nat)
      requires Valid() && newRun !in runs && newRun != 0
      requires NonFull() == {} ==> OthersOk(o, ts, newRun)
      modifies this
      ensures Valid() && (ok ==> regind < nregs)
      ensures old(NonFull()) != {}
          ==> ok && Handed(old(runs), runs, newRun, a, regind) && Touched(old(touched), touched, ok, a, regind)
              && (a, regind) !in RegionsOf(old(runs)) && Regions() == RegionsOf(old(runs)) + {(a, regind)}
      ensures old(NonFull()) != {} && old(Packed(tree, runcur))
          ==> Packed(tree, runcur) && forall b :: b in old(NonFull()) ==> a <= b
      ensures old(NonFull()) == {}
          ==> Chosen(o, newRun, oom, ok, a) && Touched(ts, touched, ok, a, regind)
              && (!ok ==> Others(runs, tree, runcur) == o)
      ensures old(NonFull()) == {} && ok
          ==> Handed(o.runs, runs, newRun, a, regind)
              && (a, regind) !in RegionsOf(o.runs) && Regions() == RegionsOf(o.runs) + {(a, regind)}
      ensures old(NonFull()) == {} && Packed(o.tree, o.runcur)
          ==> (Packed(tree, runcur) <==> ok && a == newRun ==> forall b :: b in o.tree ==> newRun < b)
    {
      hide RunsOk, NonFullOf, Handed, BinOk, RegionsOf;
      BinOkUsed(runs, tree, runcur);
      ghost var was := if NonFull() == {} then o.runs else runs;
      if runcur != 0 && 0 < runs[runcur].nfree {
        a := runcur;
        if Packed(tree, runcur) {
          CurrentLowest(runs, tree, runcur);
        }
        regind := RegAlloc(a);
        CurrentOk(old(runs), runs, tree, a);
        HandedBy(old(runs), old(runs), runs, newRun, a, regind);
        ok := true;
      } else {
        ok, a, regind := MallocHard(newRun, oom, o, ts);
      }
      if ok {
        HandedRegions(was, runs, newRun, a, regind);
      }
    }

    /**
     arena_bin_lower_run: a run that is no longer full finds its place, and the current run stays below all others.
     */
    method LowerRun(a: nat)
      requires a != 0 && 0 !in runs && BinButFor(runs, tree, runcur, a) && 0 < runs[a].nfree
      modifies this`tree, this`runcur
      ensures BinOk(runs, tree, runcur) && (a == runcur || a in tree) && old(tree) <= tree
      ensures runcur == if old(runcur) == 0 then 0 else Min(a, old(runcur))
      ensures old(Packed(tree, runcur)) ==> Packed(tree, runcur)
    {
      if a < runcur {
        if 0 < runs[runcur].nfree {
          tree := tree + {runcur};
        }
        runcur := a;
      } else {
        tree := tree + {a};
      }
    }

    /** arena_dissociate_bin_run: without the run the bin is in order, and no trace of the run is left. */
    method Dissociate(a: nat)
      requires a != 0 && 0 !in runs && BinWithout(runs, tree, runcur, a, nregs == 1) && 0 < runs[a].nfree
      modifies this`tree, this`runcur
      ensures BinOk(runs - {a}, tree, runcur) && a != runcur && a !in tree
      ensures old(runcur) != a ==> runcur == old(runcur)
      ensures old(Packed(tree, runcur)) ==> Packed(tree, runcur)
    {
      if a == runcur {
        runcur := 0;
      } else if nregs != 1 {
        tree := tree - {a};
      }
      assert NonFullOf(runs - {a}) == NonFullOf(runs) - {a};
    }

    /**
     arena_dalloc_bin_locked: free a region; a run without any region in use is given back, and nextind tells how far
     its regions were ever handed out.
     */
    method Dalloc(a: nat, offset: nat) returns (gone: bool, nextind: nat)
      requires Valid() && a in runs && offset % regInterval == 0 && offset / regInterval in runs[a].used
      modifies this
      ensures Valid() && Regions() == old(Regions()) - {(a, offset / regInterval)}
      ensures gone == (old(runs[a].used) == {offset / regInterval}) && (gone <==> a !in runs)
      ensures !gone ==> runs[a].used == old(runs[a].used) - {offset / regInterval}
      ensures forall b :: b != a ==> (b in runs <==> b in old(runs)) && (b in runs ==> runs[b] == old(runs)[b])
      ensures touched == if gone then old(touched) - {a} else old(touched)
      ensures nextind == old(runs[a].nextind) && 0 < nextind <= nregs
      ensures forall i: nat :: i in old(touched[a]) <==> i < nextind
      ensures old(Packed(tree, runcur)) ==> Packed(tree, runcur)
      ensures old(runcur) == 0 ==> runcur == 0
    {
      hide NonFullOf, BinOk, BinButFor, BinWithout, RegionsOf, AllOk;
      BinOkUsed(runs, tree, runcur);
      RunFacts(a);
      nextind := runs[a].nextind;
      assert offset / regInterval in touched[a];
      var regind := RegDalloc(a, offset);
      FreedRegions(old(runs), runs, a, regind);
      RunFacts(a);
      AllFree(runs[a]);
      gone := runs[a].nfree == nregs;
      if gone {
        DissociatedOk(old(runs), runs, tree, runcur, a, nregs);
        Dissociate(a);
        AllOkLess(runs, touched, a);
        runs, touched := runs - {a}, touched - {a};
      } else {
        LoweredOk(old(runs), runs, tree, runcur, a);
        if runs[a].nfree == 1 && a != runcur {
          LowerRun(a);
        }
      }
    }

    /**
     With two regions to a run: while one thread gets memory for a run at 200, another fills a run at 100, fails to
     get a further one, and frees a region.  The current run is then not the lowest run with a free region.
     */
    static method NotPacked() returns (b: Bin)
      ensures b.Valid() && !Packed(b.tree, b.runcur)
    {
      var c := LeftBehind();
      b := new Bin(2, 1);
      ghost var ts := c.touched;
      var ok, a, i := b.Malloc(200, false, Others(c.runs, c.tree, c.runcur), ts);
    }

    /** A bin with one run, at 100, of which both regions are in use. */
    static method FullRun() returns (c: Bin)
      ensures fresh(c) && c.Valid() && c.nregs == 2 && c.regInterval == 1
      ensures 100 in c.runs && c.runs == map[100 := c.runs[100]] && c.runs[100].used == {0, 1}
    {
      c := HalfRun();
      c.RunFacts(100);
      assert 100 in c.NonFull();
      hide BinOk, RegionsOf, Touched;
      var ok, a, i := c.Malloc(300, false, Others(map[], {}, 0), map[]);
      assert a == 100 && i == 1;
    }

    /** A bin with one run, at 100, of which one region is in use. */
    static method HalfRun() returns (c: Bin)
      ensures fresh(c) && c.Valid() && c.nregs == 2 && c.regInterval == 1
      ensures 100 in c.runs && c.runs == map[100 := c.runs[100]] && c.runs[100].used == {0}
    {
      c := new Bin(2, 1);
      var ok, a, i := c.Malloc(100, false, Others(map[], {}, 0), map[]);
    }

    static method LeftBehind() returns (c: Bin)
      ensures c.Valid() && c.nregs == 2 && c.regInterval == 1 && c.tree == {100} && c.runcur == 0 && 200 !in c.runs
    {
      hide BinOk, NonFullOf, Packed;
      c := FullRun();
      c.RunFacts(100);
      OneFull(c.runs);
      ghost var ts := c.touched;
      var ok, a, i := c.Malloc(300, true, Others(c.runs, {}, 0), ts);
      var gone, nextind := c.Dalloc(100, 1);
      assert {0, 1} - {1} == {0};
      c.RunFacts(100);
      OneFree(c.runs, c.tree, c.runcur);
    }

    lemma AllFree(r: Run)
      requires r.nfree + |r.used| == nregs
      ensures r.nfree == nregs <==> r.used == {}
    {
    }

    lemma TouchedRuns()
      requires RunsOk()
      ensures touched.Keys == runs.Keys
      ensures 0 < nregs
    {
    }

    /** With the current run full or absent, the tree holds all runs with free regions. */
    lemma NonFullNotNull()
      requires Valid()
      ensures (runcur == 0 || runs[runcur].nfree == 0) ==> tree == NonFull()
      ensures 0 !in NonFull()
    {
    }
  }
}
