/**
 Where the regions of a run lie, and which of its pages were never touched (arena_bin_info_t in arena.h,
 arena_dalloc_bin_run in arena.c).
 */
module BinPages {

  import opened Machine

  /** The layout of the runs of a bin: a header, which is not empty, then regions between redzones. */
  datatype BinInfo = BinInfo(runPages: nat, reg0: nat, interval: nat, redzone: nat, regSize: nat, nregs: nat)

  predicate LayoutOk(info: BinInfo, page: nat) {
    && 0 < page && 0 < info.regSize && info.interval == info.regSize + 2 * info.redzone && info.redzone < info.reg0
    && info.reg0 + info.nregs * info.interval - info.redzone <= info.runPages * page
  }

  /** Byte b of a run belongs to region k or to its redzones. */
  predicate RegionByte(info: BinInfo, k: nat, b: nat) {
    info.reg0 + k * info.interval <= b + info.redzone && b < info.reg0 + k * info.interval + info.regSize + info.redzone
  }

  function PageCeiling(b: nat, page: nat): (p: nat)
    requires 0 < page
    ensures p * page < b + page && b <= p * page
  {
    Divides(b + page - 1, page);
    (b + page - 1) / page
  }

  /** The first page that no region below nextind reaches into, as arena_dalloc_bin_run computes it. */
  function Past(info: BinInfo, page: nat, runInd: nat, nextind: nat): nat
    requires 0 < page && info.redzone <= info.reg0
  {
    var used := Extent(info, nextind);
    PageCeiling(runInd * page + used, page)
  }

  /** How far the header and the regions below nextind reach. */
  function Extent(info: BinInfo, nextind: nat): (n: nat)
    requires info.redzone <= info.reg0
    ensures n + info.redzone == info.reg0 + nextind * info.interval
  {
    MulLe(0, nextind, info.interval);
    info.reg0 + nextind * info.interval - info.redzone
  }

  predicate HeaderByte(info: BinInfo, b: nat) {
    b + info.redzone < info.reg0
  }

  /** Byte b of a run lies in a page before past. */
  predicate Before(page: nat, runInd: nat, b: nat, past: nat)
    requires 0 < page
  {
    Quot(runInd * page + b, page) < past
  }

  /** No byte of the header or of a region that was ever handed out lies in a page from past on. */
  ghost predicate Untouched(info: BinInfo, page: nat, runInd: nat, nextind: nat, past: nat)
    requires 0 < page
  {
    && (forall b: nat :: HeaderByte(info, b) ==> Before(page, runInd, b, past))
    && (forall k: nat, b: nat :: k < nextind && RegionByte(info, k, b) ==> Before(page, runInd, b, past))
  }

  lemma PageBelow(x: nat, y: nat, page: nat)
    requires 0 < page && x < y
    ensures Quot(x, page) < PageCeiling(y, page)
  {
    var p, q := Quot(x, page), PageCeiling(y, page);
    hide Quot, PageCeiling;
    Distribute(p, q, page);
    var d: int := p; d := d - q;
    NoMultiple(d, page);
  }

  lemma RegionEnds(info: BinInfo, nextind: nat, k: nat, b: nat)
    requires info.interval == info.regSize + 2 * info.redzone && info.redzone <= info.reg0
    requires k < nextind && RegionByte(info, k, b)
    ensures b < Extent(info, nextind)
  {
    MulLe(k + 1, nextind, info.interval);
    Distribute(k, 1, info.interval);
  }

  /** Trimming the pages from past on takes only what no region handed out ever reached. */
  lemma PastUntouched(info: BinInfo, page: nat, runInd: nat, nextind: nat)
    requires LayoutOk(info, page)
    ensures Untouched(info, page, runInd, nextind, Past(info, page, runInd, nextind))
  {
    hide Quot, PageCeiling, RegionByte, HeaderByte, Before, Extent, Past, Untouched;
    forall b: nat | HeaderByte(info, b)
      ensures Before(page, runInd, b, Past(info, page, runInd, nextind))
    {
      HeaderEnds(info, nextind, b);
      EndsBefore(info, page, runInd, nextind, b);
    }
    forall k: nat, b: nat | k < nextind && RegionByte(info, k, b)
      ensures Before(page, runInd, b, Past(info, page, runInd, nextind))
    {
      RegionEnds(info, nextind, k, b);
      EndsBefore(info, page, runInd, nextind, b);
    }
    UntouchedMeans(info, page, runInd, nextind, Past(info, page, runInd, nextind));
  }

  lemma UntouchedMeans(info: BinInfo, page: nat, runInd: nat, nextind: nat, past: nat)
    requires 0 < page
    requires forall b: nat :: HeaderByte(info, b) ==> Before(page, runInd, b, past)
    requires forall k: nat, b: nat :: k < nextind && RegionByte(info, k, b) ==> Before(page, runInd, b, past)
    ensures Untouched(info, page, runInd, nextind, past)
  {
    hide HeaderByte, Before, RegionByte;
  }

  lemma HeaderEnds(info: BinInfo, nextind: nat, b: nat)
    requires info.redzone <= info.reg0 && HeaderByte(info, b)
    ensures b < Extent(info, nextind)
  {
    MulLe(0, nextind, info.interval);
  }

  lemma EndsBefore(info: BinInfo, page: nat, runInd: nat, nextind: nat, b: nat)
    requires 0 < page && info.redzone <= info.reg0 && b < Extent(info, nextind)
    ensures Before(page, runInd, b, Past(info, page, runInd, nextind))
  {
    hide Quot, PageCeiling, Extent;
    PageBelow(runInd * page + b, runInd * page + Extent(info, nextind), page);
  }

  /**
   It is the first such page: the one before holds the last byte of the last region handed out, redzone included, or the
   last byte of the header if none was handed out.
   */
  lemma PastLeast(info: BinInfo, page: nat, runInd: nat, nextind: nat)
    requires LayoutOk(info, page)
    ensures var b := Extent(info, nextind) - 1;
      && 0 <= b && (if nextind == 0 then HeaderByte(info, b) else RegionByte(info, nextind - 1, b))
      && Quot(runInd * page + b, page) + 1 == Past(info, page, runInd, nextind)
  {
    var used := Extent(info, nextind);
    MulLe(0, nextind, info.interval);
    if nextind > 0 {
      Distribute(nextind - 1, 1, info.interval);
      MulLe(0, nextind - 1, info.interval);
    }
    var x := runInd * page + used;
    var p, q := Quot(x - 1, page), PageCeiling(x, page);
    hide Quot, PageCeiling, Extent;
    PageBelow(x - 1, x, page);
    Distribute(p, q, page);
    Distribute(p, 1, page);
    NoMultiple(q - p - 1, page);
    Distribute(q, p + 1, page);
  }

  /** It lies behind the first page of the run, and not behind the run. */
  lemma PastWithin(info: BinInfo, page: nat, runInd: nat, nextind: nat)
    requires LayoutOk(info, page) && nextind <= info.nregs
    ensures runInd < Past(info, page, runInd, nextind) <= runInd + info.runPages
  {
    var used := Extent(info, nextind);
    MulLe(nextind, info.nregs, info.interval);
    MulLe(0, nextind, info.interval);
    var q := PageCeiling(runInd * page + used, page);
    hide PageCeiling, Extent;
    Distribute(runInd, info.runPages, page);
    Distribute(q, runInd, page);
    Distribute(q, runInd + info.runPages, page);
    NoMultiple(q - runInd - info.runPages, page);
    NoMultiple(q - runInd, page);
  }
}
