/**
 The extents of address space that chunk.c keeps for reuse: nodes that are in one tree by address and in
 one by size.  Module ExtentSeqs is about the extents as values, in address order.
 */
module ExtentSeqs {

  const SIZE: nat := 0x1_0000_0000_0000_0000

  datatype Ext = Ext(addr: nat, size: nat, zeroed: bool) {
    function End(): nat { addr + size }
  }

  ghost predicate Aligned(x: nat, c: nat)
    requires 0 < c
  {
    x % c == 0
  }

  ghost predicate Fits(x: Ext, c: nat)
    requires 0 < c
  {
    0 < x.size && Aligned(x.addr, c) && Aligned(x.size, c)
  }

  /** Aligned extents strictly between lo and hi, in order of address, that neither overlap nor touch. */
  ghost predicate Chain(v: seq<Ext>, lo: int, hi: int, c: nat)
    requires 0 < c
  {
    v == [] || (lo < v[0].addr && Fits(v[0], c) && v[0].End() < hi && Chain(v[1..], v[0].End(), hi, c))
  }

  lemma {:induction false} ChainConcat(a: seq<Ext>, b: seq<Ext>, lo: int, m: int, hi: int, c: nat)
    requires 0 < c && Chain(a, lo, m, c) && Chain(b, m - 1, hi, c) && lo < m <= hi
    ensures Chain(a + b, lo, hi, c)
  {
    if a == [] {
      assert a + b == b;
      ChainWeaken(b, m - 1, lo, hi, hi, c);
    } else {
      ChainConcat(a[1..], b, a[0].End(), m, hi, c);
      assert (a + b)[1..] == a[1..] + b;
    }
  }

  lemma {:induction false} ChainWeaken(v: seq<Ext>, lo: int, lo': int, hi: int, hi': int, c: nat)
    requires 0 < c && Chain(v, lo, hi, c) && lo' <= lo && hi <= hi'
    ensures Chain(v, lo', hi', c)
  {
    if v != [] {
      ChainWeaken(v[1..], v[0].End(), v[0].End(), hi, hi', c);
    }
  }

  lemma {:induction false} ChainSplit(a: seq<Ext>, x: Ext, b: seq<Ext>, lo: int, hi: int, c: nat)
    requires 0 < c && Chain(a + [x] + b, lo, hi, c)
    ensures Chain(a, lo, x.addr, c) && Chain(b, x.End(), hi, c) && Fits(x, c) && lo < x.addr && x.End() < hi
  {
    var v := a + [x] + b;
    if a == [] {
      assert v[0] == x && v[1..] == b;
    } else {
      assert v[1..] == a[1..] + [x] + b;
      ChainSplit(a[1..], x, b, a[0].End(), hi, c);
    }
  }

  lemma {:induction false} ChainBounds(v: seq<Ext>, lo: int, hi: int, c: nat)
    requires 0 < c && Chain(v, lo, hi, c)
    ensures forall i :: 0 <= i < |v| ==> lo < v[i].addr && v[i].End() < hi && Fits(v[i], c)
    ensures forall i, j :: 0 <= i < j < |v| ==> v[i].End() < v[j].addr
  {
    if v != [] {
      ChainBounds(v[1..], v[0].End(), hi, c);
      forall i | 0 < i < |v|
        ensures v[i] == v[1..][i - 1]
      {
      }
    }
  }

  /** A chain whose extents all end below m. */
  lemma {:induction false} ChainBelow(v: seq<Ext>, lo: int, hi: int, m: int, c: nat)
    requires 0 < c && Chain(v, lo, hi, c) && forall x :: x in v ==> x.End() < m
    ensures Chain(v, lo, m, c)
  {
    if v != [] {
      ChainBelow(v[1..], v[0].End(), hi, m, c);
    }
  }

  /** A chain whose first extent starts above m. */
  lemma ChainAbove(v: seq<Ext>, lo: int, hi: int, m: int, c: nat)
    requires 0 < c && Chain(v, lo, hi, c) && (v != [] ==> m < v[0].addr)
    ensures Chain(v, m, hi, c)
  {
  }

  /** In order of address. */
  ghost predicate Asc(v: seq<Ext>, lo: int) {
    v == [] || (lo < v[0].addr && Asc(v[1..], v[0].addr))
  }

  lemma {:induction false} AscBounds(v: seq<Ext>, lo: int)
    requires Asc(v, lo)
    ensures (forall i :: 0 <= i < |v| ==> lo < v[i].addr) && forall i, j :: 0 <= i < j < |v| ==> v[i].addr < v[j].addr
  {
    if v != [] {
      AscBounds(v[1..], v[0].addr);
      assert forall i :: 0 < i < |v| ==> v[i] == v[1..][i - 1];
    }
  }

  lemma AscFrom(v: seq<Ext>, k: nat)
    requires Asc(v, -1)
    ensures forall i :: k <= i < |v| ==> v[k].addr <= v[i].addr
  {
    AscBounds(v, -1);
  }

  /** Order is a matter of neighbours. */
  lemma {:induction false} AscSplit(a: seq<Ext>, b: seq<Ext>, lo: int)
    ensures Asc(a + b, lo) <==> Asc(a, lo) && Asc(b, if a == [] then lo else a[|a| - 1].addr)
  {
    if a == [] {
      assert a + b == b;
    } else {
      AscSplit(a[1..], b, a[0].addr);
      assert (a + b)[1..] == a[1..] + b;
    }
  }

  lemma AscInsert(v: seq<Ext>, k: nat, x: Ext)
    requires Asc(v, -1) && k <= |v|
    requires forall i :: 0 <= i < |v| ==> if i < k then v[i].addr < x.addr else x.addr < v[i].addr
    ensures Asc(v[..k] + [x] + v[k..], -1)
  {
    var a, b := v[..k], v[k..];
    assert v == a + b && a + [x] + b == a + ([x] + b) && ([x] + b)[1..] == b;
    AscSplit(a, b, -1);
    AscSplit(a, [x] + b, -1);
  }

  lemma AscRemove(v: seq<Ext>, k: nat)
    requires Asc(v, -1) && k < |v|
    ensures Asc(v[..k] + v[k + 1..], -1)
  {
    var a, b := v[..k], v[k + 1..];
    assert v == a + ([v[k]] + b) && ([v[k]] + b)[1..] == b;
    AscBounds(v, -1);
    AscSplit(a, [v[k]] + b, -1);
    AscSplit(a, b, -1);
  }

  lemma AscChange(v: seq<Ext>, k: nat, x: Ext)
    requires Asc(v, -1) && k < |v| && (0 < k ==> v[k - 1].addr < x.addr) && (k + 1 < |v| ==> x.addr < v[k + 1].addr)
    ensures Asc(v[k := x], -1)
  {
    var a, b := v[..k], v[k + 1..];
    assert v == a + ([v[k]] + b) && ([v[k]] + b)[1..] == b;
    assert v[k := x] == a + ([x] + b) && ([x] + b)[1..] == b;
    AscSplit(a, [v[k]] + b, -1);
    AscSplit(a, [x] + b, -1);
  }

  lemma {:induction false} ChainAsc(v: seq<Ext>, lo: int, hi: int, c: nat)
    requires 0 < c && Chain(v, lo, hi, c)
    ensures Asc(v, lo)
  {
    if v != [] {
      ChainWeaken(v[1..], v[0].End(), v[0].addr, hi, hi, c);
      ChainAsc(v[1..], v[0].addr, hi, c);
    }
  }

  // ----- Addresses covered

  ghost predicate In(x: nat, addr: nat, size: nat) {
    addr <= x < addr + size
  }

  ghost function Range(addr: nat, size: nat): set<nat> {
    set x: nat | addr <= x < addr + size && In(x, addr, size)
  }

  ghost function Bytes(v: seq<Ext>): set<nat> {
    if v == [] then {} else Range(v[0].addr, v[0].size) + Bytes(v[1..])
  }

  lemma {:induction false} BytesConcat(v: seq<Ext>, w: seq<Ext>)
    ensures Bytes(v + w) == Bytes(v) + Bytes(w)
  {
    if v == [] {
      assert v + w == w;
    } else {
      BytesConcat(v[1..], w);
      assert (v + w)[1..] == v[1..] + w;
    }
  }

  lemma BytesMiddle(v: seq<Ext>, m: seq<Ext>, w: seq<Ext>)
    ensures Bytes(v + m + w) == Bytes(v) + Bytes(m) + Bytes(w)
  {
    BytesConcat(v, m);
    BytesConcat(v + m, w);
  }

  lemma BytesOne(x: Ext)
    ensures Bytes([x]) == Range(x.addr, x.size)
  {
    assert [x][1..] == [];
  }

  lemma RangeJoin(addr: nat, x: nat, y: nat)
    ensures Range(addr, x) + Range(addr + x, y) == Range(addr, x + y)
  {
  }

  lemma {:induction false} BytesHas(v: seq<Ext>, x: Ext)
    requires x in v
    ensures Range(x.addr, x.size) <= Bytes(v)
  {
    if x != v[0] {
      BytesHas(v[1..], x);
    }
  }

  /** Extents that overlap no part of a free range lie below or above it. */
  lemma Beside(v: seq<Ext>, x: Ext, chunk: nat, size: nat)
    requires x in v && 0 < size && 0 < x.size && Range(chunk, size) !! Bytes(v)
    ensures x.End() <= chunk || chunk + size <= x.addr
  {
    BytesHas(v, x);
    var b := if x.addr < chunk then chunk else x.addr;
    assert x.End() > chunk && x.addr < chunk + size ==> b in Range(x.addr, x.size) && b in Range(chunk, size);
  }

  lemma {:induction false} BytesBetween(v: seq<Ext>, lo: int, hi: int, c: nat, b: nat)
    requires 0 < c && Chain(v, lo, hi, c) && b in Bytes(v)
    ensures lo < b && b + 1 < hi
  {
    if b !in Range(v[0].addr, v[0].size) {
      BytesBetween(v[1..], v[0].End(), hi, c, b);
    }
  }

  /** Extents marked as zeroed lie in zeroed memory. */
  ghost predicate ZeroOk(v: seq<Ext>, zeros: set<nat>) {
    forall x :: x in v && x.zeroed ==> Range(x.addr, x.size) <= zeros
  }

  // ----- Multiples

  lemma AtLeast(k: int, c: int)
    requires 0 <= c
    ensures (k >= 1 ==> k * c >= c) && (k <= -1 ==> k * c <= -c)
  {
  }

  lemma Multiple(x: nat, k: int, c: nat)
    requires 0 < c && x == k * c
    ensures Aligned(x, c)
  {
    assert x == x / c * c + x % c;
    assert (k - x / c) * c == x % c;
    AtLeast(k - x / c, c);
  }

  lemma AddMultiples(x: nat, y: nat, c: nat)
    requires 0 < c && Aligned(x, c) && Aligned(y, c)
    ensures Aligned(x + y, c) && (x >= y ==> Aligned(x - y, c))
  {
    assert x == x / c * c && y == y / c * c;
    assert x + y == (x / c + y / c) * c && x - y == (x / c - y / c) * c;
    Multiple(x + y, x / c + y / c, c);
    if x >= y {
      Multiple(x - y, x / c - y / c, c);
    }
  }

  lemma PositiveMultiple(d: nat, c: nat)
    requires 0 < c && 0 < d && Aligned(d, c)
    ensures c <= d
  {
    assert d == d / c * c;
    AtLeast(d / c, c);
  }

  /** ALIGNMENT_CEILING, on addresses for which it does not wrap around. */
  function Ceiling(x: nat, a: nat): (r: nat)
    requires 0 < a
  {
    (x + (a - 1)) / a * a
  }

  lemma CeilingNear(x: nat, a: nat)
    requires 0 < a
    ensures x <= Ceiling(x, a) < x + a && Aligned(Ceiling(x, a), a)
  {
    var q := (x + (a - 1)) / a;
    assert x + (a - 1) == q * a + (x + (a - 1)) % a;
    Multiple(q * a, q, a);
  }

  lemma MultipleOfMultiple(r: nat, a: nat, c: nat)
    requires 0 < c && 0 < a && Aligned(r, a) && Aligned(a, c)
    ensures Aligned(r, c)
  {
    assert r == r / a * a && a == a / c * c;
    assert r == r / a * (a / c) * c;
    Multiple(r, r / a * (a / c), c);
  }

  /** Aligning an address that is a multiple of c to a multiple of c moves it by no more than the alignment less c. */
  lemma CeilingGap(x: nat, a: nat, c: nat)
    requires 0 < c && 0 < a && Aligned(x, c) && Aligned(a, c)
    ensures x <= Ceiling(x, a) <= x + a - c && Aligned(Ceiling(x, a), a) && Aligned(Ceiling(x, a), c)
  {
    var r := Ceiling(x, a);
    CeilingNear(x, a);
    MultipleOfMultiple(r, a, c);
    hide Aligned, Ceiling;
    AddMultiples(r, x, c);
    AddMultiples(a, r - x, c);
    PositiveMultiple(a - (r - x), c);
  }

  // ----- Recording

  ghost predicate TouchesNext(x: Ext, b: seq<Ext>) {
    b != [] && b[0].addr == x.End()
  }

  ghost predicate TouchesPrev(a: seq<Ext>, x: Ext) {
    a != [] && a[|a| - 1].End() == x.addr
  }

  /** x, with the extent after it if they touch. */
  ghost function Forward(x: Ext, b: seq<Ext>): Ext {
    if TouchesNext(x, b) then Ext(x.addr, b[0].size + x.size, b[0].zeroed && x.zeroed) else x
  }

  ghost function ForwardRest(x: Ext, b: seq<Ext>): seq<Ext> {
    if TouchesNext(x, b) then b[1..] else b
  }

  ghost function Backward(a: seq<Ext>, x: Ext): Ext {
    if TouchesPrev(a, x) then Ext(a[|a| - 1].addr, x.size + a[|a| - 1].size, x.zeroed && a[|a| - 1].zeroed) else x
  }

  ghost function BackwardRest(a: seq<Ext>, x: Ext): seq<Ext> {
    if TouchesPrev(a, x) then a[..|a| - 1] else a
  }

  /** A free range and the extents below and above it. */
  ghost predicate Place(a: seq<Ext>, x: Ext, b: seq<Ext>, c: nat)
    requires 0 < c
  {
    Chain(a, -1, x.addr + 1, c) && Fits(x, c) && Chain(b, x.End() - 1, SIZE + 1, c) && x.End() <= SIZE
  }

  lemma FindPlace(v: seq<Ext>, k: nat, x: Ext, c: nat)
    requires 0 < c && Chain(v, -1, SIZE + 1, c) && k <= |v| && Fits(x, c)
    requires x.End() <= SIZE && Range(x.addr, x.size) !! Bytes(v)
    requires forall i :: 0 <= i < |v| ==> (i < k <==> v[i].addr < x.End())
    ensures Place(v[..k], x, v[k..], c)
  {
    hide Range, Aligned;
    ChainAt(v, k, -1, SIZE + 1, c);
    ChainBounds(v, -1, SIZE + 1, c);
    forall e | e in v[..k]
      ensures e.End() < x.addr + 1
    {
      var i :| 0 <= i < k && v[i] == e;
      Beside(v, v[i], x.addr, x.size);
    }
    hide Chain, Bytes;
    ChainBelow(v[..k], -1, SIZE + 1, x.addr + 1, c);
    ChainAbove(v[k..], -1, SIZE + 1, x.End() - 1, c);
  }

  lemma {:induction false} ChainAt(v: seq<Ext>, k: nat, lo: int, hi: int, c: nat)
    requires 0 < c && Chain(v, lo, hi, c) && k <= |v|
    ensures Chain(v[..k], lo, hi, c) && Chain(v[k..], lo, hi, c)
  {
    if k == 0 {
      assert v[k..] == v;
    } else {
      ChainAt(v[1..], k - 1, v[0].End(), hi, c);
      assert v[..k][1..] == v[1..][..k - 1] && v[k..] == v[1..][k - 1..];
      ChainWeaken(v[k..], v[0].End(), lo, hi, hi, c);
    }
  }

  lemma ForwardPlace(a: seq<Ext>, x: Ext, b: seq<Ext>, c: nat)
    requires 0 < c && Place(a, x, b, c)
    ensures Place(a, Forward(x, b), ForwardRest(x, b), c) && !TouchesNext(Forward(x, b), ForwardRest(x, b))
    ensures Range(x.addr, x.size) + Bytes(b) == Range(Forward(x, b).addr, Forward(x, b).size) + Bytes(ForwardRest(x, b))
  {
    if TouchesNext(x, b) {
      AddMultiples(b[0].size, x.size, c);
      ChainWeaken(b[1..], b[0].End(), b[0].End() - 1, SIZE + 1, SIZE + 1, c);
      RangeJoin(x.addr, x.size, b[0].size);
    }
  }

  /** What chunk_record leaves: sound extents... */
  lemma Recorded(a: seq<Ext>, x: Ext, b: seq<Ext>, c: nat)
    requires 0 < c && Place(a, x, b, c) && !TouchesNext(x, b)
    ensures Chain(BackwardRest(a, x) + [Backward(a, x)] + b, -1, SIZE + 1, c)
  {
    ChainAbove(b, x.End() - 1, SIZE + 1, x.End(), c);
    if a != [] {
      var init, p := a[..|a| - 1], a[|a| - 1];
      assert a == init + [p] + [];
      ChainSplit(init, p, [], -1, x.addr + 1, c);
      ChainBounds(a, -1, x.addr + 1, c);
      AddMultiples(x.size, p.size, c);
      hide Aligned;
      if TouchesPrev(a, x) {
        ChainOf(init, Backward(a, x), b, c);
      } else {
        ChainBelow(a, -1, x.addr + 1, x.addr, c);
        ChainOf(a, x, b, c);
      }
    } else {
      ChainOf(a, x, b, c);
    }
  }

  /** ... that cover the range as well. */
  lemma RecordedBytes(a: seq<Ext>, x: Ext, b: seq<Ext>)
    ensures Bytes(BackwardRest(a, x) + [Backward(a, x)] + b) == Bytes(a) + Range(x.addr, x.size) + Bytes(b)
  {
    var a', y := BackwardRest(a, x), Backward(a, x);
    BytesMiddle(a', [y], b);
    BytesOne(y);
    if TouchesPrev(a, x) {
      var p := a[|a| - 1];
      assert a == a' + [p];
      BytesConcat(a', [p]);
      BytesOne(p);
      RangeJoin(p.addr, p.size, x.size);
    }
  }

  lemma ChainOf(a: seq<Ext>, x: Ext, b: seq<Ext>, c: nat)
    requires 0 < c && Chain(a, -1, x.addr, c) && Fits(x, c) && x.End() <= SIZE && Chain(b, x.End(), SIZE + 1, c)
    ensures Chain(a + [x] + b, -1, SIZE + 1, c)
  {
    assert ([x] + b)[1..] == b;
    ChainConcat(a, [x] + b, -1, x.addr, SIZE + 1, c);
    assert a + [x] + b == a + ([x] + b);
  }

  lemma RecordedZero(a: seq<Ext>, x: Ext, b: seq<Ext>, zeros: set<nat>)
    requires ZeroOk(a + [x] + b, zeros)
    ensures ZeroOk(BackwardRest(a, Forward(x, b)) + [Backward(a, Forward(x, b))] + ForwardRest(x, b), zeros)
  {
    var y := Forward(x, b);
    assert forall e :: e in a || e == x || e in b ==> e in a + [x] + b;
    assert y.zeroed ==> Range(y.addr, y.size) <= zeros by {
      if TouchesNext(x, b) {
        RangeJoin(x.addr, x.size, b[0].size);
      }
    }
    var z := Backward(a, y);
    assert z.zeroed ==> Range(z.addr, z.size) <= zeros by {
      if TouchesPrev(a, y) {
        RangeJoin(z.addr, a[|a| - 1].size, y.size);
      }
    }
  }

  lemma PlaceBounds(a: seq<Ext>, x: Ext, b: seq<Ext>, c: nat)
    requires 0 < c && Place(a, x, b, c)
    ensures (forall i :: 0 <= i < |a| ==> a[i].addr < x.addr) && (forall i :: 0 <= i < |b| ==> x.End() <= b[i].addr)
    ensures forall i, j :: 0 <= i < j < |b| ==> b[i].addr < b[j].addr
  {
    ChainBounds(a, -1, x.addr + 1, c);
    ChainBounds(b, x.End() - 1, SIZE + 1, c);
  }

  /** The extent that follows a range, if any, is the first above it. */
  lemma NextIn(a: seq<Ext>, x: Ext, b: seq<Ext>, c: nat)
    requires 0 < c && Place(a, x, b, c)
    ensures TouchesNext(x, b) <==> exists e :: e in a + b && e.addr == x.End()
  {
    PlaceBounds(a, x, b, c);
    if TouchesNext(x, b) {
      assert b[0] in a + b;
    }
    forall e | e in a + b
      ensures e.addr == x.End() ==> b != [] && e == b[0]
    {
    }
  }

  /** Purging a range that no extent covers concerns no extent. */
  lemma ZerosRecorded(a: seq<Ext>, x: Ext, b: seq<Ext>, zeros: set<nat>, zeros': set<nat>)
    requires ZeroOk(a + b, zeros) && Range(x.addr, x.size) !! Bytes(a + b)
    requires zeros' == if x.zeroed then zeros + Range(x.addr, x.size) else zeros - Range(x.addr, x.size)
    ensures ZeroOk(a + [x] + b, zeros') && ZeroOk(a + b, zeros')
  {
    forall e | e in a + b && e.zeroed
      ensures Range(e.addr, e.size) <= zeros'
    {
      BytesHas(a + b, e);
    }
  }

  lemma ZeroMore(v: seq<Ext>, zeros: set<nat>, zeros': set<nat>)
    requires ZeroOk(v, zeros) && zeros <= zeros'
    ensures ZeroOk(v, zeros')
  {
  }

  // ----- Recycling

  /** A position found by address is where the extent was. */
  lemma SamePlace(v: seq<Ext>, k: nat, at: nat)
    requires Asc(v, -1) && k < |v| && at <= |v| && forall i :: 0 <= i < |v| ==> (i < at <==> v[i].addr < v[k].addr)
    ensures at == k
  {
    AscBounds(v, -1);
    hide Asc;
    var y := v[if at < k then at else k];
  }

  /** The place of an extent between others. */
  lemma PlaceIs(a: seq<Ext>, x: Ext, b: seq<Ext>, at: nat)
    requires at <= |a + b| && forall i :: 0 <= i < |a + b| ==> (i < at <==> (a + b)[i].addr < x.addr)
    requires (forall i :: 0 <= i < |a| ==> a[i].addr < x.addr) && forall i :: 0 <= i < |b| ==> x.addr < b[i].addr
    ensures at == |a| && (a + b)[..at] == a && (a + b)[at..] == b
  {
    var y := if at < |a + b| then (a + b)[at] else x;
    var z := if |a| < |a + b| then (a + b)[|a|] else x;
  }

  lemma ForwardShape(a: seq<Ext>, x: Ext, b: seq<Ext>)
    ensures TouchesNext(x, b) <==> b != [] && b[0].addr == x.End()
    ensures TouchesNext(x, b) ==>
      Forward(x, b) == Ext(x.addr, b[0].size + x.size, b[0].zeroed && x.zeroed)
      && (a + b)[|a| := Forward(x, b)] == a + [Forward(x, b)] + ForwardRest(x, b)
    ensures !TouchesNext(x, b) ==> Forward(x, b) == x && ForwardRest(x, b) == b
    ensures b != [] ==> (a + b)[|a|] == b[0]
  {
  }

  lemma BackwardShape(a: seq<Ext>, y: Ext, b: seq<Ext>)
    ensures TouchesPrev(a, y) <==> a != [] && a[|a| - 1].End() == y.addr
    ensures a != [] ==>
      var init, p, v := a[..|a| - 1], a[|a| - 1], a + [y] + b;
      v == init + [p] + [y] + b && v[..|a| - 1] + v[|a|..] == init + [y] + b && v[|a| - 1] == p
      && forall z :: (init + [y] + b)[|a| - 1 := z] == init + [z] + b
    ensures TouchesPrev(a, y) ==>
      var p := a[|a| - 1];
      && Backward(a, y) == Ext(p.addr, y.size + p.size, y.zeroed && p.zeroed) && BackwardRest(a, y) == a[..|a| - 1]
    ensures !TouchesPrev(a, y) ==> Backward(a, y) == y && BackwardRest(a, y) == a
  {
    if a != [] {
      var init, p, v := a[..|a| - 1], a[|a| - 1], a + [y] + b;
      assert v == init + [p] + [y] + b;
      assert v[..|a| - 1] == init && v[|a|..] == [y] + b;
    }
  }

  lemma RecordDone(a: seq<Ext>, x: Ext, b: seq<Ext>, c: nat, zeros: set<nat>)
    requires 0 < c && Place(a, x, b, c) && ZeroOk(a + [x] + b, zeros)
    ensures var y, b' := Forward(x, b), ForwardRest(x, b);
      var w := BackwardRest(a, y) + [Backward(a, y)] + b';
      y.addr == x.addr && Chain(w, -1, SIZE + 1, c) && ZeroOk(w, zeros)
          && Bytes(w) == Bytes(a + b) + Range(x.addr, x.size)
  {
    var y, b' := Forward(x, b), ForwardRest(x, b);
    ForwardPlace(a, x, b, c);
    Recorded(a, y, b', c);
    RecordedBytes(a, y, b');
    BytesConcat(a, b);
    RecordedZero(a, x, b, zeros);
  }

  ghost predicate Touches(e: Ext, x: Ext) {
    e.End() == x.addr || e.addr == x.End()
  }

  /** j is x with the extents of v that touch it, and counts as zeroed just if all of these do. */
  ghost predicate Joined(v: seq<Ext>, x: Ext, j: Ext) {
    && (forall e :: e in v && e.End() == x.addr ==> j.addr == e.addr)
    && ((forall e :: e in v ==> e.End() != x.addr) ==> j.addr == x.addr)
    && (forall e :: e in v && e.addr == x.End() ==> j.End() == e.End())
    && ((forall e :: e in v ==> e.addr != x.End()) ==> j.End() == x.End())
    && (j.zeroed <==> x.zeroed && forall e :: e in v && Touches(e, x) ==> e.zeroed)
  }

  /** The range x has joined the extents that touch it, and the others are as they were. */
  ghost predicate Joins(v: seq<Ext>, v': seq<Ext>, x: Ext) {
    exists j :: Joined(v, x, j) && forall e :: e in v' <==> (e in v && !Touches(e, x)) || e == j
  }

  /** Which extents of a chain touch a range in its place. */
  lemma WhoTouches(a: seq<Ext>, x: Ext, b: seq<Ext>, c: nat)
    requires 0 < c && Place(a, x, b, c)
    ensures forall e :: e in a ==> (e.End() == x.addr <==> TouchesPrev(a, x) && e == a[|a| - 1]) && e.addr != x.End()
    ensures forall e :: e in b ==> (e.addr == x.End() <==> TouchesNext(x, b) && e == b[0]) && e.End() != x.addr
  {
    ChainBounds(a, -1, x.addr + 1, c);
    ChainBounds(b, x.End() - 1, SIZE + 1, c);
  }

  /** What stays of the extents on either side. */
  lemma RestOf(a: seq<Ext>, x: Ext, b: seq<Ext>, c: nat)
    requires 0 < c && Place(a, x, b, c)
    ensures forall e :: e in BackwardRest(a, x) <==> e in a && !Touches(e, x)
    ensures forall e :: e in ForwardRest(x, b) <==> e in b && !Touches(e, x)
  {
    WhoTouches(a, x, b, c);
    ApartIn(a, -1, x.addr + 1, c);
    ApartIn(b, x.End() - 1, SIZE + 1, c);
    hide Place, Chain, Fits;
    if TouchesPrev(a, x) {
      LastOut(a);
    }
    if TouchesNext(x, b) {
      assert b == [b[0]] + b[1..];
    }
  }

  lemma JoinedIs(a: seq<Ext>, x: Ext, b: seq<Ext>, c: nat)
    requires 0 < c && Place(a, x, b, c)
    ensures Joined(a + b, x, Backward(a, Forward(x, b)))
    ensures BackwardRest(a, Forward(x, b)) == BackwardRest(a, x)
  {
    WhoTouches(a, x, b, c);
    hide Place, Chain, Fits;
    assert forall e :: e in a + b <==> e in a || e in b;
    assert TouchesPrev(a, x) ==> a[|a| - 1] in a;
    assert TouchesNext(x, b) ==> b[0] in b;
  }

  /** Which extents recording leaves. */
  lemma RecordJoins(a: seq<Ext>, x: Ext, b: seq<Ext>, c: nat)
    requires 0 < c && Place(a, x, b, c)
    ensures var y := Forward(x, b);
      Joins(a + b, BackwardRest(a, y) + [Backward(a, y)] + ForwardRest(x, b), x)
  {
    hide Place, Forward, ForwardRest, Backward, BackwardRest, Touches, Joined;
    RestOf(a, x, b, c);
    JoinedIs(a, x, b, c);
  }

  lemma LastOut(a: seq<Ext>)
    requires a != [] && forall i, j :: 0 <= i < j < |a| ==> a[i] != a[j]
    ensures forall e :: e in a[..|a| - 1] <==> e in a && e != a[|a| - 1]
  {
    assert a == a[..|a| - 1] + [a[|a| - 1]];
  }

  lemma ApartIn(v: seq<Ext>, lo: int, hi: int, c: nat)
    requires 0 < c && Chain(v, lo, hi, c)
    ensures forall i, j :: 0 <= i < j < |v| ==> v[i] != v[j]
  {
    ChainBounds(v, lo, hi, c);
  }

  lemma PutBounds(a: seq<Ext>, x: Ext, b: seq<Ext>, c: nat)
    requires 0 < c && Chain(a + [x] + b, -1, SIZE + 1, c)
    ensures (forall i :: 0 <= i < |a| ==> a[i].addr < x.addr) && forall i :: 0 <= i < |b| ==> x.End() < b[i].addr
  {
    ChainSplit(a, x, b, -1, SIZE + 1, c);
    ChainBounds(a, -1, x.addr, c);
    ChainBounds(b, x.End(), SIZE + 1, c);
  }

  lemma LeftShape(a: seq<Ext>, x: Ext, b: seq<Ext>, ret: nat, size: nat, leadSize: nat, trailSize: nat)
    requires ret == x.addr + leadSize && ret + size + trailSize == x.End()
    ensures var lead, tail := Lead(x, ret), Trail(x, ret + size);
      && (leadSize == 0 ==> lead == [] && a + lead == a) && (leadSize > 0 ==> lead == [Ext(x.addr, leadSize, x.zeroed)])
      && (trailSize == 0 ==> tail == []) && (trailSize > 0 ==> tail == [Ext(ret + size, trailSize, x.zeroed)])
      && a + [] + b == a + b && a + (lead + []) + b == a + lead + b && a + (lead + tail) + b == a + lead + tail + b
      && (tail == [] ==> a + (lead + tail) + b == a + lead + b)
  {
    var lead, tail := Lead(x, ret), Trail(x, ret + size);
    assert lead + [] == lead;
    assert a + (lead + tail) + b == a + lead + tail + b;
  }

  /** An extent of the size asked for, with room for aligning, has an aligned range of the size wanted in it. */
  lemma RoomFor(a: seq<Ext>, x: Ext, b: seq<Ext>, size: nat, alignment: nat, c: nat)
    requires 0 < c && Chain(a + [x] + b, -1, SIZE + 1, c) && 0 < alignment
    requires Aligned(alignment, c) && 0 < size && Aligned(size, c)
    requires size + alignment - c <= x.size
    ensures var r := Ceiling(x.addr, alignment);
      x.addr <= r && r + size <= x.End() && Aligned(r, alignment) && Aligned(r, c) && x.addr + (alignment - 1) < SIZE
  {
    ChainSplit(a, x, b, -1, SIZE + 1, c);
    CeilingGap(x.addr, alignment, c);
    PositiveMultiple(size, c);
  }

  /**
   Of the extent x what lies before and behind the range is left, and counts as zeroed if x did; the others are as they
   were.
   */
  ghost predicate Leaves(v: seq<Ext>, v': seq<Ext>, x: Ext, at: nat, size: nat, trail: bool) {
    forall e ::
      e in v' <==>
        || (e in v && e != x)
        || (x.addr < at && e == Ext(x.addr, at - x.addr, x.zeroed))
        || (trail && at + size < x.End() && e == Ext(at + size, x.End() - (at + size), x.zeroed))
  }

  lemma CutLeaves(a: seq<Ext>, x: Ext, b: seq<Ext>, at: nat, size: nat, trail: bool, c: nat)
    requires 0 < c && Chain(a + [x] + b, -1, SIZE + 1, c)
    ensures Leaves(a + [x] + b, a + Left(x, at, size, trail) + b, x, at, size, trail)
  {
    PutBounds(a, x, b, c);
    hide Chain;
    assert x !in a && x !in b;
    forall e
      ensures e in a + [x] + b && e != x <==> e in a || e in b
    {
    }
  }

  lemma CutDone(a: seq<Ext>, x: Ext, b: seq<Ext>, at: nat, size: nat, trail: bool, c: nat, zeros: set<nat>)
    requires 0 < c && Chain(a + [x] + b, -1, SIZE + 1, c) && 0 < size && ZeroOk(a + [x] + b, zeros)
    requires x.addr <= at && at + size <= x.End() && Aligned(at, c) && Aligned(size, c)
    ensures var w := a + Left(x, at, size, trail) + b;
      && Chain(w, -1, SIZE + 1, c) && ZeroOk(w, zeros)
      && Bytes(w) == Bytes(a + [x] + b) - Range(at, if trail then size else x.End() - at)
    ensures Range(at, size) <= Bytes(a + [x] + b) && Range(at, x.End() - at) <= Bytes(a + [x] + b)
    ensures Leaves(a + [x] + b, a + Left(x, at, size, trail) + b, x, at, size, trail)
    ensures (x.zeroed ==> zeros + Range(at, size) == zeros)
  {
    CutLeaves(a, x, b, at, size, trail, c);
    CutChain(a, x, b, at, size, trail, c);
    CutOut(a, x, b, at, size, trail, c);
    CutZero(a, x, b, at, size, trail, zeros);
  }

  lemma WrapCheck(size: nat, more: nat)
    requires size < SIZE && more < SIZE
    ensures (size + more) % SIZE < size <==> size + more >= SIZE
    ensures size + more < SIZE ==> (size + more) % SIZE == size + more
  {
  }

  lemma SmallMultiples()
    ensures Aligned(4, 4) && Aligned(8, 4) && Aligned(16, 4)
  {
    assert 4 % 4 == 0 && 8 % 4 == 0 && 16 % 4 == 0;
  }

  lemma BytesNone()
    ensures Bytes([]) == {}
  {
  }

  lemma RangeFront(addr: nat, size: nat, front: nat)
    requires front <= size
    ensures Range(addr, size) - Range(addr + front, size - front) == Range(addr, front)
  {
  }

  /** A range with no extent beside it stays as it is. */
  lemma Alone(x: Ext)
    ensures var y := Forward(x, []); y == x && BackwardRest([], y) + [Backward([], y)] + ForwardRest(x, []) == [x]
  {
  }

  /** What is left of an extent when a range is cut out of it. */
  ghost function Lead(x: Ext, at: nat): seq<Ext> {
    if x.addr < at then [Ext(x.addr, at - x.addr, x.zeroed)] else []
  }

  ghost function Trail(x: Ext, end: nat): seq<Ext> {
    if end < x.End() then [Ext(end, x.End() - end, x.zeroed)] else []
  }

  lemma ChainOne(x: Ext, lo: int, hi: int, c: nat)
    requires 0 < c && lo < x.addr && Fits(x, c) && x.End() < hi
    ensures Chain([x], lo, hi, c)
  {
  }

  lemma LeadTrailChain(x: Ext, at: nat, size: nat, c: nat)
    requires 0 < c && Fits(x, c) && x.addr <= at && at + size <= x.End()
    requires Aligned(at, c) && Aligned(size, c) && 0 < size
    ensures Chain(Lead(x, at), x.addr - 1, x.End() + 1, c)
    ensures Chain(Lead(x, at) + Trail(x, at + size), x.addr - 1, x.End() + 1, c)
  {
    var lead, tail := Lead(x, at), Trail(x, at + size);
    AddMultiples(at, x.addr, c);
    AddMultiples(at, size, c);
    AddMultiples(x.addr, x.size, c);
    AddMultiples(x.End(), at + size, c);
    hide Aligned, Chain;
    assert Chain([], x.addr - 1, at + 1, c) && Chain([], at, x.End() + 1, c) by {
      ChainNone(x.addr - 1, at + 1, c);
      ChainNone(at, x.End() + 1, c);
    }
    if lead != [] {
      ChainOne(lead[0], x.addr - 1, at + 1, c);
    }
    if tail != [] {
      ChainOne(tail[0], at, x.End() + 1, c);
    }
    ChainConcat(lead, tail, x.addr - 1, at + 1, x.End() + 1, c);
    ChainWeaken(lead, x.addr - 1, x.addr - 1, at + 1, x.End() + 1, c);
  }

  lemma ChainNone(lo: int, hi: int, c: nat)
    requires 0 < c
    ensures Chain([], lo, hi, c)
  {
  }

  lemma CutBytes(x: Ext, at: nat, size: nat)
    requires x.addr <= at && at + size <= x.End()
    ensures Bytes(Lead(x, at) + Trail(x, at + size)) == Range(x.addr, x.size) - Range(at, size)
    ensures Bytes(Lead(x, at)) == Range(x.addr, x.size) - Range(at, x.End() - at)
    ensures Range(at, size) <= Range(x.addr, x.size)
  {
    var lead, tail := Lead(x, at), Trail(x, at + size);
    BytesConcat(lead, tail);
    if lead != [] {
      BytesOne(lead[0]);
    }
    if tail != [] {
      BytesOne(tail[0]);
    }
  }

  /** What chunk_recycle leaves of the extent x; without a node for the rest behind, that is lost. */
  ghost function Left(x: Ext, at: nat, size: nat, trail: bool): seq<Ext> {
    Lead(x, at) + if trail then Trail(x, at + size) else []
  }

  /** An aligned range cut out of an extent leaves sound extents... */
  lemma CutChain(a: seq<Ext>, x: Ext, b: seq<Ext>, at: nat, size: nat, trail: bool, c: nat)
    requires 0 < c && Chain(a + [x] + b, -1, SIZE + 1, c) && 0 < size
    requires x.addr <= at && at + size <= x.End() && Aligned(at, c) && Aligned(size, c)
    ensures Chain(a + Left(x, at, size, trail) + b, -1, SIZE + 1, c)
  {
    var m := Left(x, at, size, trail);
    assert Lead(x, at) + [] == Lead(x, at);
    ChainSplit(a, x, b, -1, SIZE + 1, c);
    LeadTrailChain(x, at, size, c);
    hide Chain, Lead, Trail;
    ChainConcat(a, m, -1, x.addr, x.End() + 1, c);
    ChainConcat(a + m, b, -1, x.End() + 1, SIZE + 1, c);
  }

  /** ... that cover exactly the rest. */
  lemma CutOut(a: seq<Ext>, x: Ext, b: seq<Ext>, at: nat, size: nat, trail: bool, c: nat)
    requires 0 < c && Chain(a + [x] + b, -1, SIZE + 1, c) && x.addr <= at && at + size <= x.End()
    ensures Bytes(a + Left(x, at, size, trail) + b)
        == Bytes(a + [x] + b) - Range(at, if trail then size else x.End() - at)
    ensures Range(at, size) <= Bytes(a + [x] + b) && Range(at, x.End() - at) <= Bytes(a + [x] + b)
  {
    hide Chain, Trail, Bytes, Range;
    var m := Left(x, at, size, trail);
    assert Lead(x, at) + [] == Lead(x, at);
    ChainSplit(a, x, b, -1, SIZE + 1, c);
    BytesMiddle(a, [x], b);
    BytesMiddle(a, m, b);
    BytesOne(x);
    CutBytes(x, at, size);
    Elsewhere(a, x, b, c);
    RangeJoin(x.addr, at - x.addr, x.End() - at);
  }

  lemma Elsewhere(a: seq<Ext>, x: Ext, b: seq<Ext>, c: nat)
    requires 0 < c && Chain(a, -1, x.addr, c) && Chain(b, x.End(), SIZE + 1, c)
    ensures Bytes(a) !! Range(x.addr, x.size) && Bytes(b) !! Range(x.addr, x.size)
  {
    forall e | e in Range(x.addr, x.size)
      ensures e !in Bytes(a) && e !in Bytes(b)
    {
      if e in Bytes(a) {
        BytesBetween(a, -1, x.addr, c, e);
      }
      if e in Bytes(b) {
        BytesBetween(b, x.End(), SIZE + 1, c, e);
      }
    }
  }

  lemma CutZero(a: seq<Ext>, x: Ext, b: seq<Ext>, at: nat, size: nat, trail: bool, zeros: set<nat>)
    requires ZeroOk(a + [x] + b, zeros) && x.addr <= at && at + size <= x.End()
    ensures ZeroOk(a + Left(x, at, size, trail) + b, zeros)
    ensures x.zeroed ==> Range(at, size) <= zeros
  {
    assert forall e :: e in a || e == x || e in b ==> e in a + [x] + b;
  }
}

module Extents {
  import opened ExtentSeqs

  datatype Key = Key(size: nat, addr: nat)

  /** What came of asking for a chunk: a range, nothing, or a range that is freed again as no node was to be had. */
  datatype Outcome = Found(addr: nat) | Nothing | NoNode(addr: nat)

  /** The lowest of the smallest extents of at least a size. */
  ghost predicate BestFit(v: seq<Ext>, x: Ext, size: int) {
    && x in v && size <= x.size
    && forall y :: y in v && size <= y.size ==> x.size < y.size || (x.size == y.size && x.addr <= y.addr)
  }

  /** The space before an aligned range in an extent, and the space behind it. */
  function LeadSize(x: Ext, alignment: nat): int
    requires 0 < alignment
  {
    Ceiling(x.addr, alignment) - x.addr
  }

  function TrailSize(x: Ext, size: nat, alignment: nat): int
    requires 0 < alignment
  {
    x.size - LeadSize(x, alignment) - size
  }

  ghost function Exts(nodes: map<nat, Ext>, s: seq<nat>): (v: seq<Ext>)
    ensures |v| == |s|
  {
    seq(|s|, i requires 0 <= i < |s| => if s[i] in nodes then nodes[s[i]] else Ext(0, 0, false))
  }

  lemma ExtsConcat(nodes: map<nat, Ext>, s: seq<nat>, t: seq<nat>)
    ensures Exts(nodes, s + t) == Exts(nodes, s) + Exts(nodes, t)
  {
  }

  lemma Others(s: seq<nat>, k: nat)
    requires k < |s| && forall i, j :: 0 <= i < j < |s| ==> s[i] != s[j]
    ensures var rest := s[..k] + s[k + 1..];
      s[k] !in rest && (forall m :: m in rest ==> m in s) && forall m :: m in s ==> m == s[k] || m in rest
  {
    assert s == s[..k] + [s[k]] + s[k + 1..];
  }

  lemma TrailOfEight()
    ensures var x := Ext(4, 16, false); Ceiling(4, 8) == 8 && LeadSize(x, 8) == 4 && TrailSize(x, 4, 8) == 8
  {
  }

  class ExtentTrees {
    const chunksize: nat
    /** The extent nodes, by their own address, and what they say at present. */
    var nodes: map<nat, Ext>
    /** chunks_ad: nodes in the order of the tree by address. */
    var ad: seq<nat>
    /** chunks_szad: nodes in the tree by size and address, each with the key it was inserted under. */
    var szad: map<nat, Key>
    /** The addresses at which memory is known to be zero. */
    ghost var zeros: set<nat>

    /** The extents in order of address. */
    ghost function Vals(): seq<Ext>
      reads this`ad, this`nodes
    {
      Exts(nodes, ad)
    }

    /** Both trees hold the same nodes, and each node is in its place by its present address and size. */
    ghost predicate Trees()
      reads this`ad, this`szad, this`nodes
    {
      && (forall n :: n in ad ==> n in szad)
      && (forall n :: n in szad ==> n in ad && n in nodes && szad[n] == Key(nodes[n].size, nodes[n].addr))
      && Asc(Vals(), -1)
    }

    ghost predicate Valid()
      reads this
    {
      0 < chunksize && Trees() && Chain(Vals(), -1, SIZE + 1, chunksize) && ZeroOk(Vals(), zeros)
    }

    constructor (chunksize: nat)
      requires 0 < chunksize
      ensures Valid() && Vals() == [] && this.chunksize == chunksize
    {
      this.chunksize := chunksize;
      nodes, ad, szad, zeros := map[], [], map[], {};
    }

    /** A tree holds a node once, and in order. */
    lemma InOrder()
      requires Trees()
      ensures forall i :: 0 <= i < |ad| ==> ad[i] in nodes && ad[i] in szad && nodes[ad[i]] == Vals()[i]
      ensures forall i, j :: 0 <= i < j < |ad| ==> Vals()[i].addr < Vals()[j].addr && ad[i] != ad[j]
    {
      AscBounds(Vals(), -1);
    }

    /** extent_tree_ad_nsearch: the position of the first node at or above an address. */
    method AdNsearch(addr: nat) returns (k: nat)
      requires Trees()
      ensures k <= |ad| && forall i :: 0 <= i < |ad| ==> (i < k <==> Vals()[i].addr < addr)
    {
      hide Asc, Exts;
      k := 0;
      NodeAt(0);
      while k < |ad| && nodes[ad[k]].addr < addr
        invariant k <= |ad| == |Vals()| && (k < |ad| ==> ad[k] in nodes && nodes[ad[k]] == Vals()[k])
        invariant forall i :: 0 <= i < k ==> Vals()[i].addr < addr
      {
        k := k + 1;
        NodeAt(k);
      }
      NodeAt(k);
      AscFrom(Vals(), k);
    }

    /** The node at a position of the tree by address. */
    lemma NodeAt(k: nat)
      requires Trees()
      ensures |Vals()| == |ad|
      ensures k < |ad| ==> ad[k] in nodes && nodes[ad[k]] == Vals()[k]
    {
      InOrder();
    }

    /** extent_tree_szad_nsearch: the lowest of the smallest nodes of at least a size. */
    method SzadNsearch(size: nat) returns (found: bool, k: nat)
      requires Trees()
      ensures !found ==> forall x :: x in Vals() ==> x.size < size
      ensures found ==> k < |ad| && BestFit(Vals(), Vals()[k], size)
    {
      InOrder();
      found, k := false, 0;
      for i := 0 to |ad|
        invariant !found ==> forall j :: 0 <= j < i ==> Vals()[j].size < size
        invariant found ==> k < |ad| && size <= Vals()[k].size && forall j :: 0 <= j < i && size <= Vals()[j].size ==>
          Vals()[k].size < Vals()[j].size || (Vals()[k].size == Vals()[j].size && Vals()[k].addr <= Vals()[j].addr)
      {
        var key := szad[ad[i]];
        if size <= key.size && (!found || key.size < szad[ad[k]].size
            || (key.size == szad[ad[k]].size && key.addr < szad[ad[k]].addr)) {
          found, k := true, i;
        }
      }
    }

    /** Insert a node into both trees. */
    method Insert(n: nat) returns (k: nat)
      requires Trees() && n !in ad && n in nodes && forall x :: x in Vals() ==> x.addr != nodes[n].addr
      modifies this`ad, this`szad
      ensures Trees() && k <= |old(Vals())| && Vals() == old(Vals())[..k] + [nodes[n]] + old(Vals())[k..]
      ensures forall i :: 0 <= i < |old(Vals())| ==> (i < k <==> old(Vals())[i].addr < nodes[n].addr)
    {
      hide Asc;
      k := AdNsearch(nodes[n].addr);
      AscInsert(Vals(), k, nodes[n]);
      ad := ad[..k] + [n] + ad[k..];
      szad := szad[n := Key(nodes[n].size, nodes[n].addr)];
      assert Vals() == old(Vals())[..k] + [nodes[n]] + old(Vals())[k..];
    }

    /** What is left of the tree by address without the node at a position. */
    lemma Without(k: nat)
      requires Trees() && k < |ad|
      ensures var rest := ad[..k] + ad[k + 1..];
        && ad[k] !in rest && (forall m :: m in rest ==> m in ad) && (forall m :: m in ad ==> m == ad[k] || m in rest)
        && Exts(nodes, rest) == Vals()[..k] + Vals()[k + 1..]
    {
      InOrder();
      hide Trees, Asc;
      Others(ad, k);
      assert Exts(nodes, ad[..k]) == Vals()[..k] && Exts(nodes, ad[k + 1..]) == Vals()[k + 1..];
      ExtsConcat(nodes, ad[..k], ad[k + 1..]);
    }

    /** Remove the node at a position from both trees; by its address it is found where it is. */
    method Remove(k0: nat) returns (n: nat)
      requires Trees() && k0 < |ad|
      modifies this`ad, this`szad
      ensures Trees() && n in nodes && nodes[n] == old(Vals())[k0] && n !in ad
      ensures Vals() == old(Vals())[..k0] + old(Vals())[k0 + 1..]
    {
      hide Asc, Exts;
      NodeAt(k0);
      Without(k0);
      AscRemove(Vals(), k0);
      n := ad[k0];
      var k := AdNsearch(nodes[n].addr);
      SamePlace(Vals(), k0, k);
      szad := szad - {n};
      ad := ad[..k] + ad[k + 1..];
    }

    lemma ChangedVals(k: nat, x: Ext)
      requires Trees() && k < |ad|
      ensures Exts(nodes[ad[k] := x], ad) == Vals()[k := x] && Asc(Vals(), -1)
    {
      hide Asc;
      InOrder();
      assert forall i :: 0 <= i < |ad| && i != k ==> ad[i] != ad[k];
    }

    /** Give the node at a position another extent, changing its place in the tree by size alone. */
    method Change(k: nat, x: Ext)
      requires Trees() && k < |ad|
      requires (0 < k ==> Vals()[k - 1].addr < x.addr) && (k + 1 < |ad| ==> x.addr < Vals()[k + 1].addr)
      modifies this`szad, this`nodes
      ensures Trees() && Vals() == old(Vals())[k := x]
    {
      hide Asc, Exts;
      NodeAt(k);
      ChangedVals(k, x);
      AscChange(Vals(), k, x);
      var n := ad[k];
      szad := szad - {n};
      nodes := nodes[n := x];
      szad := szad[n := Key(nodes[n].size, nodes[n].addr)];
      assert Vals() == old(Vals())[k := x];
    }

    /** base_node_alloc */
    method NewNode(x: Ext) returns (n: nat)
      requires Trees()
      modifies this`nodes
      ensures n !in ad && n in nodes && nodes[n] == x && Trees()
      ensures Vals() == old(Vals()) && old(nodes.Keys) <= nodes.Keys
    {
      n := 0;
      ghost var all := nodes.Keys;
      while n in nodes
        decreases all
        invariant all <= nodes.Keys && forall m :: n <= m && m in nodes ==> m in all
      {
        all := all - {n};
        n := n + 1;
      }
      InOrder();
      nodes := nodes[n := x];
      assert Vals() == old(Vals());
    }

    /** Absorb the node that follows a range, or enter a new node for the range. */
    method RecordForward(chunk: nat, size: nat, unzeroed: bool, nodeOk: bool, k: nat, ghost a: seq<Ext>,
        ghost b: seq<Ext>)
      returns (done: bool)
      requires 0 < chunksize && Trees() && Vals() == a + b && |a| == k
      requires Place(a, Ext(chunk, size, !unzeroed), b, chunksize)
      modifies this`ad, this`szad, this`nodes
      ensures Trees() && done == (nodeOk || TouchesNext(Ext(chunk, size, !unzeroed), b))
      ensures var x := Ext(chunk, size, !unzeroed);
        Vals() == (if done then a + [Forward(x, b)] + ForwardRest(x, b) else a + b)
    {
      ghost var x := Ext(chunk, size, !unzeroed);
      hide Asc, Place, Chain, Forward, ForwardRest, TouchesNext, Exts;
      PlaceBounds(a, x, b, chunksize);
      NodeAt(k);
      ForwardShape(a, x, b);
      if k < |ad| && nodes[ad[k]].addr == chunk + size {
        var n := nodes[ad[k]];
        var y := Ext(chunk, n.size + size, n.zeroed && !unzeroed);
        Change(k, y);
        done := true;
      } else if nodeOk {
        var node := NewNode(Ext(chunk, size, !unzeroed));
        var at := Insert(node);
        PlaceIs(a, x, b, at);
        done := true;
      } else {
        done := false;
      }
    }

    /** Absorb the node before the one at k, if they touch. */
    method RecordBackward(chunk: nat, k: nat, ghost a: seq<Ext>, ghost y: Ext, ghost b: seq<Ext>)
      requires Trees() && Vals() == a + [y] + b && |a| == k && y.addr == chunk
      modifies this`ad, this`szad, this`nodes
      ensures Trees() && Vals() == BackwardRest(a, y) + [Backward(a, y)] + b
    {
      hide Asc, Backward, BackwardRest, TouchesPrev, Exts;
      NodeAt(k);
      var at := AdNsearch(nodes[ad[k]].addr);
      SamePlace(Vals(), k, at);
      BackwardShape(a, y, b);
      if at > 0 {
        NodeAt(k - 1);
        var p := nodes[ad[at - 1]];
        if p.addr + p.size == chunk {
          var prev := Remove(at - 1);
          ghost var init := a[..k - 1];
          NodeAt(k - 1);
          var n := nodes[ad[at - 1]];
          var z := Ext(p.addr, n.size + p.size, n.zeroed && p.zeroed);
          Neighbours(init, p, y, b);
          Change(at - 1, z);
        }
      }
    }

    /** The neighbours of an extent from which the one before was removed. */
    lemma Neighbours(init: seq<Ext>, p: Ext, y: Ext, b: seq<Ext>)
      requires Asc(init + [p] + [y] + b, -1)
      ensures forall i :: 0 <= i < |init| ==> init[i].addr < p.addr
      ensures b != [] ==> p.addr < b[0].addr
    {
      var v := init + [p] + [y] + b;
      AscBounds(v, -1);
      assert forall i :: 0 <= i < |init| ==> v[i] == init[i] && v[i].addr < v[|init|].addr;
      assert b != [] ==> v[|init| + 2] == b[0];
    }

    /** chunk_record: put a range back; nodeOk tells whether memory for a node was to be had. */
    method Record(chunk: nat, size: nat, unzeroed: bool, nodeOk: bool)
      requires Valid() && Fits(Ext(chunk, size, !unzeroed), chunksize)
      requires chunk + size <= SIZE && Range(chunk, size) !! Bytes(Vals())
      modifies this
      ensures Valid()
      ensures zeros == (if unzeroed then old(zeros) - Range(chunk, size) else old(zeros) + Range(chunk, size))
      ensures var next := exists x :: x in old(Vals()) && x.addr == chunk + size;
        && Bytes(Vals()) == (if nodeOk || next then old(Bytes(Vals())) + Range(chunk, size) else old(Bytes(Vals())))
        && if nodeOk || next then Joins(old(Vals()), Vals(), Ext(chunk, size, !unzeroed))
           else Vals() == old(Vals())
      ensures old(Vals()) == [] && nodeOk ==> Vals() == [Ext(chunk, size, !unzeroed)]
    {
      hide Asc, Chain, Bytes, Range, Aligned, ZeroOk, Trees, Place, TouchesNext, Forward, ForwardRest, Backward,
          BackwardRest, Joins;
      ghost var x, v := Ext(chunk, size, !unzeroed), Vals();
      zeros := if unzeroed then zeros - Range(chunk, size) else zeros + Range(chunk, size);
      var k := AdNsearch(chunk + size);
      ghost var a, b := v[..k], v[k..];
      assert v == a + b && v == Vals() && |v| == |ad|;
      ZerosRecorded(a, x, b, old(zeros), zeros);
      FindPlace(v, k, x, chunksize);
      NextIn(a, x, b, chunksize);
      var done := RecordForward(chunk, size, unzeroed, nodeOk, k, a, b);
      if done {
        RecordDone(a, x, b, chunksize, zeros);
        RecordJoins(a, x, b, chunksize);
        RecordBackward(chunk, k, a, Forward(x, b), ForwardRest(x, b));
        if v == [] {
          Alone(x);
        }
      }
    }

    /** Enter what is left of the extent x before and behind the range taken from it. */
    method PutBack(node0: nat, ret: nat, size: nat, leadSize: nat, trailSize: nat, nodeOk: bool, k: nat,
        ghost a: seq<Ext>, ghost x: Ext, ghost b: seq<Ext>)
      returns (ok: bool)
      requires 0 < chunksize && Trees() && Vals() == a + b && |a| == k
      requires node0 !in ad && node0 in nodes && nodes[node0] == x
      requires Chain(a + [x] + b, -1, SIZE + 1, chunksize) && 0 < size
      requires ret == x.addr + leadSize && ret + size + trailSize == x.End()
      modifies this`ad, this`szad, this`nodes
      ensures Trees() && ok == (nodeOk || leadSize == 0 || trailSize == 0)
      ensures Vals() == a + Left(x, ret, size, nodeOk || leadSize == 0) + b
    {
      hide Asc, Chain, Aligned, Fits, Lead, Trail, Exts;
      var zeroed := nodes[node0].zeroed;
      ok := true;
      PutBounds(a, x, b, chunksize);
      LeftShape(a, x, b, ret, size, leadSize, trailSize);
      ghost var lead := Lead(x, ret);
      var node := node0;
      if leadSize != 0 {
        SetNode(node, nodes[node].(size := leadSize));
        var at := Insert(node);
        PlaceIs(a, lead[0], b, at);
      }
      assert Vals() == a + lead + b;
      if trailSize != 0 {
        if leadSize != 0 {
          if !nodeOk {
            return false;
          }
          node := NewNode(Ext(0, 0, false));
        }
        SetNode(node, Ext(ret + size, trailSize, zeroed));
        var at := Insert(node);
        PlaceIs(a + lead, Trail(x, ret + size)[0], b, at);
      }
    }

    /** Fill in a node that is in no tree. */
    method SetNode(n: nat, x: Ext)
      requires Trees() && n !in ad && n in nodes
      modifies this`nodes
      ensures Trees() && nodes == old(nodes)[n := x] && Vals() == old(Vals())
    {
      InOrder();
      nodes := nodes[n := x];
      assert Vals() == old(Vals());
    }

    /** What comes of taking a range out of the extent x. */
    ghost predicate Taken(v: seq<Ext>, x: Ext, r: Outcome, size: nat, alignment: nat, nodeOk: bool, lost: nat)
      requires 0 < alignment
      reads this`ad, this`nodes
    {
      && BestFit(v, x, size + alignment - chunksize)
      && r != Nothing && r.addr == Ceiling(x.addr, alignment) && Aligned(r.addr, alignment)
      && (r.NoNode? <==> !nodeOk && LeadSize(x, alignment) != 0 && TrailSize(x, size, alignment) != 0)
      && lost == (if r.NoNode? then TrailSize(x, size, alignment) else 0)
      && Range(r.addr, size + lost) <= Bytes(v) && Bytes(Vals()) == Bytes(v) - Range(r.addr, size + lost)
      && Leaves(v, Vals(), x, r.addr, size, !r.NoNode?)
    }

    /**
     chunk_recycle: cut an aligned range out of x, the lowest best fit.  What is behind the range is lost if and only if
     a node is needed for it beside the one for what is before, and there is no memory for it.
     */
    method Recycle(size: nat, alignment: nat, base: bool, zero0: bool, nodeOk: bool)
      returns (r: Outcome, zero: bool, ghost x: Ext, ghost lost: nat)
      requires Valid() && 0 < size < SIZE && Aligned(size, chunksize)
      requires 0 < alignment < SIZE && Aligned(alignment, chunksize)
      modifies this
      ensures Valid() && zeros == old(zeros) + (if r.Found? && zero then Range(r.addr, size) else {})
      ensures r == Nothing <==>
          base || size + alignment - chunksize >= SIZE
          || forall y :: y in old(Vals()) ==> y.size < size + alignment - chunksize
      ensures r == Nothing ==> Vals() == old(Vals()) && zero == zero0
      ensures r != Nothing ==> Taken(old(Vals()), x, r, size, alignment, nodeOk, lost) && zero == (zero0 || x.zeroed)
    {
      hide Asc, Chain, Bytes, Range, Aligned, ZeroOk, Trees, Ceiling, Fits, Left;
      zero, lost := zero0, 0;
      if base {
        return Nothing, zero, Ext(0, 0, false), 0;
      }
      PositiveMultiple(alignment, chunksize);
      PositiveMultiple(size, chunksize);
      var allocSize := (size + alignment - chunksize) % SIZE;
      WrapCheck(size, alignment - chunksize);
      // Beware of wrap-around.
      if allocSize < size {
        return Nothing, zero, Ext(0, 0, false), 0;
      }
      var found, k := SzadNsearch(allocSize);
      if !found {
        return Nothing, zero, Ext(0, 0, false), 0;
      }
      x := Vals()[k];
      r, zero, lost := RecycleAt(k, size, alignment, zero0, nodeOk);
    }

    /** Cut a range out of the node at a position. */
    method Cut(k: nat, ret: nat, size: nat, leadSize: nat, trailSize: nat, nodeOk: bool) returns (ok: bool)
      requires 0 < chunksize && Trees() && Chain(Vals(), -1, SIZE + 1, chunksize) && k < |ad| && 0 < size
      requires ret == Vals()[k].addr + leadSize && ret + size + trailSize == Vals()[k].End()
      modifies this`ad, this`szad, this`nodes
      ensures Trees() && ok == (nodeOk || leadSize == 0 || trailSize == 0)
      ensures Vals() == old(Vals())[..k] + Left(old(Vals())[k], ret, size, nodeOk || leadSize == 0)
          + old(Vals())[k + 1..]
    {
      hide Asc, Exts, Chain, Left;
      NodeAt(k);
      ghost var v, x := Vals(), Vals()[k];
      ghost var a, b := v[..k], v[k + 1..];
      assert v == a + [x] + b && v[..k] + v[k + 1..] == a + b;
      hide Trees;
      var node := Remove(k);
      ok := PutBack(node, ret, size, leadSize, trailSize, nodeOk, k, a, x, b);
    }

    method RecycleAt(k: nat, size: nat, alignment: nat, zero0: bool, nodeOk: bool)
      returns (r: Outcome, zero: bool, ghost lost: nat)
      requires Valid() && 0 < size < SIZE && Aligned(size, chunksize)
      requires 0 < alignment < SIZE && Aligned(alignment, chunksize)
      requires k < |ad| && BestFit(Vals(), Vals()[k], size + alignment - chunksize)
      modifies this
      ensures Valid() && zeros == old(zeros) + (if r.Found? && zero then Range(r.addr, size) else {}) && r != Nothing
      ensures Taken(old(Vals()), old(Vals())[k], r, size, alignment, nodeOk, lost)
      ensures zero == (zero0 || old(Vals())[k].zeroed)
    {
      hide Asc, Chain, Bytes, Range, Aligned, ZeroOk, Ceiling, Fits, Left, Exts;
      NodeAt(k);
      ghost var v, x := Vals(), Vals()[k];
      ghost var a, b := v[..k], v[k + 1..];
      assert v == a + [x] + b;
      hide Trees;
      var n := nodes[ad[k]];
      RoomFor(a, x, b, size, alignment, chunksize);
      var leadSize := Ceiling(n.addr, alignment) - n.addr;
      var trailSize := n.size - leadSize - size;
      var ret, zeroed := n.addr + leadSize, n.zeroed;
      zero, lost := zero0, 0;
      if zeroed {
        zero := true;
      }
      CutDone(a, x, b, ret, size, nodeOk || leadSize == 0, chunksize, zeros);
      var ok := Cut(k, ret, size, leadSize, trailSize, nodeOk);
      if !ok {
        return NoNode(ret), zero, trailSize;
      }
      if zero && !zeroed {
        zeros := zeros + Range(ret, size);
        ZeroMore(Vals(), old(zeros), zeros);
      }
      r := Found(ret);
    }

    /** One extent of 16 bytes from 4 on. */
    static method OneExtent() returns (t: ExtentTrees)
      ensures fresh(t) && t.Valid() && t.chunksize == 4 && t.Vals() == [Ext(4, 16, false)]
    {
      hide Asc, Chain, Bytes, Range, Aligned, ZeroOk;
      t := new ExtentTrees(4);
      assert Aligned(4, 4) && Aligned(16, 4) by {
        SmallMultiples();
      }
      assert Range(4, 16) !! Bytes(t.Vals()) by {
        BytesNone();
      }
      t.Record(4, 16, true, true);
    }

    /**
     One extent of 16 bytes from 4 on, an aligned range of 4 bytes, and no memory: the bytes from 12 on are in no tree
     afterwards, and nobody has been given them.
     */
    static method LosesTrail() returns (t: ExtentTrees, r: Outcome, ghost lost: nat)
      ensures t.Valid() && r == NoNode(8) && lost == 8 && Bytes(t.Vals()) == Range(4, 4)
    {
      hide Asc, Chain, Bytes, Range, Aligned, ZeroOk, Ceiling, LeadSize, TrailSize, Exts;
      t := OneExtent();
      assert Aligned(4, 4) && Aligned(8, 4) by {
        SmallMultiples();
      }
      TrailOfEight();
      var zero;
      ghost var x;
      ghost var v := t.Vals();
      assert Bytes(v) == Range(4, 16) by {
        BytesOne(v[0]);
      }
      r, zero, x, lost := t.Recycle(4, 8, false, false, false);
      assert Range(4, 16) - Range(8, 12) == Range(4, 4) by {
        RangeFront(4, 16, 4);
      }
    }
  }
}
