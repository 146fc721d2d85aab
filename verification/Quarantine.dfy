/**
 The quarantine of a thread: freed objects wait in a ring buffer that grows, until their total size is too large.
 */
module Quarantine {

  import opened Machine

  datatype Obj = Obj(ptr: nat, usize: nat)

  /** The value of the thread's pointer: two small values stand for states of the shutdown. */
  datatype Tsd = Null | Reincarnated | Purgatory | Live

  const LG_MAXOBJS_INIT: nat := 10

  // ----- rings -----

  /** Place k after the first, going round at the end. */
  function Slot(first: nat, k: nat, size: nat): (i: nat)
    requires first < size && k < size
    ensures i < size
  {
    if first + k < size then first + k else first + k - size
  }

  lemma SlotIsMod(first: nat, k: nat, size: nat)
    requires first < size && k < size
    ensures (first + k) % size == Slot(first, k, size)
  {
    if first + k >= size {
      Remainder(first + k, size, 1, first + k - size);
    } else {
      Remainder(first + k, size, 0, first + k);
    }
  }

  lemma Remainder(x: nat, size: nat, q: int, r: nat)
    requires 0 < size && r < size && x == q * size + r
    ensures x % size == r
  {
    var p, s := x / size, x % size;
    Distribute(p, q, size);
    NoMultiple(p - q, size);
  }

  /** The n objects of a ring from the first on. */
  function Ring(objs: seq<Obj>, first: nat, n: nat): (r: seq<Obj>)
    requires first < |objs| && n <= |objs|
    ensures |r| == n
  {
    seq(n, k requires 0 <= k < n => objs[Slot(first, k, |objs|)])
  }

  lemma RingTail(objs: seq<Obj>, first: nat, n: nat)
    requires first < |objs| && 0 < n <= |objs|
    ensures (first + 1) % |objs| < |objs|
    ensures Ring(objs, first, n)[0] == objs[first]
    ensures Ring(objs, (first + 1) % |objs|, n - 1) == Ring(objs, first, n)[1..]
  {
    if |objs| == 1 {
      Remainder(first + 1, 1, 1, 0);
    } else {
      SlotIsMod(first, 1, |objs|);
    }
  }

  lemma RingAppend(objs: seq<Obj>, first: nat, n: nat, o: Obj)
    requires first < |objs| && n < |objs|
    ensures (first + n) % |objs| < |objs|
    ensures Ring(objs[(first + n) % |objs| := o], first, n + 1) == Ring(objs, first, n) + [o]
  {
    SlotIsMod(first, n, |objs|);
  }

  /** A copy into a larger ring, in one piece or in two. */
  lemma RingCopy(objs: seq<Obj>, first: nat, n: nat, copy: seq<Obj>)
    requires first < |objs| && n <= |objs| <= |copy| && n <= |copy| && 0 < |copy|
    requires first + n <= |objs| ==> copy[..n] == objs[first..first + n]
    requires first + n > |objs| ==> copy[..n] == objs[first..] + objs[..n - (|objs| - first)]
    ensures Ring(copy, 0, n) == Ring(objs, first, n)
  {
    forall k | 0 <= k < n ensures Ring(copy, 0, n)[k] == Ring(objs, first, n)[k] {
      assert copy[k] == copy[..n][k];
    }
  }

  // ----- queues -----

  function Ptrs(q: seq<Obj>): (p: seq<nat>)
    ensures |p| == |q|
  {
    seq(|q|, k requires 0 <= k < |q| => q[k].ptr)
  }

  function Bytes(q: seq<Obj>): nat {
    if q == [] then 0 else q[0].usize + Bytes(q[1..])
  }

  lemma {:induction false} BytesAppend(q: seq<Obj>, o: Obj)
    ensures Bytes(q + [o]) == Bytes(q) + o.usize
  {
    if q == [] {
      assert [o][1..] == [];
    } else {
      BytesAppend(q[1..], o);
      assert (q + [o])[1..] == q[1..] + [o];
    }
  }

  predicate Sized(q: seq<Obj>) {
    forall o :: o in q ==> o.usize > 0
  }

  /** How many objects must go before no more than so many bytes are left. */
  function Excess(q: seq<Obj>, bound: nat): (n: nat)
    ensures n <= |q|
  {
    if Bytes(q) > bound && q != [] then 1 + Excess(q[1..], bound) else 0
  }

  /** It is the least such number. */
  lemma {:induction false} ExcessLeast(q: seq<Obj>, bound: nat, n: nat)
    requires n <= |q|
    ensures Bytes(q[Excess(q, bound)..]) <= bound
    ensures n < Excess(q, bound) ==> Bytes(q[n..]) > bound
  {
    if Bytes(q) > bound && q != [] {
      ExcessLeast(q[1..], bound, if n == 0 then 0 else n - 1);
      assert q[1..][Excess(q[1..], bound)..] == q[Excess(q, bound)..];
      assert n > 0 ==> q[1..][n - 1..] == q[n..];
      assert q[0..] == q;
    }
  }

  lemma SizedTail(q: seq<Obj>, n: nat)
    requires Sized(q) && n <= |q|
    ensures Sized(q[n..])
  {
  }

  lemma BytesTail(q: seq<Obj>)
    ensures q == [] ==> Bytes(q) == 0
    ensures Sized(q) && q != [] ==> Bytes(q) > 0 && Bytes(q[1..]) <= Bytes(q)
  {
  }

  /** No bytes, no objects. */
  lemma Weightless(q: seq<Obj>)
    requires Sized(q) && Bytes(q) == 0
    ensures q == []
  {
    BytesTail(q);
  }

  lemma PtrsCut(q: seq<Obj>, n: nat)
    requires n <= |q|
    ensures Ptrs(q) == Ptrs(q[..n]) + Ptrs(q[n..])
  {
  }

  // ----- specification -----

  /** What a queue and the new object come to when memory for a larger ring can be had, or the ring has room. */
  function Dropped(q: seq<Obj>, usize: nat, limit: nat): (n: nat)
    ensures n <= |q|
  {
    if Bytes(q) + usize > limit then Excess(q, if limit >= usize then limit - usize else 0) else 0
  }

  /** What stays fits together with the new object, or nothing stays. */
  lemma DroppedFits(q: seq<Obj>, usize: nat, limit: nat)
    requires Sized(q) && Bytes(q) <= limit
    ensures var r := q[Dropped(q, usize, limit)..];
      if usize <= limit then Bytes(r) + usize <= limit else r == []
  {
    var b := if limit >= usize then limit - usize else 0;
    ExcessLeast(q, b, 0);
    SizedTail(q, Excess(q, b));
    if usize > limit {
      Weightless(q[Excess(q, b)..]);
    }
    assert q[0..] == q;
  }

  /** No more objects go than must: before any of them went, those left did not fit beside the new one. */
  lemma DroppedLeast(q: seq<Obj>, usize: nat, limit: nat, m: nat)
    requires m < Dropped(q, usize, limit) && 0 < usize
    ensures Bytes(q[m..]) + usize > limit
  {
    ExcessLeast(q, if limit >= usize then limit - usize else 0, m);
  }

  /** What stays in the queue before the new object is appended to it. */
  function Kept(q: seq<Obj>, size: nat, usize: nat, limit: nat, memory: bool): seq<Obj> {
    var r := q[Dropped(q, usize, limit)..];
    if |r| == size && r != [] && !memory then r[1..] else r
  }

  /** How many objects go before the new one is appended. */
  ghost function Gone(q: seq<Obj>, size: nat, usize: nat, limit: nat, memory: bool): (n: nat)
    ensures n <= |q| && Kept(q, size, usize, limit, memory) == q[n..]
  {
    var d := Dropped(q, usize, limit);
    if |q| - d == size && d < |q| && !memory then d + 1 else d
  }

  /** They go because they do not fit beside the new object, or the first because the ring is full and stays so. */
  lemma GoneLeast(q: seq<Obj>, size: nat, usize: nat, limit: nat, memory: bool)
    requires Sized(q) && Bytes(q) <= limit && |q| <= size && 0 < usize
    ensures var n := Gone(q, size, usize, limit, memory);
      && (if usize <= limit then Bytes(q[n..]) + usize <= limit else n == |q|)
      && forall m :: 0 <= m < n ==> Bytes(q[m..]) + usize > limit || (m == 0 && n == 1 && |q| == size && !memory)
  {
    var d, n := Dropped(q, usize, limit), Gone(q, size, usize, limit, memory);
    DroppedFits(q, usize, limit);
    SizedTail(q, d);
    BytesTail(q[d..]);
    assert n > d ==> q[n..] == q[d..][1..];
    forall m | 0 <= m < d ensures Bytes(q[m..]) + usize > limit {
      DroppedLeast(q, usize, limit, m);
    }
  }

  class ThreadQuarantine {
    /** opt_quarantine */
    const limit: nat
    var tsd: Tsd
    var objs: array<Obj>
    var first: nat
    var curobjs: nat
    var curbytes: nat
    var lgMaxobjs: nat
    /** All that was passed to the quarantine, and all that was deallocated, in order. */
    ghost var arrived: seq<nat>
    ghost var freed: seq<nat>

    ghost predicate RingOk()
      reads this
    {
      objs.Length == Pow2(lgMaxobjs) && first < objs.Length && curobjs <= objs.Length
    }

    ghost function Queue(): (q: seq<Obj>)
      requires RingOk()
      reads this, objs
      ensures |q| == curobjs
    {
      Ring(objs[..], first, curobjs)
    }

    ghost predicate Valid()
      reads this, objs
    {
      && RingOk()
      && Sized(Queue()) && curbytes == Bytes(Queue()) <= limit
      && (!tsd.Live? ==> curobjs == 0)
      && arrived == freed + Ptrs(Queue())
    }

    constructor (limit: nat)
      ensures Valid() && tsd == Null && arrived == freed == [] && this.limit == limit && fresh(objs)
    {
      this.limit := limit;
      tsd := Null;
      objs := new Obj[1];
      first, curobjs, curbytes, lgMaxobjs := 0, 0, 0, 0;
      arrived, freed := [], [];
    }

    /** quarantine_init: a new ring for the thread, unless there is no memory. */
    method Init(lg: nat, memory: bool) returns (ok: bool)
      requires Valid() && tsd == Null
      modifies this
      ensures Valid() && ok == memory && arrived == old(arrived) && freed == old(freed)
      ensures if ok then tsd == Live && objs.Length == Pow2(lg) && fresh(objs) && Queue() == []
              else tsd == old(tsd) && objs == old(objs) && Queue() == []
    {
      hide Pow2;
      ok := memory;
      if memory {
        objs := new Obj[Pow2(lg)];
        first, curobjs, curbytes, lgMaxobjs := 0, 0, 0, lg;
        tsd := Live;
      }
    }

    /** quarantine_alloc_hook */
    method AllocHook(memory: bool)
      requires Valid()
      modifies this
      ensures Valid() && arrived == old(arrived) && freed == old(freed)
      ensures tsd == if old(tsd) == Null && memory then Live else old(tsd)
      ensures old(tsd) != Null ==> objs == old(objs) && Queue() == old(Queue())
      ensures old(tsd) == Null && memory ==> objs.Length == Pow2(LG_MAXOBJS_INIT)
      ensures objs == old(objs) || fresh(objs)
    {
      if tsd == Null {
        var ok := Init(LG_MAXOBJS_INIT, memory);
      }
    }

    /** quarantine_drain_one: the first object is deallocated. */
    method DrainOne()
      requires Valid() && curobjs > 0
      modifies this
      ensures Valid() && objs == old(objs) && tsd == old(tsd) && arrived == old(arrived)
      ensures Queue() == old(Queue())[1..] && freed == old(freed) + [old(Queue())[0].ptr]
      ensures lgMaxobjs == old(lgMaxobjs)
    {
      hide Pow2, Ring;
      ghost var q := Queue();
      var obj := objs[first];
      RingTail(objs[..], first, curobjs);
      freed := freed + [obj.ptr];
      curbytes := curbytes - obj.usize;
      curobjs := curobjs - 1;
      first := (first + 1) % objs.Length;
      SizedTail(q, 1);
      PtrsCut(q, 1);
    }

    /** quarantine_drain: objects are deallocated until no more bytes are left than the bound. */
    method Drain(bound: nat)
      requires Valid()
      modifies this
      ensures Valid() && objs == old(objs) && tsd == old(tsd) && arrived == old(arrived)
      ensures Queue() == old(Queue())[Excess(old(Queue()), bound)..]
      ensures lgMaxobjs == old(lgMaxobjs)
    {
      hide Pow2, Ring, Ptrs, Sized, Bytes;
      ghost var q := Queue();
      ghost var n := 0;
      while curbytes > bound && curobjs > 0
        invariant Valid() && objs == old(objs) && tsd == old(tsd) && arrived == old(arrived)
        invariant lgMaxobjs == old(lgMaxobjs)
        invariant n <= |q| && Queue() == q[n..] && Excess(q, bound) == n + Excess(q[n..], bound)
        decreases curobjs
      {
        DrainOne();
        assert q[n..][1..] == q[n + 1..];
        n := n + 1;
      }
    }

    /** A ring twice as large with the same queue, from its start on. */
    method CopyRing() returns (copy: array<Obj>)
      requires Valid() && tsd == Live
      ensures fresh(copy) && copy.Length == Pow2(lgMaxobjs + 1) && curobjs <= copy.Length
      ensures Ring(copy[..], 0, curobjs) == Ring(objs[..], first, curobjs)
    {
      hide Ring, Ptrs, Sized, Bytes;
      copy := new Obj[Pow2(lgMaxobjs + 1)];
      if first + curobjs <= objs.Length {
        Copy(copy, 0, objs[first..first + curobjs]);
      } else {
        var a := objs.Length - first;
        var b := curobjs - a;
        Copy(copy, 0, objs[first..]);
        Copy(copy, a, objs[..b]);
      }
      RingCopy(objs[..], first, curobjs, copy[..]);
    }

    /** quarantine_grow: a ring of twice the size, or else one object less. */
    method Grow(memory: bool)
      requires Valid() && tsd == Live && curobjs == objs.Length
      modifies this
      ensures Valid() && tsd == Live && arrived == old(arrived) && curobjs < objs.Length
      ensures if memory
              then fresh(objs) && objs.Length == 2 * old(objs).Length && Queue() == old(Queue()) && freed == old(freed)
              else objs == old(objs) && Queue() == old(Queue())[1..] && freed == old(freed) + [old(Queue())[0].ptr]
    {
      hide Ring, Ptrs, Sized, Bytes;
      if !memory {
        DrainOne();
      } else {
        objs := CopyRing();
        first := 0;
        lgMaxobjs := lgMaxobjs + 1;
      }
    }

    /** quarantine: the object goes to the end of the queue, if it is not larger than the whole quarantine. */
    method Quarantine(ptr: nat, usize: nat, memory: bool) returns (ghost n: nat)
      requires Valid() && usize > 0
      modifies this, objs
      ensures Valid() && arrived == old(arrived) + [ptr]
      // The ring grows only when it is full and nothing has gone, and then to twice its length.
      ensures objs == old(objs)
              || (fresh(objs) && n == 0 && memory && old(tsd) == Live && |old(Queue())| == old(objs).Length
                  && objs.Length == 2 * old(objs).Length)
      ensures tsd == if old(tsd) == Purgatory then Reincarnated else old(tsd)
      ensures old(tsd) != Live ==> n == 0 && freed == old(freed) + [ptr]
      // The first n objects go; the new one is the last of those that stay, if it is not larger than the quarantine.
      ensures n <= |old(Queue())| && (n == |old(Queue())| || usize <= limit)
      ensures old(tsd) == Live
          ==> if usize <= limit
              then freed == old(freed) + Ptrs(old(Queue())[..n]) && Queue() == old(Queue())[n..] + [Obj(ptr, usize)]
              else freed == old(freed) + Ptrs(old(Queue())) + [ptr] && Queue() == []
      // What stays fits, and no object goes that could stay: what was left before it went was too much beside the new
      // one, or the ring was full and there was no memory for a larger one.
      ensures old(tsd) == Live && usize <= limit ==> Bytes(old(Queue())[n..]) + usize <= limit
      ensures forall m :: 0 <= m < n ==>
        Bytes(old(Queue())[m..]) + usize > limit
        || (m == 0 && n == 1 && |old(Queue())| == old(objs).Length && !memory)
      ensures old(tsd) == Live
          ==> Queue() == Kept(old(Queue()), old(objs).Length, usize, limit, memory) + if usize <= limit
              then [Obj(ptr, usize)] else []
      ensures old(tsd) == Live && usize > limit ==> Queue() == []
    {
      hide Ring, Ptrs, Bytes, Pow2;
      ghost var q := Queue();
      if tsd != Live {
        if tsd == Purgatory {
          tsd := Reincarnated;
        }
        freed := freed + [ptr];
        arrived := arrived + [ptr];
        NoPtrs();
        n := 0;
        return;
      }
      n := Gone(q, objs.Length, usize, limit, memory);
      GoneLeast(q, objs.Length, usize, limit, memory);
      DroppedFits(q, usize, limit);
      if curbytes + usize > limit {
        var bound := if limit >= usize then limit - usize else 0;
        Drain(bound);
      }
      assert Queue() == q[Dropped(q, usize, limit)..];
      BytesTail(Queue());
      if curobjs == objs.Length {
        Grow(memory);
      }
      assert Queue() == Kept(q, old(objs.Length), usize, limit, memory);
      PtrsCut(q, n);
      FreedBy(old(freed), freed, q, n);
      if curbytes + usize <= limit {
        Append(Obj(ptr, usize));
      } else {
        assert curbytes == 0;
        freed := freed + [ptr];
        arrived := arrived + [ptr];
        NoPtrs();
      }
    }

    /** The new object goes to the free place after the last. */
    method Append(o: Obj)
      requires Valid() && tsd == Live && curobjs < objs.Length && o.usize > 0 && curbytes + o.usize <= limit
      modifies `curbytes, `curobjs, `arrived, objs
      ensures Valid() && Queue() == old(Queue()) + [o] && arrived == old(arrived) + [o.ptr]
    {
      hide Ring, Bytes, Pow2;
      ghost var q := Queue();
      RingAppend(objs[..], first, curobjs, o);
      BytesAppend(q, o);
      var offset := (first + curobjs) % objs.Length;
      objs[offset] := o;
      curbytes := curbytes + o.usize;
      curobjs := curobjs + 1;
      arrived := arrived + [o.ptr];
      assert Ptrs(q + [o]) == Ptrs(q) + [o.ptr];
    }

    /** quarantine_cleanup: everything goes, in order, and the pointer tells what came before. */
    method Cleanup()
      requires Valid()
      modifies this
      ensures Valid() && arrived == old(arrived) && Queue() == [] && freed == arrived
      ensures tsd == if old(tsd).Null? then Null else Purgatory
    {
      hide Ring, Ptrs, Bytes, Pow2;
      ghost var q := Queue();
      if tsd == Reincarnated {
        tsd := Purgatory;
      } else if tsd == Purgatory {
      } else if tsd != Null {
        ExcessLeast(q, 0, 0);
        Drain(0);
        Weightless(Queue());
        tsd := Purgatory;
      }
      NoPtrs();
    }
  }

  /** What left the front of the queue was freed. */
  lemma FreedBy(freed: seq<nat>, freed': seq<nat>, q: seq<Obj>, n: nat)
    requires n <= |q| && freed' + Ptrs(q[n..]) == freed + Ptrs(q)
    ensures freed' == freed + Ptrs(q[..n])
  {
    PtrsCut(q, n);
    assert freed' == (freed' + Ptrs(q[n..]))[..|freed'|] && freed + Ptrs(q) == freed + Ptrs(q[..n]) + Ptrs(q[n..]);
    assert (freed + Ptrs(q[..n]) + Ptrs(q[n..]))[..|freed'|] == freed + Ptrs(q[..n]);
  }

  lemma NoPtrs()
    ensures Ptrs([]) == []
  {
  }
}
