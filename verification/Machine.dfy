/**
 What every component shares: powers of two, the arithmetic of shifts, and copying memory.
 */
module Machine {

  datatype Option<T> = None | Some(value: T)

  /** The values of an unsigned int. */
  const WORD: nat := 0x1_0000_0000

  function Min(a: nat, b: nat): nat {
    if a < b then a else b
  }

  function Pow2(n: nat): (p: nat)
    ensures 1 <= p
  {
    if n == 0 then 1 else 2 * Pow2(n - 1)
  }

  lemma {:induction false} Pow2Monotone(m: nat, n: nat)
    requires m <= n
    ensures Pow2(m) <= Pow2(n)
  {
    if m < n {
      Pow2Monotone(m, n - 1);
    }
  }

  lemma {:induction false} Pow2Add(m: nat, n: nat)
    ensures Pow2(m + n) == Pow2(m) * Pow2(n)
  {
    if n > 0 {
      Pow2Add(m, n - 1);
      assert Pow2(m) * (2 * Pow2(n - 1)) == 2 * (Pow2(m) * Pow2(n - 1));
    }
  }

  lemma Pow2Square(n: nat, p: nat)
    requires Pow2(n) == p
    ensures Pow2(2 * n) == p * p
  {
    Pow2Add(n, n);
  }

  lemma NoMultiple(k: int, d: nat)
    requires 0 < d
    ensures (k >= 1 ==> k * d >= d) && (k <= -1 ==> k * d <= 0 - d)
  {
  }

  lemma MulLe(x: int, y: int, p: nat)
    requires x <= y
    ensures x * p <= y * p
  {
  }

  lemma Distribute(x: int, y: int, p: int)
    ensures (x + y) * p == x * p + y * p
    ensures (x - y) * p == x * p - y * p
  {
  }

  lemma Associate(x: int, y: int, z: int)
    ensures x * y * z == x * (y * z)
  {
  }

  lemma Divides(x: nat, d: nat)
    requires 0 < d
    ensures 0 <= x / d && x / d * d <= x < x / d * d + d
  {
    assert x == x / d * d + x % d;
    NoMultiple(x / d, d);
  }

  /** Unsigned division. */
  function Quot(x: nat, d: nat): (q: nat)
    requires 0 < d
    ensures q * d <= x < q * d + d
  {
    Divides(x, d);
    x / d
  }

  /** Unsigned division by a power of two: a shift to the right. */
  function Shr(x: nat, n: nat): (q: nat)
    ensures q * Pow2(n) <= x < q * Pow2(n) + Pow2(n)
  {
    Divides(x, Pow2(n));
    x / Pow2(n)
  }

  /** Pieces put together. */
  function Concat<T>(pieces: seq<seq<T>>): seq<T> {
    if pieces == [] then [] else pieces[0] + Concat(pieces[1..])
  }

  lemma {:induction false} ConcatAppend<T>(pieces: seq<seq<T>>, last: seq<T>)
    ensures Concat(pieces + [last]) == Concat(pieces) + last
  {
    if pieces == [] {
      assert [last][1..] == [];
    } else {
      ConcatAppend(pieces[1..], last);
      assert (pieces + [last])[1..] == pieces[1..] + [last];
    }
  }

  /** memcpy to a place in an array. */
  method Copy<T>(a: array<T>, at: nat, data: seq<T>)
    requires at + |data| <= a.Length
    modifies a
    ensures a[..at + |data|] == old(a[..at]) + data && a[at + |data|..] == old(a[at + |data|..])
  {
    for k := 0 to |data|
      invariant a[..at + k] == old(a[..at]) + data[..k] && a[at + k..] == old(a[at + k..])
    {
      a[at + k] := data[k];
      assert a[..at + k + 1] == a[..at + k] + [data[k]];
      assert a[at + k + 1..] == old(a[at + k..])[1..];
    }
  }
}
