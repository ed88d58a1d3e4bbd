/**
 The byte slice pools (internal/cache/mcache/mcache.go): class i keeps free slices of capacity 2**i. A pool hands out
 any of its slices, or makes one when it is asked to or has none. A slice is an array with a length.
 */
module MCache {
  import opened Bytes

  const MAX_SIZE := 25

  // ---- arithmetic on machine words ----

  function Pow2(i: nat): (p: nat)
    ensures p >= 1
  {
    if i == 0 then 1 else 2 * Pow2(i - 1)
  }

  /** The bitwise and. */
  function And(x: nat, y: nat): (z: nat)
    ensures z <= x && z <= y
  {
    if x == 0 || y == 0 then 0 else 2 * And(x / 2, y / 2) + x % 2 * (y % 2)
  }

  /** bits.Len: the number of bits needed for x. */
  function Len(x: nat): nat {
    if x == 0 then 0 else 1 + Len(x / 2)
  }

  function Log2(x: nat): int {
    Len(x) - 1
  }

  /** x & (x - 1) == 0; zero and the all-ones word have no bit in common either. */
  predicate IsPowerOfTwo(x: nat) {
    x == 0 || And(x, x - 1) == 0
  }

  function CalIndex(capacity: nat): int {
    if capacity == 0 then 0
    else if capacity != 1 && IsPowerOfTwo(capacity) then Log2(capacity)
    else Log2(capacity) + 1
  }

  lemma {:induction false} LenBounds(x: nat)
    requires x >= 1
    ensures Len(x) >= 1 && Pow2(Len(x) - 1) <= x < Pow2(Len(x))
  {
    if x > 1 { LenBounds(x / 2); }
  }

  /** The bit test holds exactly of the powers of two. */
  lemma {:induction false} PowerOfTwoIff(x: nat)
    requires x >= 1
    ensures IsPowerOfTwo(x) <==> x == Pow2(Log2(x))
    ensures Log2(x) >= 0
  {
    LenBounds(x);
    if x > 1 {
      PowerOfTwoIff(x / 2);
      LenBounds(x / 2);
      var y := x / 2;
      assert Len(x) == 1 + Len(y) && Pow2(Len(x) - 1) == 2 * Pow2(Len(y) - 1);
      AndBelow(y);
      assert x == 2 * y + x % 2;
    }
  }

  /** The last bit of x decides how far x - 1 differs from it. */
  lemma AndBelow(y: nat)
    requires y >= 1
    ensures And(2 * y, 2 * y - 1) == 2 * And(y, y - 1) && And(2 * y + 1, 2 * y) == 2 * y
  {
    AndSelf(y);
    assert (2 * y - 1) / 2 == y - 1 && (2 * y - 1) % 2 == 1;
    assert (2 * y + 1) / 2 == y && 2 * y / 2 == y;
  }

  lemma {:induction false} AndSelf(x: nat)
    ensures And(x, x) == x
  {
    if x > 0 { AndSelf(x / 2); }
  }

  lemma {:induction false} Pow2Monotone(i: nat, j: nat)
    ensures i < j <==> Pow2(i) < Pow2(j)
    decreases i
  {
    if i > 0 && j > 0 { Pow2Monotone(i - 1, j - 1); }
  }

  /** The class of a capacity of two or more is its binary logarithm, rounded up. */
  lemma CalIndexCeiling(c: nat, i: nat)
    requires c >= 2
    ensures CalIndex(c) >= 1 && Pow2(CalIndex(c) - 1) < c <= Pow2(CalIndex(c))
    ensures i >= 1 && Pow2(i - 1) < c <= Pow2(i) ==> i == CalIndex(c)
  {
    LenBounds(c);
    PowerOfTwoIff(c);
    assert Len(c) >= 2 by { assert c / 2 >= 1; }
    var k := CalIndex(c);
    if IsPowerOfTwo(c) { Pow2Monotone(k - 1, k); }
    if i >= 1 && Pow2(i - 1) < c <= Pow2(i) {
      Pow2Monotone(i - 1, k);
      Pow2Monotone(k - 1, i);
    }
  }

  /** A class always has room for the capacity it serves. */
  lemma ClassFits(c: nat)
    ensures CalIndex(c) >= 0 && c <= Pow2(CalIndex(c))
  {
    if c >= 2 { CalIndexCeiling(c, 1); } else { assert Len(1) == 1 && Pow2(1) == 2; }
  }

  /** A capacity that is a power of two belongs to the class of that size, unless it is one. */
  lemma ClassExact(c: nat)
    requires c >= 2 && IsPowerOfTwo(c)
    ensures CalIndex(c) >= 1 && c == Pow2(CalIndex(c))
  {
    CalIndexCeiling(c, 1);
    PowerOfTwoIff(c);
  }

  // ---- the pools ----

  class Cache {
    var caches: seq<set<array<byte>>>
    /** Slices that were handed out and not freed. */
    ghost var out: set<array<byte>>

    /** Every class but the first holds only slices of its size, and no slice is both free and in use, or free twice. */
    ghost predicate Valid()
      reads this
    {
      && |caches| == MAX_SIZE
      && (forall i, a | 1 <= i < MAX_SIZE && a in caches[i] :: a.Length == Pow2(i))
      && (forall i, a | 0 <= i < MAX_SIZE && a in caches[i] :: a !in out)
      && (forall i, j, a | 0 <= i < MAX_SIZE && 0 <= j < MAX_SIZE && a in caches[i] && a in caches[j] :: i == j)
    }

    constructor ()
      ensures Valid() && out == {} && forall i | 0 <= i < MAX_SIZE :: caches[i] == {}
    {
      caches, out := seq(MAX_SIZE, i => {}), {};
    }

    /** sync.Pool.Get: one of the pool's slices if it is to hit and there is one, or a new one. */
    method Get(idx: nat, hit: bool) returns (p: array<byte>)
      requires Valid() && idx < MAX_SIZE
      modifies this
      ensures |caches| == MAX_SIZE && caches == old(caches)[idx := old(caches)[idx] - {p}] && out == old(out)
      ensures (fresh(p) && p.Length == Pow2(idx)) || p in old(caches)[idx]
    {
      if hit && caches[idx] != {} {
        p :| p in caches[idx];
      } else {
        p := new byte[Pow2(idx)];
      }
      caches := caches[idx := caches[idx] - {p}];
    }

    static function Wanted(size: nat, capacity: seq<int>): nat {
      if |capacity| > 0 && capacity[0] > size then capacity[0] else size
    }

    /** A slice of the given length with at least that capacity, or more if asked for; nobody else has it. */
    method Malloc(size: nat, capacity: seq<int>, hit: bool) returns (p: array<byte>, length: nat)
      requires Valid() && |capacity| <= 1
      modifies this
      ensures Valid() && length == size <= p.Length && (capacity == [] || capacity[0] <= p.Length)
      ensures p !in old(out) && out == old(out) + {p}
      ensures var c := Wanted(size, capacity);
        if CalIndex(c) < 0 || CalIndex(c) >= MAX_SIZE then fresh(p) && p.Length == c
        else (fresh(p) && p.Length == Pow2(CalIndex(c))) || p in old(caches)[CalIndex(c)]
    {
      hide CalIndex, Pow2;
      var c := Wanted(size, capacity);
      var idx := CalIndex(c);
      ClassFits(c);
      length := size;
      if idx >= MAX_SIZE {
        p := new byte[c];
      } else {
        p := Get(idx, hit);
        if idx == 0 { ClassZero(c); }
      }
      out := out + {p};
    }

    static lemma ClassZero(c: nat)
      requires CalIndex(c) == 0
      ensures c == 0
    {
      if c >= 2 { CalIndexCeiling(c, 1); }
    }

    /** Recycles a slice in use. The pools stay sound if and only if its capacity is not one. */
    method Free(p: array<byte>)
      requires Valid() && p in out
      modifies this
      ensures out == old(out) - {p}
      ensures Valid() <==> p.Length != 1
      ensures |caches| == MAX_SIZE && forall i | 0 <= i < MAX_SIZE ::
        caches[i] == old(caches)[i] + (if IsPowerOfTwo(p.Length) && i == CalIndex(p.Length) then {p} else {})
    {
      hide CalIndex, Pow2, IsPowerOfTwo;
      var c := p.Length;
      out := out - {p};
      OneIsPower();
      if !IsPowerOfTwo(c) { return; }
      var idx := CalIndex(c);
      ClassFits(c);
      if c >= 2 { ClassExact(c); }
      if idx >= MAX_SIZE { return; }
      caches := caches[idx := caches[idx] + {p}];
      assert p in caches[idx];
    }

    static lemma OneIsPower()
      ensures IsPowerOfTwo(1) && CalIndex(1) == 1 && CalIndex(0) == 0 && Pow2(1) == 2
    {}
  }

  /** Asking for nothing and giving it back leaves a slice of capacity one in the class that serves capacity two. */
  method EmptyRoundTrip() returns (cache: Cache, p: array<byte>)
    ensures |cache.caches| == MAX_SIZE && p in cache.caches[CalIndex(2)] && p.Length < 2
  {
    cache := new Cache();
    Cache.OneIsPower();
    var length;
    p, length := cache.Malloc(0, [], true);
    cache.Free(p);
    CalIndexCeiling(2, 1);
  }
}
