/** Probe sequences of the open-addressing table: a start bucket and a stride taken
    from a 32-bit hash, walked modulo a power-of-two number of buckets. */
module Probing {
  import opened Words

  predicate IsPow2(n: nat) {
    n == 1 || (n > 1 && n % 2 == 0 && IsPow2(n / 2))
  }

  /** `k & mask` with mask == n - 1. */
  function Start(h: bv32, n: nat): (i: nat)
    requires n > 0
    ensures i < n
  {
    Nat(h) % n
  }

  /** `(k >> 3 ^ k << 3) | 1` */
  function Spread(h: bv32): bv32 { ((h >> 3) ^ (h << 3)) | 1 }

  predicate BitOf(w: bv32, k: bv5) { (w >> k) & 1 == 1 }

  /** The lowest bit is set; every other one compares the bits three places above and below it. */
  lemma SpreadBits(h: bv32, k: bv5)
    ensures k == 0 ==> BitOf(Spread(h), k)
    ensures 1 <= k < 3 ==> (BitOf(Spread(h), k) <==> BitOf(h, k + 3))
    ensures 3 <= k < 29 ==> (BitOf(Spread(h), k) <==> BitOf(h, k + 3) != BitOf(h, k - 3))
    ensures 29 <= k ==> (BitOf(Spread(h), k) <==> BitOf(h, k - 3))
  {
  }

  /** `((k >> 3 ^ k << 3) | 1) & mask`. */
  function Stride(h: bv32, n: nat): nat
    requires n > 0
  {
    Nat(Spread(h)) % n
  }

  /** The bucket looked at after `t` steps. */
  function Probe(h: bv32, n: nat, t: nat): (i: nat)
    requires n > 0
    ensures i < n
  {
    (Start(h, n) + t * Stride(h, n)) % n
  }

  // ----- arithmetic modulo n

  lemma ModSplit(x: int, n: int) returns (q: int)
    requires n > 0
    ensures x == q * n + x % n
  {
    q := x / n;
  }

  lemma MulApart(d: int, n: int)
    requires n > 0
    ensures d > 0 ==> d * n >= n
    ensures d < 0 ==> d * n <= -n
  {
  }

  lemma ModUnique(q: int, n: int, r: int)
    requires 0 <= r < n
    ensures (q * n + r) % n == r
  {
    var x := q * n + r;
    var p := ModSplit(x, n);
    var d := q - p;
    assert d * n == q * n - p * n == x % n - r;
    MulApart(d, n);
  }

  lemma ModShift(x: int, k: int, n: int)
    requires n > 0
    ensures (x + k * n) % n == x % n
  {
    var q := ModSplit(x, n);
    assert x + k * n == (q + k) * n + x % n;
    ModUnique(q + k, n, x % n);
  }

  lemma ModAddLeft(x: int, y: int, n: int)
    requires n > 0
    ensures (x % n + y) % n == (x + y) % n
  {
    var q := ModSplit(x, n);
    ModShift(x % n + y, q, n);
    assert x % n + y + q * n == x + y;
  }

  lemma ModMulLeft(x: int, y: int, n: int)
    requires n > 0
    ensures (x % n * y) % n == (x * y) % n
  {
    var q := ModSplit(x, n);
    ModShift(x % n * y, q * y, n);
    assert x % n * y + q * y * n == (q * n + x % n) * y;
  }

  // ----- powers of two

  /** An odd number has an inverse modulo every power of two, built up one bit at a time. */
  lemma {:induction false} OddInverse(s: nat, n: nat) returns (inv: nat)
    requires IsPow2(n) && s % 2 == 1
    ensures (s * inv) % n == 1 % n
  {
    if n == 1 {
      inv := 0;
      NoRemainder(s * inv);
    } else {
      var v := OddInverse(s, n / 2);
      inv := NextBit(s, v, n / 2, n);
    }
  }

  lemma NoRemainder(x: int)
    ensures x % 1 == 1 % 1
  {
  }

  lemma NextBit(s: nat, v: nat, half: nat, n: nat) returns (inv: nat)
    requires half > 0 && n == 2 * half && s % 2 == 1 && (s * v) % half == 1 % half
    ensures (s * inv) % n == 1 % n
  {
    OneBelow(n);
    var q := ModSplit(s * v, half);
    inv := LiftInverse(s, v, half, n, q);
  }

  lemma OneBelow(n: nat)
    requires n > 1
    ensures 1 % n == 1
  {
  }

  lemma LiftInverse(s: nat, v: nat, half: nat, n: nat, q: int) returns (inv: nat)
    requires half > 0 && n == 2 * half && s % 2 == 1
    requires s * v == q * half + 1 % half
    ensures (s * inv) % n == 1
  {
    if half > 1 { OneBelow(half); }
    if half == 1 {
      inv := 1;
    } else if q % 2 == 0 {
      inv := v;
      InverseWhenEven(s, v, half, n, q);
    } else {
      inv := v + half;
      NextInverse(s, v, half, q);
      InverseWhenEven(s, v + half, half, n, q + s);
    }
  }

  lemma NextInverse(s: nat, v: nat, half: nat, q: int)
    requires s * v == q * half + 1
    ensures s * (v + half) == (q + s) * half + 1
  {
    MulAdd(s, v, half);
    MulAdd(half, q, s);
  }

  lemma InverseWhenEven(s: nat, v: nat, half: nat, n: nat, q: int)
    requires half > 1 && n == 2 * half && q % 2 == 0 && s * v == q * half + 1
    ensures (s * v) % n == 1
  {
    EvenMultiple(q, half);
  }

  lemma MulAdd(x: int, y: int, z: int)
    ensures x * (y + z) == x * y + x * z
  {
  }

  lemma EvenMultiple(q: int, half: nat)
    requires q % 2 == 0 && half > 1
    ensures (q * half + 1) % (2 * half) == 1
  {
    HalfTimes(q, half);
    ModUnique(q / 2, 2 * half, 1);
  }

  lemma HalfTimes(q: int, half: int)
    requires q % 2 == 0
    ensures q * half == q / 2 * (2 * half)
  {
    var h := q / 2;
    assert q == 2 * h;
    assert (2 * h) * half == h * (2 * half);
  }

  // ----- the probe sequence

  lemma StrideOdd(h: bv32)
    ensures Nat(Spread(h)) % 2 == 1
  {
    hide Bits, Spread;
    SpreadOdd(h);
    assert Nat(Spread(h)) == Bits(Spread(h), 32);
    LastBit(Spread(h), 32);
  }

  lemma SpreadOdd(h: bv32)
    ensures Odd(Spread(h))
  {
  }

  lemma LastBit(w: bv32, k: nat)
    requires k > 0
    ensures Bits(w, k) % 2 == Digit(Odd(w))
  {
    hide Odd, Half;
  }

  lemma {:induction false} ModPow2Odd(x: nat, n: nat)
    requires IsPow2(n) && n > 1 && x % 2 == 1
    ensures x % n % 2 == 1
  {
    var q := ModSplit(x, n);
    assert q * n == (q * (n / 2)) * 2;
  }

  lemma OneMore(t: int, s: int)
    ensures t * s + s == (t + 1) * s
  {
  }

  lemma ProbeStep(h: bv32, n: nat, t: nat)
    requires n > 0
    ensures (Probe(h, n, t) + Stride(h, n)) % n == Probe(h, n, t + 1)
  {
    hide Start, Stride;
    OneMore(t, Stride(h, n));
    ModAddLeft(Start(h, n) + t * Stride(h, n), Stride(h, n), n);
  }

  lemma StrideInverse(h: bv32, n: nat) returns (inv: nat)
    requires IsPow2(n)
    ensures (Stride(h, n) * inv) % n == 1 % n
  {
    if n == 1 {
      inv := 0;
    } else {
      StrideOdd(h);
      ModPow2Odd(Nat(Spread(h)), n);
      inv := OddInverse(Stride(h, n), n);
    }
  }

  lemma MulAssoc(x: int, y: int, z: int)
    ensures x * y * z == x * (y * z)
  {
  }

  /** Multiplying by a number and by its inverse changes nothing modulo n. */
  lemma InverseCancels(s: int, inv: int, n: int, d: int)
    requires n > 0 && (s * inv) % n == 1 % n
    ensures (d * (s * inv)) % n == d % n
  {
    ModMulLeft(s * inv, d, n);
    ModMulLeft(1, d, n);
  }

  lemma TimesInverse(d: int, s: int, inv: int, n: int)
    requires n > 0 && (s * inv) % n == 1 % n
    ensures (d * inv * s) % n == d % n
  {
    MulAssoc(d, inv, s);
    InverseCancels(s, inv, n, d);
  }

  lemma LandsOn(x: int, a: int, n: int, i: int)
    requires 0 <= i < n && x % n == (i - a) % n
    ensures (a + x) % n == i
  {
    ModAddLeft(x, a, n);
    ModAddLeft(i - a, a, n);
    ModUnique(0, n, i);
  }

  lemma SolveSteps(a: int, s: int, inv: int, n: int, i: int) returns (t: nat)
    requires n > 0 && 0 <= i < n && (s * inv) % n == 1 % n
    ensures t < n && (a + t * s) % n == i
  {
    var d := (i - a) * inv;
    t := Remainder(d, n);
    ModMulLeft(d, s, n);
    TimesInverse(i - a, s, inv, n);
    LandsOn(t * s, a, n, i);
  }

  lemma Remainder(d: int, n: int) returns (t: nat)
    requires n > 0
    ensures t == d % n < n
  {
    t := d % n;
  }

  lemma SameSteps(a: int, s: int, inv: int, n: int, t: int, u: int)
    requires 0 <= t < n && 0 <= u < n && (s * inv) % n == 1 % n
    requires (a + t * s) % n == (a + u * s) % n
    ensures t == u
  {
    var p := ModSplit(a + t * s, n);
    var q := ModSplit(a + u * s, n);
    var d := t - u;
    assert d * s == (p - q) * n by {
      assert d * s == t * s - u * s;
      assert (p - q) * n == p * n - q * n;
    }
    MulAssoc(d, s, inv);
    MulAssoc(p - q, n, inv);
    MulAssoc(p - q, inv, n);
    assert d * s * inv == (p - q) * inv * n + 0;
    ModUnique((p - q) * inv, n, 0);
    InverseCancels(s, inv, n, d);
    var k := ModSplit(d, n);
    MulApart(k, n);
  }

  /** Every bucket is visited within the first `n` steps. */
  lemma ProbeCovers(h: bv32, n: nat, i: nat) returns (t: nat)
    requires IsPow2(n) && i < n
    ensures t < n && Probe(h, n, t) == i
  {
    var inv := StrideInverse(h, n);
    t := SolveSteps(Start(h, n), Stride(h, n), inv, n, i);
  }

  /** No bucket is visited twice within the first `n` steps. */
  lemma ProbeInjective(h: bv32, n: nat, t: nat, u: nat)
    requires IsPow2(n) && t < n && u < n && Probe(h, n, t) == Probe(h, n, u)
    ensures t == u
  {
    var inv := StrideInverse(h, n);
    SameSteps(Start(h, n), Stride(h, n), inv, n, t, u);
  }

  ghost predicate Visited(h: bv32, n: nat, i: nat)
    requires n > 0
  {
    exists t: nat :: t < n && Probe(h, n, t) == i
  }

  /** Probe coverage: every bucket is met exactly once before the walk is back at its start. */
  lemma ProbeCoverage(h: bv32, n: nat)
    requires IsPow2(n)
    ensures forall i: nat | i < n :: Visited(h, n, i)
    ensures forall t: nat, u: nat :: t < n && u < n && Probe(h, n, t) == Probe(h, n, u) ==> t == u
    ensures Probe(h, n, n) == Probe(h, n, 0)
  {
    forall i: nat | i < n ensures Visited(h, n, i) {
      var t := ProbeCovers(h, n, i);
    }
    forall t: nat, u: nat | t < n && u < n && Probe(h, n, t) == Probe(h, n, u) ensures t == u {
      ProbeInjective(h, n, t, u);
    }
    var s := Stride(h, n);
    assert Start(h, n) + n * s == Start(h, n) + s * n;
    ModShift(Start(h, n), s, n);
  }
}
