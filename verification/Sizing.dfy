/** How many buckets a table gets, and how many of them it may use. */
module Sizing {
  import opened Probing
  import opened Words

  const MAX_BUCKETS: nat := 0x8000_0000

  /** `kroundup32`, on 32-bit words that wrap. */
  function KRoundUp32(x: bv32): bv32 {
    var a := x - 1;
    var b := a | (a >> 1);
    var c := b | (b >> 2);
    var d := c | (c >> 4);
    var e := d | (d >> 8);
    var f := e | (e >> 16);
    f + 1
  }

  /** The size `kh_resize` settles on for a request. */
  function NewBuckets(x: bv32): nat {
    if KRoundUp32(x) < 4 then 4 else KRoundUp32(x) as nat
  }

  /** `(khint_t)(n * 0.77 + 0.5)`; no power of two comes near a rounding tie. */
  function UpperBound(n: nat): nat {
    (77 * n + 50) / 100
  }

  /** The bound is the load factor's share, rounded to the nearest number. */
  lemma BoundIsFloor(n: nat)
    ensures UpperBound(n) == (n as real * 0.77 + 0.5).Floor
  {
    var m, x := 77 * n + 50, n as real * 0.77 + 0.5;
    assert m == 100 * UpperBound(n) + m % 100;
    assert m as real == 100.0 * x;
    assert (UpperBound(n) as real) * 100.0 <= m as real < (UpperBound(n) as real + 1.0) * 100.0;
  }

  predicate PowerBits(r: bv32) { r != 0 && r & (r - 1) == 0 }

  /** Up to 2^31 the macro yields the least power of two not below its argument;
      0 and everything above 2^31 wrap to 0. */
  lemma RoundUpLeast(x: bv32)
    ensures 1 <= x <= 0x8000_0000 ==>
      PowerBits(KRoundUp32(x)) && x <= KRoundUp32(x) && KRoundUp32(x) >> 1 < x
    ensures x == 0 || x > 0x8000_0000 ==> KRoundUp32(x) == 0
  {
  }

  predicate PowerCase(n: nat) {
    || n == 0x1 || n == 0x2 || n == 0x4 || n == 0x8 || n == 0x10 || n == 0x20 || n == 0x40 || n == 0x80
    || n == 0x100 || n == 0x200 || n == 0x400 || n == 0x800 || n == 0x1000 || n == 0x2000 || n == 0x4000 || n == 0x8000
    || n == 0x10000 || n == 0x20000 || n == 0x40000 || n == 0x80000 || n == 0x100000 || n == 0x200000 || n == 0x400000 || n == 0x800000
    || n == 0x1000000 || n == 0x2000000 || n == 0x4000000 || n == 0x8000000 || n == 0x10000000 || n == 0x20000000 || n == 0x40000000 || n == 0x80000000
  }

  lemma {:induction false} CasesPow2(n: nat)
    requires PowerCase(n)
    ensures IsPow2(n)
  {
    if n > 1 { CasesPow2(n / 2); }
  }

  lemma PowerBitsCase(r: bv32)
    requires PowerBits(r)
    ensures r == 0x1 || r == 0x2 || r == 0x4 || r == 0x8 || r == 0x10 || r == 0x20 || r == 0x40 || r == 0x80
          || r == 0x100 || r == 0x200 || r == 0x400 || r == 0x800 || r == 0x1000 || r == 0x2000 || r == 0x4000 || r == 0x8000
          || r == 0x10000 || r == 0x20000 || r == 0x40000 || r == 0x80000 || r == 0x100000 || r == 0x200000 || r == 0x400000 || r == 0x800000
          || r == 0x1000000 || r == 0x2000000 || r == 0x4000000 || r == 0x8000000 || r == 0x10000000 || r == 0x20000000 || r == 0x40000000 || r == 0x80000000
  {
  }

  lemma PowerNat(r: bv32)
    requires PowerBits(r)
    ensures IsPow2(r as nat) && r as nat <= MAX_BUCKETS
    ensures r >= 4 ==> r as nat >= 4
  {
    PowerBitsCase(r);
    CasesPow2(r as nat);
  }

  lemma DoubleBits(r: bv32)
    requires PowerBits(r) && r <= 0x4000_0000
    ensures PowerBits(r << 1) && (r << 1) as nat == 2 * r as nat && (r << 1) | 0 == r << 1
  {
    PowerBitsCase(r);
  }

  lemma PowerOrder(r: bv32)
    requires PowerBits(r)
    ensures r as nat >= 4 ==> r >= 4
    ensures r as nat < MAX_BUCKETS ==> r <= 0x4000_0000
  {
    PowerBitsCase(r);
  }

  lemma {:induction false} PowerWord(n: nat)
    requires IsPow2(n) && n <= MAX_BUCKETS
    ensures PowerBits(Word(n)) && Word(n) as nat == n
  {
    if n > 1 {
      PowerWord(n / 2);
      PowerOrder(Word(n / 2));
      DoubleBits(Word(n / 2));
    } else {
      assert Word(0) == 0;
    }
  }

  /** Whatever is asked for, the new size is a power of two from 4 to 2^31. */
  lemma NewBucketsPow2(x: bv32)
    ensures IsPow2(NewBuckets(x)) && 4 <= NewBuckets(x) <= MAX_BUCKETS
  {
    RoundUpLeast(x);
    var r := KRoundUp32(x);
    if r >= 4 { PowerNat(r); }
    assert IsPow2(1) && IsPow2(2) && IsPow2(4);
  }

  lemma RoundUpNeighbours(n: bv32)
    requires PowerBits(n) && n >= 4
    ensures KRoundUp32(n - 1) == n
    ensures n <= 0x4000_0000 ==> KRoundUp32(n + 1) == n << 1 && n << 1 >= 4
  {
  }

  /** `size << 1`, on 32-bit words. */
  function Twice(size: nat): nat { 2 * size % 0x1_0000_0000 }

  /** What `kh_put` asks for when the table is used up: one less keeps the size, one more doubles it. */
  function Request(n: nat, size: nat): bv32 {
    if n > Twice(size) then Word(n) - 1 else Word(n) + 1
  }

  /** Below 2^31 buckets the request keeps or doubles the size; there, only a table less than half
      full can be rehashed, and any other request is too small for what the table holds. */
  lemma RequestMeets(n: nat, size: nat)
    requires size <= n && (n == 0 || (IsPow2(n) && 4 <= n <= MAX_BUCKETS))
    ensures n == 0 ==> NewBuckets(Request(n, size)) == 4
    ensures n > 0 && n > 2 * size ==> NewBuckets(Request(n, size)) == n
    ensures 0 < n <= 2 * size && n < MAX_BUCKETS ==> NewBuckets(Request(n, size)) == 2 * n
    ensures n <= 2 * size && n == MAX_BUCKETS ==> size >= UpperBound(NewBuckets(Request(n, size)))
  {
    hide IsPow2, NewBuckets, Request;
    if n == 0 {
      FirstRequest(size);
    } else if n > 2 * size {
      KeepRequest(n, size);
    } else if n < MAX_BUCKETS {
      GrowRequest(n, size);
    } else {
      TopRequest(n, size);
    }
  }

  lemma FirstRequest(size: nat)
    requires size == 0
    ensures NewBuckets(Request(0, size)) == 4
  {
    hide KRoundUp32;
    RoundUpOne();
  }

  lemma KeepRequest(n: nat, size: nat)
    requires IsPow2(n) && 4 <= n <= MAX_BUCKETS && n > 2 * size
    ensures NewBuckets(Request(n, size)) == n
  {
    hide IsPow2, KRoundUp32, Word;
    PowerWord(n);
    PowerOrder(Word(n));
    RoundUpNeighbours(Word(n));
  }

  lemma GrowRequest(n: nat, size: nat)
    requires IsPow2(n) && 4 <= n < MAX_BUCKETS && size <= n <= 2 * size
    ensures NewBuckets(Request(n, size)) == 2 * n
  {
    hide IsPow2, KRoundUp32, PowerBits, Word;
    PowerWord(n);
    PowerOrder(Word(n));
    Doubled(Word(n));
  }

  lemma Doubled(w: bv32)
    requires PowerBits(w) && 4 <= w <= 0x4000_0000
    ensures var r := KRoundUp32(w + 1); r >= 4 && r as nat == 2 * w as nat
  {
    hide KRoundUp32;
    RoundUpNeighbours(w);
    DoubleBits(w);
  }

  lemma TopRequest(n: nat, size: nat)
    requires n == MAX_BUCKETS && size <= n <= 2 * size && IsPow2(n)
    ensures size >= UpperBound(NewBuckets(Request(n, size)))
  {
    hide IsPow2, KRoundUp32, Word;
    PowerWord(n);
    TopWord(Word(n));
    if size < n { RoundUpTop(Word(n)); } else { KeepRequest(n, 0); }
  }

  lemma TopWord(n: bv32)
    requires n as nat == MAX_BUCKETS
    ensures n == 0x8000_0000
  {
  }

  lemma RoundUpTop(n: bv32)
    requires n == 0x8000_0000
    ensures KRoundUp32(n + 1) == 0
  {
  }

  lemma RoundUpOne()
    ensures KRoundUp32(1) == 1
  {
  }
}
