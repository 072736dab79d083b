/** Masking with a power of two less one, which the table's code does on words, is the remainder that
    the walk is told in. */
module Masks {
  import opened Words
  import opened Probing
  import opened Sizing

  function And(w: bv32, m: bv32): bv32 { w & m }

  /** The mask of a table of `n` buckets. */
  function Mask32(n: nat): bv32 { Less(Word(n)) }

  function Less(r: bv32): bv32 { r - 1 }

  /** One mask and the next larger one, bit by bit. */
  lemma MaskJoins(w: bv32, r: bv32)
    requires PowerBits(r) && AtMostHalf(r)
    ensures And(w, Less(Join(r, false))) == Join(And(Half(w), Less(r)), Odd(w))
  {
  }

  predicate AtMostHalf(r: bv32) { r <= 0x4000_0000 }

  lemma MaskOne(w: bv32)
    ensures And(w, Less(Join(0, true))) == 0
  {
  }

  lemma DigitsOfMod(i: nat, n: nat)
    requires n > 1 && n % 2 == 0
    ensures i % n / 2 == i / 2 % (n / 2) && i % n % 2 == i % 2
  {
    var m := n / 2;
    var q := ModSplit(i / 2, m);
    var r := i / 2 % m;
    assert i / 2 == q * m + r;
    assert i == q * n + (2 * r + i % 2) by { Twice(q, m); }
    ModUnique(q, n, 2 * r + i % 2);
  }

  lemma Twice(q: int, m: int)
    ensures q * (2 * m) == 2 * (q * m)
  {
  }

  /** `i & (n - 1)` is the word of `i % n`. */
  lemma {:induction false} MaskIsRemainder(i: nat, n: nat, k: nat)
    requires IsPow2(n) && n <= MAX_BUCKETS && k <= 32 && i < Pow(k)
    ensures And(Word(i), Mask32(n)) == Word(i % n)
    decreases n
  {
    hide And, Join, Half, Odd, Less, PowerBits, AtMostHalf, Bits, Word, Below, Ones;
    if n == 1 {
      One();
      MaskOne(Word(i));
      WordZero();
    } else if k == 0 {
      WordZero();
      ZeroMasked(Mask32(n));
      NoRemainder(i, n);
    } else {
      BitsOfWord(i, k);
      MaskIsRemainder(i / 2, n / 2, k - 1);
      HalfPower(n);
      MaskJoins(Word(i), Word(n / 2));
      WordStep(n);
      DigitsOfMod(i, n);
      WordStep(i % n);
    }
  }

  lemma NoRemainder(i: nat, n: nat)
    requires n > 0 && i < Pow(0)
    ensures i == 0 && i % n == 0
  {
  }

  lemma HalfPower(n: nat)
    requires IsPow2(n) && 1 < n <= MAX_BUCKETS
    ensures PowerBits(Word(n / 2)) && AtMostHalf(Word(n / 2))
  {
    hide PowerBits, Word;
    PowerWord(n / 2);
    PowerOrder(Word(n / 2));
  }

  lemma One()
    ensures Word(1) == Join(0, true)
  {
    assert Word(0) == 0;
  }

  lemma ZeroMasked(m: bv32)
    ensures And(0, m) == 0
  {
  }

  lemma HashMasked(w: bv32, n: nat)
    requires IsPow2(n) && n <= MAX_BUCKETS
    ensures And(w, Mask32(n)) == Word(Nat(w) % n)
  {
    hide Bits, Word, And, Less;
    BitsBelow(w, 32);
    WordOfNat(w);
    MaskIsRemainder(Nat(w), n, 32);
  }

  lemma {:induction false} BitsBelow(w: bv32, k: nat)
    ensures Bits(w, k) < Pow(k)
    decreases k
  {
    hide Half, Odd;
    if k > 0 { BitsBelow(Half(w), k - 1); }
  }

  /** `k & mask` of a hash is the bucket its probe starts at. */
  lemma StartIsMask(h: bv32, n: nat)
    requires IsPow2(n) && n <= MAX_BUCKETS
    ensures And(h, Mask32(n)) == Word(Start(h, n))
  {
    hide And, Word, Less, Bits;
    HashMasked(h, n);
  }

  /** `__ac_inc` of a hash is the stride. */
  lemma StrideIsMask(h: bv32, n: nat)
    requires IsPow2(n) && n <= MAX_BUCKETS
    ensures And(Spread(h), Mask32(n)) == Word(Stride(h, n))
  {
    hide And, Word, Less, Bits, Spread;
    HashMasked(Spread(h), n);
  }

  /** `(i + inc) & mask` is the next bucket of the walk; the sum does not wrap. */
  lemma StepIsMask(i: nat, inc: nat, n: nat)
    requires IsPow2(n) && n <= MAX_BUCKETS && i < n && inc < n
    ensures i + inc < 0x1_0000_0000 && And(Word(i + inc), Mask32(n)) == Word((i + inc) % n)
  {
    hide And, Word, Less;
    FourGiga();
    MaskIsRemainder(i + inc, n, 32);
  }

  lemma FourGiga()
    ensures Pow(32) == 0x1_0000_0000
  {
    assert Pow(8) == 0x100;
    assert Pow(16) == 0x1_0000;
    assert Pow(24) == 0x100_0000;
  }
}
