/** Machine words of 32 bits and the numbers they stand for. */
module Words {

  function Half(w: bv32): bv32 { w >> 1 }

  predicate Odd(w: bv32) { w & 1 == 1 }

  function Join(h: bv32, odd: bool): bv32 { (h << 1) | (if odd then 1 else 0) }

  function Digit(odd: bool): nat { if odd then 1 else 0 }

  /** The number that the low `k` bits of a word stand for. */
  function Bits(w: bv32, k: nat): nat {
    if k == 0 then 0 else 2 * Bits(Half(w), k - 1) + Digit(Odd(w))
  }

  function Nat(w: bv32): nat { Bits(w, 32) }

  /** A number as a machine word. */
  function Word(n: nat): bv32 {
    if n == 0 then 0 else Join(Word(n / 2), n % 2 == 1)
  }

  /** The word whose low `k` bits are set. */
  function Ones(k: nat): bv32
    decreases 32 - k
  {
    if k >= 32 then 0xffff_ffff else Half(Ones(k + 1))
  }

  function Pow(k: nat): nat { if k == 0 then 1 else 2 * Pow(k - 1) }

  // ----- one bit at a time

  predicate Mask(m: bv32) { m & (m + 1) == 0 }

  predicate Below(w: bv32, m: bv32) { w <= m }

  lemma HalfMask(m: bv32)
    requires Mask(m)
    ensures Mask(Half(m)) && (m != 0 ==> Odd(m)) && (Half(m) != 0 ==> m != 0)
  {
  }

  lemma HalfBelow(w: bv32, m: bv32)
    requires Below(w, m)
    ensures Below(Half(w), Half(m))
  {
  }

  lemma JoinHalf(w: bv32)
    ensures Join(Half(w), Odd(w)) == w
  {
  }

  lemma HalfJoin(h: bv32, odd: bool, m: bv32)
    requires Below(h, Half(m)) && Odd(m)
    ensures Below(Join(h, odd), m) && Half(Join(h, odd)) == h && Odd(Join(h, odd)) == odd
  {
  }

  lemma JoinZero()
    ensures Join(0, false) == 0
  {
  }

  lemma OnlyZero(w: bv32)
    requires Below(w, 0)
    ensures w == 0
  {
  }

  lemma ZeroBelow(m: bv32)
    ensures Below(0, m)
  {
  }

  lemma FourLess(k: nat)
    requires k + 4 <= 32
    ensures Ones(k) == Half(Half(Half(Half(Ones(k + 4)))))
  {
    hide Half;
    assert Ones(k + 2) == Half(Half(Ones(k + 4)));
  }

  lemma FirstOnes()
    ensures Ones(0) == 0 && Ones(1) == 1
  {
    FourLess(28);
    FourLess(24);
    FourLess(20);
    FourLess(16);
    FourLess(12);
    FourLess(8);
    FourLess(4);
    FourLess(0);
    assert Ones(4) == 0xf && Ones(2) == Half(Half(Ones(4)));
  }

  lemma FullMask()
    ensures Mask(0xffff_ffff)
  {
  }

  lemma {:induction false} OnesMask(k: nat)
    ensures Mask(Ones(k))
    decreases 32 - k
  {
    hide Mask, Half, Odd;
    FullMask();
    if k < 32 {
      OnesMask(k + 1);
      HalfMask(Ones(k + 1));
    }
  }

  lemma {:induction false} OnesOdd(k: nat)
    requires 1 <= k <= 32
    ensures Odd(Ones(k)) && Ones(k) != 0 && Ones(k - 1) == Half(Ones(k))
  {
    hide Mask, Half, Odd;
    OnesMask(k);
    HalfMask(Ones(k));
    if k == 1 { FirstOnes(); } else { OnesOdd(k - 1); }
  }

  // ----- numbers and words

  lemma WordStep(n: nat)
    ensures Word(n) == Join(Word(n / 2), n % 2 == 1)
  {
    hide Join;
    JoinZero();
  }

  /** The word of its low bits is the word itself, if it has no others. */
  lemma {:induction false} WordOfBits(w: bv32, k: nat)
    requires k <= 32 && Below(w, Ones(k))
    ensures Word(Bits(w, k)) == w
    decreases k
  {
    hide Half, Odd, Join, Below, Ones, Word;
    if k == 0 {
      FirstOnes();
      OnlyZero(w);
      WordZero();
    } else {
      OnesOdd(k);
      HalfBelow(w, Ones(k));
      WordOfBits(Half(w), k - 1);
      WordStep(Bits(w, k));
      JoinHalf(w);
    }
  }

  lemma WordZero()
    ensures Word(0) == 0
  {
  }

  lemma OnesAll(w: bv32)
    ensures Below(w, Ones(32))
  {
  }

  lemma WordOfNat(w: bv32)
    ensures Word(Nat(w)) == w
  {
    hide Below, Ones, Bits, Word;
    OnesAll(w);
    WordOfBits(w, 32);
  }

  /** A number of `k` bits keeps them all in its word. */
  lemma {:induction false} BitsOfWord(n: nat, k: nat)
    requires k <= 32 && n < Pow(k)
    ensures Below(Word(n), Ones(k)) && Bits(Word(n), k) == n
    ensures k > 0 ==> Half(Word(n)) == Word(n / 2) && Odd(Word(n)) == (n % 2 == 1)
  {
    hide Half, Odd, Join, Below, Ones, Word;
    if k == 0 {
      WordZero();
      ZeroBelow(Ones(0));
    } else {
      OnesOdd(k);
      BitsOfWord(n / 2, k - 1);
      WordStep(n);
      HalfJoin(Word(n / 2), n % 2 == 1, Ones(k));
    }
  }
}
