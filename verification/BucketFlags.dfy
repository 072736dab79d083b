/** The table's flags: two bits per bucket, sixteen buckets to a 32-bit word.
    Bit 1 of a pair says "never used", bit 0 says "deleted". */
module BucketFlags {
  datatype Slot = Slot(isEmpty: bool, isDel: bool) {
    predicate Live() { !isEmpty && !isDel }
  }

  const EMPTY := Slot(true, false)
  const LIVE := Slot(false, false)
  const DELETED := Slot(false, true)

  predicate EvenShift(s: bv32) { s < 31 && s & 1 == 0 }

  /** `(i & 0xf) << 1`, twice a bucket's position inside its word. */
  function Shift(pos: nat): (s: bv32)
    requires pos < 16
    ensures EvenShift(s)
  {
    if pos == 0 then 0 else (Shift(pos - 1) + 2) & 30
  }

  /** The pair at a position, pairs being taken off the low end of the word. */
  function SlotIn(w: bv32, pos: nat): Slot
    requires pos < 16
  {
    if pos == 0 then Slot(w & 2 != 0, w & 1 != 0) else SlotIn(w >> 2, pos - 1)
  }

  /** `__ac_fsize`: words needed for `n` buckets. */
  function WordCount(n: nat): nat {
    if n < 16 then 1 else n / 16
  }

  function PairAt(w: bv32, s: bv32): Slot
    requires s < 32
  {
    Slot((w >> s) & 2 != 0, (w >> s) & 1 != 0)
  }

  predicate ShiftIs(p: nat, s: bv32) {
    && (p == 0 <==> s == 0) && (p == 1 <==> s == 2) && (p == 2 <==> s == 4) && (p == 3 <==> s == 6)
    && (p == 4 <==> s == 8) && (p == 5 <==> s == 10) && (p == 6 <==> s == 12) && (p == 7 <==> s == 14)
    && (p == 8 <==> s == 16) && (p == 9 <==> s == 18) && (p == 10 <==> s == 20) && (p == 11 <==> s == 22)
    && (p == 12 <==> s == 24) && (p == 13 <==> s == 26) && (p == 14 <==> s == 28) && (p == 15 <==> s == 30)
  }

  lemma {:induction false} ShiftTable(p: nat)
    requires p < 16
    ensures ShiftIs(p, Shift(p))
  {
    if p > 0 { ShiftTable(p - 1); }
  }

  lemma ShiftsApart(p: nat, q: nat)
    requires p < 16 && q < 16
    ensures Shift(p) == Shift(q) <==> p == q
  {
    ShiftTable(p);
    ShiftTable(q);
  }

  lemma ShiftStep(p: nat)
    requires 0 < p < 16
    ensures Shift(p - 1) < 30 && Shift(p) == Shift(p - 1) + 2
  {
    ShiftTable(p);
    ShiftTable(p - 1);
  }

  lemma ShiftAgain(w: bv32, s: bv32)
    requires s < 30
    ensures PairAt(w >> 2, s) == PairAt(w, s + 2)
  {
  }

  /** Taking pairs off one at a time reads the bits the shift macros read. */
  lemma {:induction false} SlotAtShift(w: bv32, p: nat)
    requires p < 16
    ensures SlotIn(w, p) == PairAt(w, Shift(p))
  {
    if p > 0 {
      ShiftStep(p);
      SlotAtShift(w >> 2, p - 1);
      ShiftAgain(w, Shift(p - 1));
    }
  }

  // ----- the macros on one word: only the addressed pair changes

  ghost predicate PairChanged(w: bv32, w': bv32, p: nat, s: Slot) {
    forall q :: 0 <= q < 16 ==> SlotIn(w', q) == if q == p then s else SlotIn(w, q)
  }

  function SetDelWord(w: bv32, s: bv32): bv32
    requires s < 32
  {
    w | (1 << s)
  }

  lemma SetDelBits(w: bv32, s: bv32, t: bv32, w': bv32)
    requires EvenShift(s) && EvenShift(t) && w' == SetDelWord(w, s)
    ensures s == t ==> PairAt(w', t) == PairAt(w, t).(isDel := true)
    ensures s != t ==> PairAt(w', t) == PairAt(w, t)
  {
  }

  lemma SetDelAt(w: bv32, p: nat, q: nat, w': bv32)
    requires p < 16 && q < 16 && w' == SetDelWord(w, Shift(p))
    ensures SlotIn(w', q) == if q == p then SlotIn(w, p).(isDel := true) else SlotIn(w, q)
  {
    hide PairAt, SlotIn, Shift, EvenShift, SetDelWord;
    ShiftsApart(p, q);
    SetDelBits(w, Shift(p), Shift(q), w');
    SlotAtShift(w, q);
    SlotAtShift(w', q);
  }

  /** `__ac_set_isdel_true` */
  lemma SetDelPair(w: bv32, p: nat, w': bv32)
    requires p < 16 && w' == SetDelWord(w, Shift(p))
    ensures PairChanged(w, w', p, SlotIn(w, p).(isDel := true))
  {
    hide SlotIn, Shift, EvenShift, SetDelWord;
    forall q | 0 <= q < 16 ensures SlotIn(w', q) == if q == p then SlotIn(w, p).(isDel := true) else SlotIn(w, q) {
      SetDelAt(w, p, q, w');
    }
  }

  function ClearEmptyWord(w: bv32, s: bv32): bv32
    requires s < 32
  {
    w & !(2 << s)
  }

  lemma ClearEmptyBits(w: bv32, s: bv32, t: bv32, w': bv32)
    requires EvenShift(s) && EvenShift(t) && w' == ClearEmptyWord(w, s)
    ensures s == t ==> PairAt(w', t) == PairAt(w, t).(isEmpty := false)
    ensures s != t ==> PairAt(w', t) == PairAt(w, t)
  {
  }

  lemma ClearEmptyAt(w: bv32, p: nat, q: nat, w': bv32)
    requires p < 16 && q < 16 && w' == ClearEmptyWord(w, Shift(p))
    ensures SlotIn(w', q) == if q == p then SlotIn(w, p).(isEmpty := false) else SlotIn(w, q)
  {
    hide PairAt, SlotIn, Shift, EvenShift, ClearEmptyWord;
    ShiftsApart(p, q);
    ClearEmptyBits(w, Shift(p), Shift(q), w');
    SlotAtShift(w, q);
    SlotAtShift(w', q);
  }

  /** `__ac_set_isempty_false` */
  lemma ClearEmptyPair(w: bv32, p: nat, w': bv32)
    requires p < 16 && w' == ClearEmptyWord(w, Shift(p))
    ensures PairChanged(w, w', p, SlotIn(w, p).(isEmpty := false))
  {
    hide SlotIn, Shift, EvenShift, ClearEmptyWord;
    forall q | 0 <= q < 16 ensures SlotIn(w', q) == if q == p then SlotIn(w, p).(isEmpty := false) else SlotIn(w, q) {
      ClearEmptyAt(w, p, q, w');
    }
  }

  function ClearBothWord(w: bv32, s: bv32): bv32
    requires s < 32
  {
    w & !(3 << s)
  }

  lemma ClearBothBits(w: bv32, s: bv32, t: bv32, w': bv32)
    requires EvenShift(s) && EvenShift(t) && w' == ClearBothWord(w, s)
    ensures s == t ==> PairAt(w', t) == LIVE
    ensures s != t ==> PairAt(w', t) == PairAt(w, t)
  {
  }

  lemma ClearBothAt(w: bv32, p: nat, q: nat, w': bv32)
    requires p < 16 && q < 16 && w' == ClearBothWord(w, Shift(p))
    ensures SlotIn(w', q) == if q == p then LIVE else SlotIn(w, q)
  {
    hide PairAt, SlotIn, Shift, EvenShift, ClearBothWord;
    ShiftsApart(p, q);
    ClearBothBits(w, Shift(p), Shift(q), w');
    SlotAtShift(w, q);
    SlotAtShift(w', q);
  }

  /** `__ac_set_isboth_false` */
  lemma ClearBothPair(w: bv32, p: nat, w': bv32)
    requires p < 16 && w' == ClearBothWord(w, Shift(p))
    ensures PairChanged(w, w', p, LIVE)
  {
    hide SlotIn, Shift, EvenShift, ClearBothWord;
    forall q | 0 <= q < 16 ensures SlotIn(w', q) == if q == p then LIVE else SlotIn(w, q) {
      ClearBothAt(w, p, q, w');
    }
  }

  lemma {:induction false} AllEmptyPair(p: nat)
    requires p < 16
    ensures SlotIn(0xaaaa_aaaa, p) == EMPTY
  {
    SlotAtShift(0xaaaa_aaaa, p);
    AllEmptyBits(Shift(p));
  }

  lemma AllEmptyBits(s: bv32)
    requires EvenShift(s)
    ensures PairAt(0xaaaa_aaaa, s) == EMPTY
  {
  }

  /** The packed words, seen as one `Slot` per bucket, padding included. */
  class Flags {
    const words: array<bv32>
    ghost var slots: seq<Slot>

    ghost predicate Valid()
      reads this, words
    {
      && |slots| == 16 * words.Length
      && forall i :: 0 <= i < |slots| ==> slots[i] == SlotIn(words[i / 16], i % 16)
    }

    /** No flags at all: the state of a table that never held anything. */
    constructor None()
      ensures Valid() && slots == [] && fresh(words)
    {
      words := new bv32[0];
      slots := [];
    }

    /** `malloc` followed by `memset(…, 0xaa, …)`. */
    constructor AllEmpty(n: nat)
      ensures Valid() && fresh(words) && |slots| == 16 * WordCount(n)
      ensures forall i :: 0 <= i < |slots| ==> slots[i] == EMPTY
    {
      words := new bv32[WordCount(n)](_ => 0xaaaa_aaaa);
      slots := seq(16 * WordCount(n), _ => EMPTY);
      new;
      forall i | 0 <= i < |slots| ensures slots[i] == SlotIn(words[i / 16], i % 16) {
        AllEmptyPair(i % 16);
      }
    }

    /** `memset(…, 0xaa, …)` over flags already there. */
    method Reset()
      requires Valid()
      modifies this, words
      ensures Valid() && |slots| == |old(slots)|
      ensures forall i :: 0 <= i < |slots| ==> slots[i] == EMPTY
    {
      forall k | 0 <= k < words.Length { words[k] := 0xaaaa_aaaa; }
      slots := seq(|slots|, _ => EMPTY);
      forall i | 0 <= i < |slots| ensures slots[i] == SlotIn(words[i / 16], i % 16) {
        AllEmptyPair(i % 16);
      }
    }

    predicate IsEmpty(i: nat)
      requires Valid() && i < |slots|
      reads this, words
      ensures IsEmpty(i) == slots[i].isEmpty
    {
      SlotAtShift(words[i / 16], i % 16);
      (words[i / 16] >> Shift(i % 16)) & 2 != 0
    }

    predicate IsDel(i: nat)
      requires Valid() && i < |slots|
      reads this, words
      ensures IsDel(i) == slots[i].isDel
    {
      SlotAtShift(words[i / 16], i % 16);
      (words[i / 16] >> Shift(i % 16)) & 1 != 0
    }

    predicate IsEither(i: nat)
      requires Valid() && i < |slots|
      reads this, words
      ensures IsEither(i) == !slots[i].Live()
    {
      SlotAtShift(words[i / 16], i % 16);
      EitherBit(words[i / 16] >> Shift(i % 16));
      (words[i / 16] >> Shift(i % 16)) & 3 != 0
    }

    method SetDelTrue(i: nat)
      requires Valid() && i < |slots|
      modifies this, words
      ensures Valid() && slots == old(slots)[i := old(slots)[i].(isDel := true)]
    {
      var w := SetDelWord(words[i / 16], Shift(i % 16));
      SetDelPair(words[i / 16], i % 16, w);
      WriteWord(i, w, slots[i].(isDel := true));
    }

    method SetEmptyFalse(i: nat)
      requires Valid() && i < |slots|
      modifies this, words
      ensures Valid() && slots == old(slots)[i := old(slots)[i].(isEmpty := false)]
    {
      var w := ClearEmptyWord(words[i / 16], Shift(i % 16));
      ClearEmptyPair(words[i / 16], i % 16, w);
      WriteWord(i, w, slots[i].(isEmpty := false));
    }

    method SetBothFalse(i: nat)
      requires Valid() && i < |slots|
      modifies this, words
      ensures Valid() && slots == old(slots)[i := LIVE]
    {
      var w := ClearBothWord(words[i / 16], Shift(i % 16));
      ClearBothPair(words[i / 16], i % 16, w);
      WriteWord(i, w, LIVE);
    }

    method WriteWord(i: nat, w: bv32, ghost s: Slot)
      requires Valid() && i < |slots|
      requires PairChanged(words[i / 16], w, i % 16, s)
      modifies this, words
      ensures Valid() && slots == old(slots)[i := s]
    {
      words[i / 16] := w;
      slots := slots[i := s];
      forall k | 0 <= k < |slots| ensures slots[k] == SlotIn(words[k / 16], k % 16) {
        if k / 16 == i / 16 {
          assert k % 16 == i % 16 <==> k == i;
        }
      }
    }
  }

  lemma EitherBit(x: bv32)
    ensures x & 3 != 0 <==> x & 2 != 0 || x & 1 != 0
  {
  }

  // ----- counting buckets

  ghost function NumLive(s: seq<Slot>): nat {
    if s == [] then 0 else NumLive(s[..|s| - 1]) + if s[|s| - 1].Live() then 1 else 0
  }

  ghost function NumUsed(s: seq<Slot>): nat {
    if s == [] then 0 else NumUsed(s[..|s| - 1]) + if s[|s| - 1].isEmpty then 0 else 1
  }

  function Bit(b: bool): nat { if b then 1 else 0 }

  lemma {:induction false} CountUpdate(s: seq<Slot>, i: nat, b: Slot)
    requires i < |s|
    ensures NumLive(s[i := b]) == NumLive(s) - Bit(s[i].Live()) + Bit(b.Live())
    ensures NumUsed(s[i := b]) == NumUsed(s) - Bit(!s[i].isEmpty) + Bit(!b.isEmpty)
  {
    var m := |s| - 1;
    if i == m {
      assert s[i := b][..m] == s[..m];
    } else {
      assert s[i := b][..m] == s[..m][i := b];
      CountUpdate(s[..m], i, b);
    }
  }

  lemma {:induction false} CountLive(s: seq<Slot>, n: nat)
    requires n <= |s| && forall i :: n <= i < |s| ==> s[i].isEmpty
    ensures NumLive(s) <= NumUsed(s) <= n
  {
    if s != [] {
      CountLive(s[..|s| - 1], if n == |s| then n - 1 else n);
    }
  }

  lemma {:induction false} CountAll(s: seq<Slot>, n: nat)
    requires n <= |s| && forall i :: 0 <= i < n ==> s[i].Live()
    ensures n <= NumLive(s)
  {
    if n > 0 { CountAll(s[..|s| - 1], if n == |s| then n - 1 else n); }
  }

  lemma {:induction false} UsedNotLive(s: seq<Slot>, x: nat)
    requires x < |s| && s[x] == DELETED
    ensures NumUsed(s) > NumLive(s)
  {
    var m := |s| - 1;
    if x < m {
      UsedNotLive(s[..m], x);
    } else {
      LiveAtMostUsed(s[..m]);
    }
  }

  lemma {:induction false} LiveAtMostUsed(s: seq<Slot>)
    ensures NumLive(s) <= NumUsed(s)
  {
    if s != [] { LiveAtMostUsed(s[..|s| - 1]); }
  }

  lemma {:induction false} CountNone(s: seq<Slot>)
    requires forall i :: 0 <= i < |s| ==> !s[i].Live()
    ensures NumLive(s) == 0
    ensures (forall i :: 0 <= i < |s| ==> s[i].isEmpty) ==> NumUsed(s) == 0
  {
    if s != [] { CountNone(s[..|s| - 1]); }
  }

  /** Fewer used buckets than buckets leaves an empty one among the first `n`. */
  lemma {:induction false} EmptyBucket(s: seq<Slot>, n: nat) returns (i: nat)
    requires n <= |s| && NumUsed(s) < n
    ensures i < n && s[i].isEmpty
  {
    var m := |s| - 1;
    if n == |s| && s[m].isEmpty {
      i := m;
    } else {
      i := EmptyBucket(s[..m], if n == |s| then m else n);
    }
  }
}
