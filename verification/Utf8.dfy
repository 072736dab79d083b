/** UTF-8 as the line editor uses it: code points up to U+FFFF, at most three bytes each. With
    `wide` false the one-byte build is meant, where a byte is a character. */
module Utf8 {

  type byte = bv8
  type rune = bv16

  function FromUnicode(uc: rune): seq<byte> {
    if uc <= 0x7f then [uc as bv8]
    else if uc <= 0x7ff then [0xc0 | (((uc & 0x7c0) >> 6) as bv8), 0x80 | ((uc & 0x3f) as bv8)]
    else [0xe0 | (((uc & 0xf000) >> 12) as bv8), 0x80 | (((uc & 0xfc0) >> 6) as bv8), 0x80 | ((uc & 0x3f) as bv8)]
  }

  /** Section 3 of RFC 3629: the code point in digits of base 64, each behind its mark. */
  lemma EncodedDigits(uc: rune)
    ensures uc < 0x80 ==> |FromUnicode(uc)| == 1 && FromUnicode(uc)[0] as rune == uc
    ensures 0x80 <= uc < 0x800 ==>
      var r := FromUnicode(uc);
      |r| == 2 && r[0] as rune == 0xc0 + uc / 64 && r[1] as rune == 0x80 + uc % 64
    ensures 0x800 <= uc ==>
      var r := FromUnicode(uc);
      |r| == 3 && r[0] as rune == 0xe0 + uc / 4096 && r[1] as rune == 0x80 + uc / 64 % 64 && r[2] as rune == 0x80 + uc % 64
  {
  }

  /** A byte of a string; its end reads as 0. */
  function ByteAt(s: seq<byte>, i: nat): byte { if i < |s| then s[i] else 0 }

  predicate IsTail(b: byte) { b & 0xc0 == 0x80 }

  /** The code point at the front of a string, and the number of bytes it takes. A byte that starts
      no sequence stands for itself. */
  function ToUnicode(s: seq<byte>): (r: (rune, nat))
    requires s != []
    ensures 1 <= r.1 <= |s|
  {
    var b0, b1, b2 := s[0], ByteAt(s, 1), ByteAt(s, 2);
    if b0 < 0xc0 then (b0 as rune, 1)
    else if b0 < 0xe0 then
      if IsTail(b1) then (Two(b0, b1), 2) else (b0 as rune, 1)
    else if b0 < 0xf0 then
      if IsTail(b1) && IsTail(b2) then (Three(b0, b1, b2), 3) else (b0 as rune, 1)
    else (b0 as rune, 1)
  }

  function Two(b0: byte, b1: byte): rune {
    (((b0 & !0xc0) as rune) << 6) | ((b1 & !0x80) as rune)
  }

  function Three(b0: byte, b1: byte, b2: byte): rune {
    (((b0 & !0xe0) as rune) << 12) | (((b1 & !0x80) as rune) << 6) | ((b2 & !0x80) as rune)
  }

  // ----- encoding and decoding one character

  lemma TwoBytes(uc: rune)
    requires 0x7f < uc <= 0x7ff
    ensures var b0, b1 := 0xc0 | (((uc & 0x7c0) >> 6) as bv8), 0x80 | ((uc & 0x3f) as bv8);
      0xc2 <= b0 < 0xe0 && IsTail(b1) && Two(b0, b1) == uc
  {
  }

  lemma ThreeBytes(uc: rune)
    requires 0x7ff < uc
    ensures var b0, b1, b2 := 0xe0 | (((uc & 0xf000) >> 12) as bv8), 0x80 | (((uc & 0xfc0) >> 6) as bv8), 0x80 | ((uc & 0x3f) as bv8);
      0xe0 <= b0 < 0xf0 && IsTail(b1) && IsTail(b2) && Three(b0, b1, b2) == uc
  {
  }

  /** Decoding what was encoded, whatever follows it. */
  lemma DecodesBack(uc: rune, rest: seq<byte>)
    ensures ToUnicode(FromUnicode(uc) + rest) == (uc, |FromUnicode(uc)|)
  {
    hide Two, Three, IsTail;
    if uc <= 0x7f {
    } else if uc <= 0x7ff {
      TwoBytes(uc);
    } else {
      ThreeBytes(uc);
    }
  }

  /** Section 4 of RFC 3629, surrogates included: neither a stray byte nor a longer form than needed. */
  predicate Shortest(s: seq<byte>)
    requires s != []
  {
    match ToUnicode(s).1
    case 1 => s[0] < 0x80
    case 2 => s[0] >= 0xc2
    case _ => s[0] > 0xe0 || ByteAt(s, 1) >= 0xa0
  }

  /** Encoding gives back the bytes that were decoded exactly for the shortest forms. */
  lemma EncodesBackIff(s: seq<byte>)
    requires s != []
    ensures var (uc, n) := ToUnicode(s); FromUnicode(uc) == s[..n] <==> Shortest(s)
  {
    hide Two, Three, IsTail;
    var (uc, n) := ToUnicode(s);
    var b0, b1, b2 := s[0], ByteAt(s, 1), ByteAt(s, 2);
    if n == 1 {
      assert s[..n] == [b0];
      OneByte(b0);
    } else if n == 2 {
      assert s[..n] == [b0, b1];
      TwoBack(b0, b1);
    } else {
      assert s[..n] == [b0, b1, b2];
      ThreeBack(b0, b1, b2);
    }
  }

  lemma OneByte(b: byte)
    ensures FromUnicode(b as rune) == [b] <==> b < 0x80
  {
    if b >= 0x80 { assert 0x7f < b as rune <= 0x7ff; }
  }

  lemma TwoBack(b0: byte, b1: byte)
    requires 0xc0 <= b0 < 0xe0 && IsTail(b1)
    ensures FromUnicode(Two(b0, b1)) == [b0, b1] <==> b0 >= 0xc2
  {
    assert Two(b0, b1) <= 0x7ff;
    assert Two(b0, b1) > 0x7f <==> b0 >= 0xc2;
  }

  lemma ThreeBack(b0: byte, b1: byte, b2: byte)
    requires 0xe0 <= b0 < 0xf0 && IsTail(b1) && IsTail(b2)
    ensures FromUnicode(Three(b0, b1, b2)) == [b0, b1, b2] <==> b0 > 0xe0 || b1 >= 0xa0
  {
    assert Three(b0, b1, b2) > 0x7ff <==> b0 > 0xe0 || b1 >= 0xa0;
  }

  /** `utf8_charlen` */
  function CharLen(b: byte): int {
    if b & 0x80 == 0 then 1
    else if b & 0xe0 == 0xc0 then 2
    else if b & 0xf0 == 0xe0 then 3
    else if b & 0xf8 == 0xf0 then 4
    else -1
  }

  /** The first byte tells how many there are, and no byte but that of U+0000 is zero. */
  lemma FirstByteTells(uc: rune)
    ensures CharLen(FromUnicode(uc)[0]) == |FromUnicode(uc)|
    ensures uc != 0 ==> forall b :: b in FromUnicode(uc) ==> b != 0
  {
  }

  // ----- strings

  function Enc(wide: bool, uc: rune): (r: seq<byte>)
    ensures 1 <= |r| <= 3
  {
    if wide then FromUnicode(uc) else [(uc & 0xff) as bv8]
  }

  function Next(wide: bool, s: seq<byte>): (r: (rune, nat))
    requires s != []
    ensures 1 <= r.1 <= |s|
  {
    if wide then ToUnicode(s) else (s[0] as rune, 1)
  }

  /** The characters a build can hold. */
  predicate Fits(wide: bool, uc: rune) { wide || uc < 0x100 }

  function Encode(wide: bool, cs: seq<rune>): seq<byte> {
    if cs == [] then [] else Enc(wide, cs[0]) + Encode(wide, cs[1..])
  }

  function Decode(wide: bool, s: seq<byte>): seq<rune>
    decreases |s|
  {
    if s == [] then [] else [Next(wide, s).0] + Decode(wide, s[Next(wide, s).1..])
  }

  lemma {:induction false} EncodeAppend(wide: bool, a: seq<rune>, b: seq<rune>)
    ensures Encode(wide, a + b) == Encode(wide, a) + Encode(wide, b)
  {
    hide Enc;
    if a == [] {
      assert a + b == b;
    } else {
      assert (a + b)[1..] == a[1..] + b;
      EncodeAppend(wide, a[1..], b);
    }
  }

  lemma NextOfEnc(wide: bool, uc: rune, rest: seq<byte>)
    requires Fits(wide, uc)
    ensures Next(wide, Enc(wide, uc) + rest) == (uc, |Enc(wide, uc)|)
  {
    hide FromUnicode, ToUnicode;
    if wide { DecodesBack(uc, rest); }
  }

  lemma {:induction false} DecodeEncode(wide: bool, cs: seq<rune>)
    requires forall c :: c in cs ==> Fits(wide, c)
    ensures Decode(wide, Encode(wide, cs)) == cs
  {
    hide Enc, Next, Fits;
    if cs != [] {
      NextOfEnc(wide, cs[0], Encode(wide, cs[1..]));
      DecodeEncode(wide, cs[1..]);
      var s := Encode(wide, cs);
      assert s[|Enc(wide, cs[0])|..] == Encode(wide, cs[1..]);
    }
  }

  /** Decoding does not look past a terminator. */
  lemma NextStops(wide: bool, s: seq<byte>, rest: seq<byte>)
    requires s != []
    ensures Next(wide, s + [0] + rest) == Next(wide, s)
  {
    hide Two, Three;
    var t := s + [0] + rest;
    assert t[0] == s[0] && (|s| > 1 ==> t[1] == s[1]) && (|s| > 2 ==> t[2] == s[2]);
    assert |s| == 1 ==> t[1] == 0;
    assert |s| == 2 ==> t[2] == 0;
  }

  /** The bytes of a C string. */
  function CString(b: seq<byte>): seq<byte> {
    if b == [] || b[0] == 0 then [] else [b[0]] + CString(b[1..])
  }

  lemma {:induction false} CStringEnds(b: seq<byte>, n: nat)
    requires n < |b| && 0 !in b[..n]
    ensures CString(b) == b[..n] <==> b[n] == 0
  {
    if n > 0 {
      assert b[..n][0] == b[0] && b[..n] == [b[0]] + b[1..][..n - 1];
      assert CString(b) == [b[0]] + CString(b[1..]);
      CStringEnds(b[1..], n - 1);
      assert b[n] == b[1..][n - 1];
      assert CString(b) == b[..n] <==> CString(b[1..]) == b[1..][..n - 1] by {
        assert CString(b)[1..] == CString(b[1..]) && b[..n][1..] == b[1..][..n - 1];
      }
    }
  }

  /** `strlen` */
  method CLength(buf: array<byte>) returns (n: nat)
    requires exists i :: 0 <= i < buf.Length && buf[i] == 0
    ensures n < buf.Length && buf[n] == 0 && forall i :: 0 <= i < n ==> buf[i] != 0
  {
    n := 0;
    while buf[n] != 0
      invariant n < buf.Length && forall i :: 0 <= i < n ==> buf[i] != 0
      decreases buf.Length - n
    {
      n := n + 1;
    }
  }

  /** The bytes that the first `k` characters take. */
  function Offset(wide: bool, s: seq<byte>, k: nat): (n: nat)
    requires k <= |Decode(wide, s)|
    ensures n <= |s|
    decreases k
  {
    if k == 0 then 0
    else
      var l := Next(wide, s).1;
      l + Offset(wide, s[l..], k - 1)
  }

  /** A place between two characters, at the start or at the end. */
  ghost predicate Boundary(wide: bool, s: seq<byte>, n: nat) {
    exists k: nat :: k <= |Decode(wide, s)| && Offset(wide, s, k) == n
  }

  lemma {:induction false} OffsetStep(wide: bool, s: seq<byte>, k: nat)
    requires k < |Decode(wide, s)|
    ensures var at := Offset(wide, s, k);
      && at < |s| && Offset(wide, s, k + 1) == at + Next(wide, s[at..]).1
      && Decode(wide, s)[k] == Next(wide, s[at..]).0
    decreases k
  {
    hide Next;
    var l := Next(wide, s).1;
    if k > 0 {
      OffsetStep(wide, s[l..], k - 1);
      var at := Offset(wide, s[l..], k - 1);
      assert s[l..][at..] == s[l + at..];
    } else {
      assert s[0..] == s && Offset(wide, s[l..], 0) == 0;
    }
  }

  /** Counting on from a boundary. */
  lemma {:induction false} OffsetAfter(wide: bool, s: seq<byte>, j: nat, k: nat)
    requires j + k <= |Decode(wide, s)|
    ensures var t := s[Offset(wide, s, j)..];
      |Decode(wide, t)| == |Decode(wide, s)| - j && Offset(wide, t, k) == Offset(wide, s, j + k) - Offset(wide, s, j)
    decreases j
  {
    hide Decode, Offset, Next;
    NoOffset(wide, s);
    if j == 0 {
      assert s[0..] == s;
    } else {
      OffsetFirst(wide, s, j);
      OffsetFirst(wide, s, j + k);
      var l := Next(wide, s).1;
      OffsetAfter(wide, s[l..], j - 1, k);
      assert s[l..][Offset(wide, s[l..], j - 1)..] == s[Offset(wide, s, j)..];
    }
  }

  lemma OffsetFirst(wide: bool, s: seq<byte>, k: nat)
    requires 0 < k <= |Decode(wide, s)|
    ensures s != [] && |Decode(wide, s)| == 1 + |Decode(wide, s[Next(wide, s).1..])|
    ensures Offset(wide, s, k) == Next(wide, s).1 + Offset(wide, s[Next(wide, s).1..], k - 1)
  {
    hide Next;
  }

  /** Offsets grow with the number of characters. */
  lemma {:induction false} OffsetGrows(wide: bool, s: seq<byte>, j: nat, k: nat)
    requires j < k <= |Decode(wide, s)|
    ensures Offset(wide, s, j) < Offset(wide, s, k)
    decreases k
  {
    hide Decode, Offset, Next;
    OffsetStep(wide, s, k - 1);
    if j < k - 1 { OffsetGrows(wide, s, j, k - 1); }
  }

  /** A character is told by its own bytes. */
  lemma NextOfPrefix(wide: bool, s: seq<byte>, n: nat)
    requires 0 < n <= |s| && Next(wide, s).1 <= n
    ensures Next(wide, s[..n]) == Next(wide, s)
  {
    hide Two, Three;
    var t := s[..n];
    assert t[0] == s[0] && (n > 1 ==> t[1] == s[1]) && (n > 2 ==> t[2] == s[2]);
    assert !IsTail(0);
  }

  /** The bytes before a boundary are the characters before it. */
  lemma {:induction false} PrefixDecodes(wide: bool, s: seq<byte>, k: nat)
    requires k <= |Decode(wide, s)|
    ensures Decode(wide, s[..Offset(wide, s, k)]) == Decode(wide, s)[..k]
    decreases k
  {
    hide Next;
    if k > 0 {
      var l, n := Next(wide, s).1, Offset(wide, s, k);
      NextOfPrefix(wide, s, n);
      PrefixDecodes(wide, s[l..], k - 1);
      assert s[..n][l..] == s[l..][..n - l];
    }
  }

  /** A terminator stands between two characters, whatever bytes are before it. */
  lemma {:induction false} TerminatorBoundary(wide: bool, b: seq<byte>, n: nat) returns (k: nat)
    requires n < |b| && b[n] == 0
    ensures k <= |Decode(wide, b)| && Offset(wide, b, k) == n && Boundary(wide, b, n)
    decreases n
  {
    hide Next;
    k := 0;
    if n > 0 {
      var l := Next(wide, b).1;
      AtTerminator(wide, b, 0, n);
      assert b[0..] == b;
      k := TerminatorBoundary(wide, b[l..], n - l);
      k := k + 1;
    }
  }

  /** `utf8_strlen` of the bytes before a boundary; a negative length asks for the first terminator. */
  method StrLen(wide: bool, buf: array<byte>, byteLen: int) returns (n: nat)
    requires byteLen >= 0 ==> Boundary(wide, buf[..], byteLen)
    requires byteLen < 0 ==> exists i :: 0 <= i < buf.Length && buf[i] == 0
    ensures byteLen >= 0 ==> byteLen <= buf.Length && n == |Decode(wide, buf[..byteLen])|
    ensures byteLen < 0 ==>
      forall i :: 0 <= i < buf.Length && buf[i] == 0 && (forall j :: 0 <= j < i ==> buf[j] != 0) ==> n == |Decode(wide, buf[..i])|
  {
    hide Decode;
    var bytes := byteLen;
    if bytes < 0 {
      bytes := CLength(buf);
      ghost var _ := TerminatorBoundary(wide, buf[..], bytes);
    }
    n := Count(wide, buf, bytes);
  }

  method Count(wide: bool, buf: array<byte>, byteLen: nat) returns (n: nat)
    requires Boundary(wide, buf[..], byteLen)
    ensures byteLen <= buf.Length && n == |Decode(wide, buf[..byteLen])|
  {
    hide Next, Decode, Offset;
    ghost var b := buf[..];
    ghost var end: nat :| end <= |Decode(wide, b)| && Offset(wide, b, end) == byteLen;
    PrefixDecodes(wide, b, end);
    assert b[..byteLen] == buf[..byteLen];
    if !wide {
      OneByteEach(b[..byteLen]);
      return byteLen;
    }
    n := 0;
    var at := 0;
    NoOffset(wide, b);
    while at < byteLen
      invariant n <= end && at == Offset(wide, b, n) <= byteLen
      decreases byteLen - at
    {
      OffsetStep(wide, b, n);
      var (_, l) := Next(wide, buf[at..]);
      assert b[at..] == buf[at..];
      if n + 1 < end { OffsetGrows(wide, b, n + 1, end); }
      n := n + 1;
      at := at + l;
    }
    if n < end { OffsetGrows(wide, b, n, end); }
  }

  lemma NoOffset(wide: bool, s: seq<byte>)
    ensures Offset(wide, s, 0) == 0
  {
  }

  lemma AtTerminator(wide: bool, b: seq<byte>, at: nat, end: nat)
    requires at < end < |b| && b[end] == 0
    ensures var s := b[at..end]; var l := Next(wide, b[at..]).1;
      && at + l <= end && Next(wide, b[at..]) == Next(wide, s) && s[l..] == b[at + l..end]
  {
    hide Next;
    assert b[at..] == b[at..end] + [0] + b[end + 1..];
    NextStops(wide, b[at..end], b[end + 1..]);
  }

  lemma {:induction false} OneByteEach(s: seq<byte>)
    ensures |Decode(false, s)| == |s|
    decreases |s|
  {
    if s != [] { OneByteEach(s[1..]); }
  }

  /** `utf8_index`: the bytes the first `index` characters take, whatever the bytes are. */
  method Index(wide: bool, buf: array<byte>, from: nat, index: nat) returns (k: nat)
    requires from <= buf.Length && index <= |Decode(wide, buf[from..])|
    ensures k == Offset(wide, buf[from..], index)
  {
    hide Next, Decode, Offset;
    ghost var s := buf[from..];
    NoOffset(wide, s);
    if !wide {
      OneByteOffset(s, index);
      return index;
    }
    k := 0;
    var left := index;
    while left > 0
      invariant 0 <= left <= index
      invariant k == Offset(wide, s, index - left)
    {
      OffsetStep(wide, s, index - left);
      var (_, l) := Next(wide, buf[from + k..]);
      assert s[k..] == buf[from + k..];
      k := k + l;
      left := left - 1;
    }
  }

  lemma {:induction false} OneByteOffset(s: seq<byte>, k: nat)
    requires k <= |Decode(false, s)|
    ensures Offset(false, s, k) == k
    decreases k
  {
    if k > 0 { OneByteOffset(s[1..], k - 1); }
  }

  /** In a buffer that goes on with an encoding, the offsets are those of its characters. */
  lemma {:induction false} OffsetOfText(wide: bool, s: seq<byte>, cs: seq<rune>, k: nat)
    requires (forall c :: c in cs ==> Fits(wide, c)) && Encode(wide, cs) <= s && k <= |cs|
    ensures k <= |Decode(wide, s)| && Offset(wide, s, k) == |Encode(wide, cs[..k])|
    decreases k
  {
    hide Enc, Next, Fits;
    if k > 0 {
      var l := |Enc(wide, cs[0])|;
      assert s == Enc(wide, cs[0]) + s[l..];
      NextOfEnc(wide, cs[0], s[l..]);
      assert Encode(wide, cs[1..]) == Encode(wide, cs)[l..] <= s[l..];
      OffsetOfText(wide, s[l..], cs[1..], k - 1);
      assert cs[..k][0] == cs[0] && cs[..k][1..] == cs[1..][..k - 1];
    }
  }

  lemma NoChars(wide: bool, cs: seq<rune>)
    ensures Encode(wide, cs[..0]) == []
  {
  }

  /** The encoding around the `i`th character. */
  lemma Around(wide: bool, cs: seq<rune>, i: nat)
    requires i < |cs|
    ensures Encode(wide, cs[..i + 1]) == Encode(wide, cs[..i]) + Enc(wide, cs[i])
    ensures Encode(wide, cs) == Encode(wide, cs[..i]) + Enc(wide, cs[i]) + Encode(wide, cs[i + 1..])
  {
    hide Enc;
    assert cs[..i + 1] == cs[..i] + [cs[i]] && [cs[i]][1..] == [];
    EncodeAppend(wide, cs[..i], [cs[i]]);
    assert cs == cs[..i + 1] + cs[i + 1..];
    EncodeAppend(wide, cs[..i + 1], cs[i + 1..]);
    assert Encode(wide, [cs[i]]) == Enc(wide, cs[i]) + Encode(wide, []);
  }
}
