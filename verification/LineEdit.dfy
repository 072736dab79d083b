/** The line being edited: a byte buffer, used through character positions. What an operation does
    to the characters is told on `Edit`; the methods do it on the bytes. */
module LineEdit {
  import opened Options
  import opened Utf8

  datatype Edit = Edit(text: seq<rune>, cursor: nat)

  function Inserted(e: Edit, p: nat, c: rune): Edit
    requires p <= |e.text|
  {
    Edit(e.text[..p] + [c] + e.text[p..], if e.cursor >= p then e.cursor + 1 else e.cursor)
  }

  function Removed(e: Edit, p: nat): Edit
    requires p < |e.text|
  {
    Edit(e.text[..p] + e.text[p + 1..], if e.cursor > p then e.cursor - 1 else e.cursor)
  }

  lemma RemoveUndoesInsert(e: Edit, p: nat, c: rune)
    requires p <= |e.text|
    ensures Removed(Inserted(e, p, c), p) == e
  {
    var t := Inserted(e, p, c).text;
    assert t[..p] == e.text[..p] && t[p + 1..] == e.text[p..];
    assert e.text[..p] + e.text[p..] == e.text;
  }

  /** The other way round the text comes back; the cursor too, unless it stood on the character. */
  lemma InsertUndoesRemove(e: Edit, p: nat)
    requires p < |e.text|
    ensures Inserted(Removed(e, p), p, e.text[p]).text == e.text
    ensures Inserted(Removed(e, p), p, e.text[p]) == e <==> e.cursor != p
  {
    var t := Removed(e, p).text;
    assert t[..p] == e.text[..p] && t[p..] == e.text[p + 1..];
    assert e.text[..p] + [e.text[p]] + e.text[p + 1..] == e.text;
  }

  /** What a build keeps of a character code. */
  function Stored(wide: bool, ch: bv32): (c: rune)
    ensures Fits(wide, c)
  {
    if wide then (ch & 0xffff) as bv16 else (ch & 0xff) as bv16
  }

  /** The bytes after an insertion: the terminator is not moved. */
  function InsertBytes(b: seq<byte>, len: nat, at: nat, e: seq<byte>): (r: seq<byte>)
    requires at <= len && len + |e| <= |b|
    ensures |r| == |b|
  {
    b[..at] + e + b[at..len] + b[len + |e|..]
  }

  /** The bytes after a removal: the byte after the text moves along. */
  function RemoveBytes(b: seq<byte>, len: nat, p1: nat, p2: nat): (r: seq<byte>)
    requires p1 <= p2 <= len < |b|
    ensures |r| == |b|
  {
    b[..p1] + b[p2..len + 1] + b[p1 + (len + 1 - p2)..]
  }

  function Moved(b: seq<byte>, dst: nat, src: nat, n: nat): seq<byte>
    requires dst + n <= |b| && src + n <= |b|
  {
    b[..dst] + b[src..src + n] + b[dst + n..]
  }

  function Copied(b: seq<byte>, dst: nat, s: seq<byte>): seq<byte>
    requires dst + |s| <= |b|
  {
    b[..dst] + s + b[dst + |s|..]
  }

  /** `memmove` */
  method Move(buf: array<byte>, dst: nat, src: nat, n: nat)
    requires dst + n <= buf.Length && src + n <= buf.Length
    modifies buf
    ensures buf[..] == Moved(old(buf[..]), dst, src, n)
  {
    forall i | 0 <= i < n {
      buf[dst + i] := buf[src + i];
    }
  }

  /** `memcpy` */
  method Copy(buf: array<byte>, dst: nat, s: seq<byte>)
    requires dst + |s| <= buf.Length
    modifies buf
    ensures buf[..] == Copied(old(buf[..]), dst, s)
  {
    forall i | 0 <= i < |s| {
      buf[dst + i] := s[i];
    }
  }

  lemma InsertedBytes(b: seq<byte>, len: nat, at: nat, e: seq<byte>)
    requires at <= len && len + |e| <= |b|
    ensures var b1 := Moved(b, at + |e|, at, len - at);
      |b1| == |b| && Copied(b1, at, e) == InsertBytes(b, len, at, e)
  {
    var b1 := Moved(b, at + |e|, at, len - at);
    var y, z := b[at..len], b[len + |e|..];
    assert b1 == b[..at + |e|] + y + z;
    assert b1[..at] == b[..at];
    assert b1[at + |e|..] == y + z;
    assert b[..at] + e + (y + z) == b[..at] + e + y + z;
  }

  /** The text of the bytes after an insertion. */
  lemma InsertedText(wide: bool, b: seq<byte>, len: nat, cs: seq<rune>, p: nat, c: rune)
    requires len <= |b| && b[..len] == Encode(wide, cs) && p <= |cs|
    requires len + |Enc(wide, c)| <= |b|
    ensures var at := |Encode(wide, cs[..p])|; var e := Enc(wide, c);
      && at <= len
      && InsertBytes(b, len, at, e)[..len + |e|] == Encode(wide, cs[..p] + [c] + cs[p..])
      && InsertBytes(b, len, at, e)[len + |e|..] == b[len + |e|..]
  {
    hide Enc, Encode, InsertBytes;
    var x, e, y := Encode(wide, cs[..p]), Enc(wide, c), Encode(wide, cs[p..]);
    assert cs == cs[..p] + cs[p..];
    EncodeAppend(wide, cs[..p], cs[p..]);
    EncodeInsert(wide, cs, p, c);
    InsertBetween(b, len, x, e, y);
  }

  lemma EncodeInsert(wide: bool, cs: seq<rune>, p: nat, c: rune)
    requires p <= |cs|
    ensures Encode(wide, cs[..p] + [c] + cs[p..]) == Encode(wide, cs[..p]) + Enc(wide, c) + Encode(wide, cs[p..])
  {
    hide Enc, Encode;
    var ds := cs[..p] + [c] + cs[p..];
    Around(wide, ds, p);
    assert ds[..p] == cs[..p] && ds[p + 1..] == cs[p..];
  }

  lemma InsertBetween(b: seq<byte>, len: nat, x: seq<byte>, e: seq<byte>, y: seq<byte>)
    requires len + |e| <= |b| && b[..len] == x + y
    ensures InsertBytes(b, len, |x|, e)[..len + |e|] == x + e + y
    ensures InsertBytes(b, len, |x|, e)[len + |e|..] == b[len + |e|..]
  {
    assert b[..|x|] == b[..len][..|x|] == x && b[|x|..len] == b[..len][|x|..] == y;
    assert InsertBytes(b, len, |x|, e) == (x + e + y) + b[len + |e|..];
  }

  /** The text of the bytes after a removal. */
  lemma RemovedText(wide: bool, b: seq<byte>, len: nat, cs: seq<rune>, p: nat)
    requires len < |b| && b[..len] == Encode(wide, cs) && p < |cs|
    ensures var p1 := |Encode(wide, cs[..p])|; var p2 := |Encode(wide, cs[..p + 1])|; var n := len - (p2 - p1);
      && p1 < p2 <= len
      && RemoveBytes(b, len, p1, p2)[..n] == Encode(wide, cs[..p] + cs[p + 1..])
      && RemoveBytes(b, len, p1, p2)[n] == b[len]
      && RemoveBytes(b, len, p1, p2)[n + 1..] == b[n + 1..]
  {
    hide Enc, Encode, RemoveBytes;
    Around(wide, cs, p);
    EncodeAppend(wide, cs[..p], cs[p + 1..]);
    RemoveBetween(b, len, Encode(wide, cs[..p]), Enc(wide, cs[p]), Encode(wide, cs[p + 1..]));
  }

  /** When the rest of the buffer was zero, it still is exactly if the character removed had one byte. */
  lemma ZerosKeptIff(wide: bool, b: seq<byte>, len: nat, cs: seq<rune>, p: nat)
    requires len < |b| && b[..len] == Encode(wide, cs) && p < |cs| && 0 !in b[..len] && ZeroFrom(b, len)
    ensures var p1 := |Encode(wide, cs[..p])|; var p2 := |Encode(wide, cs[..p + 1])|;
      p1 < p2 <= len && (ZeroFrom(RemoveBytes(b, len, p1, p2), len - (p2 - p1)) <==> |Enc(wide, cs[p])| == 1)
  {
    hide Encode, Enc, RemoveBytes;
    RemovedText(wide, b, len, cs, p);
    Around(wide, cs, p);
    var p1, p2 := |Encode(wide, cs[..p])|, |Encode(wide, cs[..p + 1])|;
    var n := len - (p2 - p1);
    var r := RemoveBytes(b, len, p1, p2);
    forall i | n < i < |b| ensures |r| == |b| && r[i] == b[i] { assert r[n + 1..][i - n - 1] == b[n + 1..][i - n - 1]; }
    assert b[..len][len - 1] != 0;
  }

  lemma RemoveBetween(b: seq<byte>, len: nat, x: seq<byte>, e: seq<byte>, y: seq<byte>)
    requires len < |b| && b[..len] == x + e + y
    ensures var r := RemoveBytes(b, len, |x|, |x| + |e|); var n := |x| + |y|;
      r[..n] == x + y && r[n] == b[len] && r[n + 1..] == b[n + 1..]
  {
    assert b[..|x|] == b[..len][..|x|] == x && b[|x| + |e|..len] == b[..len][|x| + |e|..] == y;
    assert b[|x| + |e|..len + 1] == y + [b[len]];
    assert RemoveBytes(b, len, |x|, |x| + |e|) == (x + y) + [b[len]] + b[|x| + |y| + 1..];
  }

  // ----- a buffer that holds a text

  lemma TextOffset(wide: bool, b: seq<byte>, len: nat, cs: seq<rune>, p: nat)
    requires len <= |b| && b[..len] == Encode(wide, cs) && (forall c :: c in cs ==> Fits(wide, c)) && p <= |cs|
    ensures |cs| <= |Decode(wide, b)| && Offset(wide, b, p) == |Encode(wide, cs[..p])| && Offset(wide, b, |cs|) == len
  {
    hide Encode, Decode, Offset, Fits;
    OffsetOfText(wide, b, cs, p);
    OffsetOfText(wide, b, cs, |cs|);
    assert cs[..|cs|] == cs;
  }

  lemma RemovedHolds(wide: bool, b: seq<byte>, len: nat, cs: seq<rune>, p: nat)
    requires len < |b| && b[..len] == Encode(wide, cs) && (forall c :: c in cs ==> Fits(wide, c)) && p < |cs|
    ensures p < |Decode(wide, b)|
    ensures var p1, p2 := Offset(wide, b, p), Offset(wide, b, p + 1); var n := len - |Enc(wide, cs[p])|;
      && p1 < p2 <= len && p2 - p1 == |Enc(wide, cs[p])|
      && var r := RemoveBytes(b, len, p1, p2); var ds := cs[..p] + cs[p + 1..];
      && r[..n] == Encode(wide, ds) && r[n] == b[len] && r[n + 1..] == b[n + 1..]
      && |ds| <= |Decode(wide, r)| && Offset(wide, r, |ds|) == n
      && (AllNarrow(wide, [cs[p]]) && ZeroFrom(b, len) ==> ZeroFrom(r, n))
  {
    hide Encode, Decode, Offset, Enc, Fits, RemoveBytes, ZeroFrom, AllNarrow;
    TextOffset(wide, b, len, cs, p);
    TextOffset(wide, b, len, cs, p + 1);
    RemovedText(wide, b, len, cs, p);
    Around(wide, cs, p);
    var r := RemoveBytes(b, len, Offset(wide, b, p), Offset(wide, b, p + 1));
    var n := len - |Enc(wide, cs[p])|;
    TextOffset(wide, r, n, cs[..p] + cs[p + 1..], 0);
    ZerosAfterRemove(wide, cs[p], b, r, n);
  }

  lemma InsertedTail(b: seq<byte>, len: nat, at: nat, e: seq<byte>)
    requires at <= len && len + |e| <= |b|
    ensures var r := InsertBytes(b, len, at, e); |r| == |b| && r[len + |e|..] == b[len + |e|..]
  {
  }

  lemma InsertedHolds(wide: bool, b: seq<byte>, len: nat, cs: seq<rune>, p: nat, c: rune)
    requires len <= |b| && b[..len] == Encode(wide, cs) && (forall c :: c in cs ==> Fits(wide, c)) && p <= |cs|
    requires Fits(wide, c) && len + |Enc(wide, c)| <= |b|
    ensures |cs| <= |Decode(wide, b)|
    ensures var at := Offset(wide, b, p); var n := len + |Enc(wide, c)|;
      && at <= len
      && var r := InsertBytes(b, len, at, Enc(wide, c)); var ds := cs[..p] + [c] + cs[p..];
      && n <= |r| && r[..n] == Encode(wide, ds) && |ds| <= |Decode(wide, r)| && Offset(wide, r, |ds|) == n
  {
    hide Encode, Decode, Offset, Enc, Fits, InsertBytes;
    TextOffset(wide, b, len, cs, p);
    InsertedText(wide, b, len, cs, p, c);
    var r, n := InsertBytes(b, len, Offset(wide, b, p), Enc(wide, c)), len + |Enc(wide, c)|;
    TextOffset(wide, r, n, cs[..p] + [c] + cs[p..], 0);
  }

  lemma CapturedText(wide: bool, b: seq<byte>, len: nat, cs: seq<rune>, p: nat, n: nat)
    requires len <= |b| && b[..len] == Encode(wide, cs) && (forall c :: c in cs ==> Fits(wide, c)) && p + n <= |cs|
    ensures |cs| <= |Decode(wide, b)|
    ensures var p1, p2 := Offset(wide, b, p), Offset(wide, b, p + n);
      p1 <= p2 <= len && b[p1..p2] == Encode(wide, cs[p..p + n])
  {
    hide Encode, Decode, Offset, Enc, Fits;
    TextOffset(wide, b, len, cs, p);
    TextOffset(wide, b, len, cs, p + n);
    var x, y, z := cs[..p], cs[p..p + n], cs[p + n..];
    assert cs == x + y + z && cs[..p + n] == x + y;
    EncodeAppend(wide, x + y, z);
    EncodeAppend(wide, x, y);
    var u, v := Encode(wide, x), Encode(wide, y);
    assert b[|u|..|u| + |v|] == b[..len][|u|..|u| + |v|] == v;
  }

  class Line {
    /** Whether this is the UTF-8 build. */
    const wide: bool
    const buf: array<byte>
    var len: nat
    var chars: nat
    var pos: nat
    var capture: seq<byte>

    /** A line on a buffer of `bufMax` bytes, whatever they are. */
    constructor (wide: bool, b: array<byte>)
      ensures this.wide == wide && buf == b && len == chars == pos == 0 && capture == []
    {
      this.wide, buf := wide, b;
      len, chars, pos, capture := 0, 0, 0, [];
    }

    /** The fields agree with the bytes, whatever these are, and the cursor is among the characters. */
    ghost predicate Counted()
      reads this, buf
    {
      && pos <= chars <= |Decode(wide, buf[..])|
      && len == Offset(wide, buf[..], chars) && len < buf.Length
    }

    /** The buffer holds these characters, and the cursor is among them. */
    ghost predicate Holds(e: Edit)
      reads this, buf
    {
      && Counted() && len < buf.Length && buf[..len] == Encode(wide, e.text) && (forall c :: c in e.text ==> Fits(wide, c))
      && chars == |e.text| && pos == e.cursor <= chars
    }

    /** The characters of the line. */
    ghost function Text(): seq<rune>
      requires len <= buf.Length
      reads this, buf
    {
      Decode(wide, buf[..len])
    }

    /** As a C string the buffer ends where the text ends. */
    ghost predicate Terminated()
      reads this, buf
    {
      len < buf.Length && buf[len] == 0
    }

    /** The rest of the buffer stays zero, if only characters of one byte were taken out. */
    ghost predicate KeepsZeros(len0: nat, b0: seq<byte>, lost: seq<rune>)
      reads this, buf
    {
      AllNarrow(wide, lost) && ZeroFrom(b0, len0) ==> ZeroFrom(buf[..], len)
    }

    predicate HasRoom(bytes: nat)
      reads this
    {
      len + bytes < buf.Length - 1
    }

    /** `set_current`: cuts a string that does not fit, in the middle of a character if need be. */
    method SetCurrent(str: seq<byte>)
      requires buf.Length > 0 && 0 !in str
      modifies this`len, this`chars, this`pos, buf
      ensures var kept := if |str| < buf.Length then str else str[..buf.Length - 1];
        && len == |kept| && buf[..len] == kept && ZeroFrom(buf[..], len)
        && pos == chars == |Decode(wide, kept)| && Counted()
    {
      hide Decode, Offset;
      forall i | 0 <= i < buf.Length {
        buf[i] := if i < |str| then str[i] else 0;
      }
      buf[buf.Length - 1] := 0;
      ghost var kept := if |str| < buf.Length then str else str[..buf.Length - 1];
      assert forall i :: 0 <= i < |kept| ==> buf[i] == str[i] && str[i] in str;
      assert buf[|kept|] == 0;
      len := CLength(buf);
      assert buf[..len] == kept;
      ghost var k := TerminatorBoundary(wide, buf[..], len);
      PrefixDecodes(wide, buf[..], k);
      assert buf[..][..len] == buf[..len];
      chars := StrLen(wide, buf, len);
      pos := chars;
    }

    /** `get_char` */
    method GetChar(p: int, ghost e: Edit) returns (c: Option<rune>)
      requires Counted()
      ensures 0 <= p < chars ==> p < |Decode(wide, buf[..len])| && c == Some(Decode(wide, buf[..len])[p])
      ensures p < 0 || chars <= p ==> c == None
      ensures Holds(e) ==> c == if 0 <= p < |e.text| then Some(e.text[p]) else None
    {
      hide Encode, Decode, Enc, Fits, Next, Offset;
      if 0 <= p < chars {
        ghost var b := buf[..];
        PrefixDecodes(wide, b, chars);
        assert b[..len] == buf[..len] && buf[0..] == b;
        if Holds(e) { DecodeEncode(wide, e.text); }
        var i := Index(wide, buf, 0, p);
        OffsetStep(wide, b, p);
        assert buf[i..] == b[i..];
        return Some(Next(wide, buf[i..]).0);
      }
      return None;
    }

    /** Close the gap between two places of the buffer. */
    method Cut(p1: nat, p2: nat)
      requires p1 <= p2 <= len < buf.Length
      modifies this`len, buf
      ensures buf[..] == RemoveBytes(old(buf[..]), old(len), p1, p2) && len == old(len) - (p2 - p1)
    {
      Move(buf, p1, p2, len - p2 + 1);
      len := len - (p2 - p1);
    }

    /** Close the gap of one character. */
    method CutChar(p: nat)
      requires Counted() && p < chars
      modifies this`len, buf
      ensures var p1, p2 := Offset(wide, old(buf[..]), p), Offset(wide, old(buf[..]), p + 1);
        && p1 < p2 <= old(len) && len == old(len) - (p2 - p1)
        && buf[..] == RemoveBytes(old(buf[..]), old(len), p1, p2)
    {
      hide Decode, Offset, RemoveBytes;
      ghost var b := buf[..];
      assert buf[0..] == b;
      var p1 := Index(wide, buf, 0, p);
      OffsetAfter(wide, b, p, 1);
      assert buf[p1..] == b[p1..];
      var width := Index(wide, buf, p1, 1);
      OffsetGrows(wide, b, p, p + 1);
      if p + 1 < chars { OffsetGrows(wide, b, p + 1, chars); }
      Cut(p1, p1 + width);
    }

    /** `remove_char` */
    method RemoveChar(p: int, ghost e: Edit) returns (removed: bool)
      requires Counted()
      modifies this`len, this`chars, this`pos, buf
      ensures removed <==> 0 <= p < old(chars)
      ensures !removed ==> len == old(len) && chars == old(chars) && pos == old(pos) && buf[..] == old(buf[..])
      ensures !removed ==> Counted() && (old(Holds(e)) ==> Holds(e))
      ensures removed ==> var p1, p2 := Offset(wide, old(buf[..]), p), Offset(wide, old(buf[..]), p + 1);
        && p1 < p2 <= old(len) && len == old(len) - (p2 - p1)
        && buf[..] == RemoveBytes(old(buf[..]), old(len), p1, p2)
        && chars == old(chars) - 1 && pos == old(pos) - if old(pos) > p then 1 else 0
      ensures removed && old(Holds(e)) ==>
        && Holds(Removed(e, p)) && len == old(len) - |Enc(wide, e.text[p])|
        && buf[len] == old(buf[len]) && buf[len + 1..] == old(buf[..])[len + 1..]
      ensures old(Holds(e)) ==> KeepsZeros(old(len), old(buf[..]), if removed then [e.text[p]] else [])
    {
      hide Encode, Decode, Offset, Enc, Fits, RemoveBytes, ZeroFrom, AllNarrow;
      if 0 <= p < chars {
        ghost var b := buf[..];
        if Holds(e) { RemovedHolds(wide, b, len, e.text, p); }
        CutChar(p);
        chars := chars - 1;
        if pos > p {
          pos := pos - 1;
        }
        return true;
      }
      return false;
    }

    /** Open a gap and fill it. */
    method Splice(at: nat, e: seq<byte>)
      requires at <= len && len + |e| <= buf.Length
      modifies this`len, buf
      ensures buf[..] == InsertBytes(old(buf[..]), old(len), at, e) && len == old(len) + |e|
    {
      hide InsertBytes, Moved, Copied;
      InsertedBytes(buf[..], len, at, e);
      Move(buf, at + |e|, at, len - at);
      Copy(buf, at, e);
      len := len + |e|;
    }

    /** Open a gap before the `p`th character and fill it. */
    method SpliceChar(p: nat, bytes: seq<byte>)
      requires Counted() && p <= chars && len + |bytes| <= buf.Length
      modifies this`len, buf
      ensures Offset(wide, old(buf[..]), p) <= old(len) && len == old(len) + |bytes|
      ensures buf[..] == InsertBytes(old(buf[..]), old(len), Offset(wide, old(buf[..]), p), bytes)
    {
      hide Decode, Offset, InsertBytes;
      ghost var b := buf[..];
      assert buf[0..] == b;
      var p1 := Index(wide, buf, 0, p);
      if p < chars { OffsetGrows(wide, b, p, chars); }
      Splice(p1, bytes);
    }

    /** `insert_char` */
    method InsertChar(p: int, ch: bv32, ghost e: Edit) returns (inserted: bool)
      requires Counted()
      modifies this`len, this`chars, this`pos, buf
      ensures var bytes := Enc(wide, Stored(wide, ch)); var n := |bytes|;
        && (inserted <==> 0 <= p <= old(chars) && old(len) + n < buf.Length - 1)
        && (inserted ==>
              && Offset(wide, old(buf[..]), p) <= old(len) && len == old(len) + n
              && buf[..] == InsertBytes(old(buf[..]), old(len), Offset(wide, old(buf[..]), p), bytes)
              && chars == old(chars) + 1 && pos == old(pos) + if old(pos) >= p then 1 else 0)
        && (inserted && old(Holds(e)) ==> Holds(Inserted(e, p, Stored(wide, ch))))
        && (inserted ==> buf[len..] == old(buf[..])[len..] && (Terminated() <==> old(buf[..])[old(len) + n] == 0))
      ensures KeepsZeros(old(len), old(buf[..]), [])
      ensures !inserted ==> len == old(len) && chars == old(chars) && pos == old(pos) && buf[..] == old(buf[..])
      ensures !inserted ==> Counted() && (old(Holds(e)) ==> Holds(e))
    {
      hide Encode, Decode, Offset, Enc, Fits, InsertBytes, Stored, ZeroFrom, AllNarrow;
      var bytes := Enc(wide, Stored(wide, ch));
      if HasRoom(|bytes|) && 0 <= p <= chars {
        ghost var b := buf[..];
        if Holds(e) { InsertedHolds(wide, b, len, e.text, p, Stored(wide, ch)); }
        SpliceChar(p, bytes);
        InsertedTail(b, old(len), Offset(wide, b, p), bytes);
        chars := chars + 1;
        if pos >= p {
          pos := pos + 1;
        }
        ZerosAfterInsert(b, buf[..], len - |bytes|, len);
        return true;
      }
      return false;
    }

    /** Where the `n` characters from the `p`th on are. */
    method Range(p: nat, n: nat) returns (p1: nat, bytes: nat)
      requires Counted() && p + n <= chars
      ensures p1 == Offset(wide, buf[..], p) && p1 + bytes == Offset(wide, buf[..], p + n) <= len
      ensures bytes > 0 <==> n > 0
    {
      hide Decode, Offset;
      ghost var b := buf[..];
      assert buf[0..] == b;
      p1 := Index(wide, buf, 0, p);
      OffsetAfter(wide, b, p, n);
      assert buf[p1..] == b[p1..];
      bytes := Index(wide, buf, p1, n);
      if n > 0 { OffsetGrows(wide, b, p, p + n); }
      if p + n < chars { OffsetGrows(wide, b, p + n, chars); }
    }

    /** `capture_chars`: all `n` characters or nothing. */
    method CaptureChars(p: int, n: nat, ghost e: Edit)
      requires Counted()
      modifies this`capture
      ensures 0 <= p && p + n <= chars && n > 0 ==>
        var p1, p2 := Offset(wide, buf[..], p), Offset(wide, buf[..], p + n);
        p1 < p2 <= len && capture == buf[p1..p2]
      ensures p < 0 || p + n > chars || n == 0 ==> capture == old(capture)
      ensures Counted() && (old(Holds(e)) ==> Holds(e))
      ensures Holds(e) ==>
        capture == if 0 <= p && p + n <= |e.text| && n > 0 then Encode(wide, e.text[p..p + n]) else old(capture)
    {
      hide Encode, Decode, Offset, Enc, Fits;
      if 0 <= p && p + n - 1 < chars {
        var p1, bytes := Range(p, n);
        if bytes > 0 {
          if Holds(e) {
            CapturedText(wide, buf[..], len, e.text, p, n);
            assert buf[..][p1..p1 + bytes] == buf[p1..p1 + bytes];
          }
          capture := buf[p1..p1 + bytes];
        }
      }
    }

    /** `remove_chars` */
    method RemoveChars(p: int, n: nat, ghost e: Edit) returns (removed: nat)
      requires Holds(e)
      modifies this`len, this`chars, this`pos, this`capture, buf
      ensures removed == if p < 0 || p > |e.text| then 0 else if p + n <= |e.text| then n else |e.text| - p
      ensures capture == if 0 <= p && p + n <= |e.text| && n > 0 then Encode(wide, e.text[p..p + n]) else old(capture)
      ensures Holds(if removed == 0 then e else RemovedRun(e, p, removed))
      ensures len == old(len) - if removed == 0 then 0 else |Encode(wide, e.text[p..p + removed])|
      ensures KeepsZeros(old(len), old(buf[..]), if removed == 0 then [] else e.text[p..p + removed])
    {
      hide Encode, Decode, Offset, Enc, Fits, RemovedRun, Removed, RemoveBytes, AllNarrow, ZeroFrom, Counted;
      CaptureChars(p, n, e);
      removed := 0;
      ghost var now, cut := e, capture;
      var left := n;
      while left > 0
        invariant 0 <= left <= n && removed == n - left && Holds(now) && capture == cut
        invariant removed > 0 ==> 0 <= p && p + removed <= |e.text|
        invariant now == if removed == 0 then e else RemovedRun(e, p, removed)
        invariant |now.text| == |e.text| - removed
        invariant len == old(len) - if removed == 0 then 0 else |Encode(wide, e.text[p..p + removed])|
        invariant KeepsZeros(old(len), old(buf[..]), if removed == 0 then [] else e.text[p..p + removed])
      {
        var done := RemoveChar(p, now);
        if !done { break; }
        RemovedStep(e, p, removed);
        assert now == RemovedRun(e, p, removed);
        RunLonger(wide, e, p, removed);
        NarrowRun(wide, e.text, p, removed);
        now := Removed(now, p);
        removed := removed + 1;
        left := left - 1;
      }
    }

    /** `insert_chars`: as many as there is room for. */
    method InsertChars(p: int, str: seq<byte>, ghost e: Edit) returns (inserted: nat)
      requires Holds(e) && 0 !in str
      modifies this`len, this`chars, this`pos, buf
      ensures var cs := Decode(wide, str);
        && inserted <= |cs|
        && (inserted > 0 ==> 0 <= p <= |e.text| && len < buf.Length - 1)
        && Holds(if inserted == 0 then e else InsertedRun(e, p, cs[..inserted]))
        && len == old(len) + |Encode(wide, cs[..inserted])|
        && (0 <= p <= |e.text| && inserted < |cs| ==> len + |Enc(wide, cs[inserted])| >= buf.Length - 1)
      ensures KeepsZeros(old(len), old(buf[..]), [])
    {
      hide Encode, Decode, Offset, Enc, Fits, InsertedRun, Inserted, InsertBytes, Stored, Next, Counted;
      ghost var cs := Decode(wide, str);
      ghost var now := e;
      inserted := 0;
      var at := 0;
      NoChars(wide, cs);
      assert str[0..] == str && cs[0..] == cs;
      while at < |str|
        invariant 0 <= at <= |str| && inserted <= |cs| && Decode(wide, str[at..]) == cs[inserted..]
        invariant inserted > 0 ==> 0 <= p <= |e.text| && len < buf.Length - 1
        invariant Holds(now) && now == if inserted == 0 then e else InsertedRun(e, p, cs[..inserted])
        invariant |now.text| == |e.text| + inserted
        invariant len == old(len) + |Encode(wide, cs[..inserted])|
        invariant KeepsZeros(old(len), old(buf[..]), [])
        decreases |str| - at
      {
        DecodeStep(wide, str, at, cs, inserted);
        var (ch, n) := Next(wide, str[at..]);
        StoredWhole(wide, ch);
        var done := InsertChar(p + inserted, ch as bv32, now);
        if !done { return; }
        Around(wide, cs, inserted);
        InsertedStep(e, p, cs, inserted);
        assert now == InsertedRun(e, p, cs[..inserted]);
        now := Inserted(now, p + inserted, ch);
        inserted := inserted + 1;
        at := at + n;
      }
      NothingLeft(wide, str[at..]);
    }
  }

  predicate AllNarrow(wide: bool, cs: seq<rune>) { forall c :: c in cs ==> |Enc(wide, c)| == 1 }

  lemma NarrowRun(wide: bool, cs: seq<rune>, p: int, k: nat)
    requires 0 <= p && p + k < |cs|
    ensures AllNarrow(wide, cs[p..p + k + 1]) ==> AllNarrow(wide, cs[p..p + k]) && AllNarrow(wide, [cs[p + k]])
    ensures AllNarrow(wide, [])
  {
    assert cs[p..p + k + 1] == cs[p..p + k] + [cs[p + k]];
  }

  /** In the one-byte build every character is narrow. */
  lemma NarrowBuild(cs: seq<rune>)
    ensures AllNarrow(false, cs)
  {
  }

  predicate ZeroFrom(b: seq<byte>, n: nat) {
    forall i :: n <= i < |b| ==> b[i] == 0
  }

  lemma ZerosAfterRemove(wide: bool, c: rune, b: seq<byte>, b1: seq<byte>, n: nat)
    requires |b| == |b1| && n + |Enc(wide, c)| < |b|
    requires b1[n] == b[n + |Enc(wide, c)|] && b1[n + 1..] == b[n + 1..]
    ensures AllNarrow(wide, [c]) && ZeroFrom(b, n + |Enc(wide, c)|) ==> ZeroFrom(b1, n)
  {
    hide FromUnicode;
    forall i | n < i < |b| ensures b1[i] == b[i] {
      assert b1[n + 1..][i - n - 1] == b[n + 1..][i - n - 1];
    }
  }

  lemma ZerosAfterInsert(b: seq<byte>, b1: seq<byte>, n: nat, n1: nat)
    requires n <= n1 <= |b| == |b1| && b1[n1..] == b[n1..]
    ensures ZeroFrom(b, n) ==> ZeroFrom(b1, n1)
    ensures n1 < |b| ==> b1[n1] == b[n1]
  {
    forall i | n1 <= i < |b| ensures b1[i] == b[i] {
      assert b1[n1..][i - n1] == b[n1..][i - n1];
    }
  }

  lemma RunLonger(wide: bool, e: Edit, p: int, k: nat)
    requires 0 <= p && p + k < |e.text|
    ensures |Encode(wide, e.text[p..p + k + 1])| == |Encode(wide, e.text[p..p + k])| + |Enc(wide, e.text[p + k])|
    ensures k == 0 ==> |Encode(wide, e.text[p..p + k])| == 0
    ensures RemovedRun(e, p, k).text[p] == e.text[p + k]
  {
    hide Enc;
    var run := e.text[p..p + k + 1];
    Around(wide, run, k);
    assert run[..k] == e.text[p..p + k] && run[..k + 1] == run;
  }

  lemma NothingLeft(wide: bool, s: seq<byte>)
    requires s == []
    ensures Decode(wide, s) == []
  {
  }

  lemma DecodeStep(wide: bool, str: seq<byte>, at: nat, cs: seq<rune>, i: nat)
    requires at < |str| && i <= |cs| && Decode(wide, str[at..]) == cs[i..]
    ensures i < |cs|
    ensures var (ch, n) := Next(wide, str[at..]);
      ch == cs[i] && Fits(wide, ch) && at + n <= |str| && Decode(wide, str[at + n..]) == cs[i + 1..]
  {
    hide ToUnicode;
    var (ch, n) := Next(wide, str[at..]);
    assert str[at..][n..] == str[at + n..];
    assert cs[i..][1..] == cs[i + 1..];
  }

  lemma StoredWhole(wide: bool, c: rune)
    requires Fits(wide, c)
    ensures Stored(wide, c as bv32) == c
  {
  }

  // ----- several characters at once

  function RemovedRun(e: Edit, p: nat, k: nat): Edit
    requires p + k <= |e.text|
  {
    Edit(e.text[..p] + e.text[p + k..],
         if e.cursor <= p then e.cursor else if e.cursor < p + k then p else e.cursor - k)
  }

  lemma RemovedStep(e: Edit, p: int, k: nat)
    requires 0 <= p && p + k < |e.text|
    ensures RemovedRun(e, p, 0) == e
    ensures p < |RemovedRun(e, p, k).text| == |e.text| - k
    ensures Removed(RemovedRun(e, p, k), p) == RemovedRun(e, p, k + 1)
    ensures |RemovedRun(e, p, k + 1).text| == |e.text| - k - 1
  {
    assert e.text[..p] + e.text[p..] == e.text;
    var t := RemovedRun(e, p, k).text;
    assert t[..p] == e.text[..p] && t[p + 1..] == e.text[p + k + 1..];
  }

  function InsertedRun(e: Edit, p: nat, cs: seq<rune>): Edit
    requires p <= |e.text|
  {
    Edit(e.text[..p] + cs + e.text[p..], if e.cursor >= p then e.cursor + |cs| else e.cursor)
  }

  lemma InsertedStep(e: Edit, p: nat, cs: seq<rune>, k: nat)
    requires p <= |e.text| && k < |cs|
    ensures InsertedRun(e, p, cs[..0]) == e
    ensures p + k <= |InsertedRun(e, p, cs[..k]).text| == |e.text| + k
    ensures Inserted(InsertedRun(e, p, cs[..k]), p + k, cs[k]) == InsertedRun(e, p, cs[..k + 1])
    ensures |InsertedRun(e, p, cs[..k + 1]).text| == |e.text| + k + 1
  {
    assert e.text[..p] + [] + e.text[p..] == e.text;
    var t := InsertedRun(e, p, cs[..k]).text;
    assert t[..p + k] == e.text[..p] + cs[..k] && t[p + k..] == e.text[p..];
    assert cs[..k] + [cs[k]] == cs[..k + 1];
    assert e.text[..p] + (cs[..k] + [cs[k]]) == e.text[..p] + cs[..k] + [cs[k]];
  }

}
