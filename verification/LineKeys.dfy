/** The keys of the line editor, and whole editing sessions. */
module LineKeys {
  import opened Options
  import opened Utf8
  import opened LineEdit

  /** What is on the line, and what was cut last. */
  datatype Screen = Screen(edit: Edit, cut: seq<rune>)

  /** `Quoted` is Ctrl-V and what follows: as a character, and as the key it is on its own, for without
      room for three more bytes Ctrl-V does nothing. */
  datatype Key =
    | Char(c: bv32) | Quoted(c: bv32, plain: Key)
    | Backspace | Delete | Left | Right | Home | EndKey
    | KillLeft | KillRight | KillWord | Yank | Transpose

  const SPACE: rune := 32
  /** Ctrl-V itself. */
  const QUOTE: bv32 := 22

  function Size(wide: bool, cs: seq<rune>): nat { |Encode(wide, cs)| }

  /** How many of the characters there is room for. */
  function Room(wide: bool, max: nat, size: nat, cs: seq<rune>): (k: nat)
    ensures k <= |cs|
    decreases |cs|
  {
    if cs == [] || size + |Enc(wide, cs[0])| >= max - 1 then 0
    else 1 + Room(wide, max, size + |Enc(wide, cs[0])|, cs[1..])
  }

  /** Back over blanks. */
  function BlanksLeft(t: seq<rune>, p: nat): (q: nat)
    requires p <= |t|
    ensures q <= p
  {
    if p > 0 && t[p - 1] == SPACE then BlanksLeft(t, p - 1) else p
  }

  /** Back over anything but blanks. */
  function WordLeft(t: seq<rune>, p: nat): (q: nat)
    requires p <= |t|
    ensures q <= p
  {
    if p > 0 && t[p - 1] != SPACE then WordLeft(t, p - 1) else p
  }

  /** Where the word before the cursor begins. */
  function WordStart(t: seq<rune>, p: nat): (q: nat)
    requires p <= |t|
    ensures q <= p && (p > 0 ==> q < p)
  {
    WordLeft(t, BlanksLeft(t, p))
  }

  /** The place is a word and the blanks behind it, with the beginning of the line or a blank before it. */
  predicate LastWord(t: seq<rune>, q: nat, m: nat, p: nat) {
    && q <= m <= p <= |t|
    && (forall i :: q <= i < m ==> t[i] != SPACE) && (forall i :: m <= i < p ==> t[i] == SPACE)
    && (q > 0 ==> t[q - 1] == SPACE) && (m > 0 ==> q < m)
  }

  /** The word cut by Ctrl-W is the only such place. */
  lemma WordStartIff(t: seq<rune>, p: nat, q: nat)
    requires p <= |t|
    ensures q == WordStart(t, p) <==> exists m :: LastWord(t, q, m, p)
  {
    var m0 := BlanksLeft(t, p);
    BlanksFound(t, p);
    WordFound(t, m0);
    assert LastWord(t, WordStart(t, p), m0, p);
    forall m | LastWord(t, q, m, p) ensures q == WordStart(t, p) { OneWord(t, p, q, m); }
  }

  lemma {:induction false} BlanksFound(t: seq<rune>, p: nat)
    requires p <= |t|
    ensures var m := BlanksLeft(t, p); (forall i :: m <= i < p ==> t[i] == SPACE) && (m > 0 ==> t[m - 1] != SPACE)
  {
    if p > 0 && t[p - 1] == SPACE { BlanksFound(t, p - 1); }
  }

  lemma {:induction false} WordFound(t: seq<rune>, p: nat)
    requires p <= |t|
    ensures var q := WordLeft(t, p); (forall i :: q <= i < p ==> t[i] != SPACE) && (q > 0 ==> t[q - 1] == SPACE)
  {
    if p > 0 && t[p - 1] != SPACE { WordFound(t, p - 1); }
  }

  lemma OneWord(t: seq<rune>, p: nat, q: nat, m: nat)
    requires p <= |t| && LastWord(t, q, m, p)
    ensures q == WordStart(t, p)
  {
    var m0 := BlanksLeft(t, p);
    BlanksFound(t, p);
    assert m > 0 ==> t[m - 1] != SPACE;
    assert m == m0;
    WordFound(t, m);
  }

  predicate Sane(s: Screen) { s.edit.cursor <= |s.edit.text| }

  /** The characters from `p` to `q` are cut, the cursor being at one of the two. */
  function Killed(s: Screen, p: nat, q: nat): (s1: Screen)
    requires p <= q <= |s.edit.text| && Sane(s)
    ensures Sane(s1)
  {
    var e := s.edit;
    if p == q then s else Screen(Edit(e.text[..p] + e.text[q..], p), e.text[p..q])
  }

  function Yanked(wide: bool, max: nat, s: Screen): (s1: Screen)
    requires Sane(s)
    ensures Sane(s1)
  {
    var k := Room(wide, max, Size(wide, s.edit.text), s.cut);
    s.(edit := InsertedRun(s.edit, s.edit.cursor, s.cut[..k]))
  }

  function Typed(wide: bool, max: nat, s: Screen, c: rune): (s1: Screen)
    requires Sane(s)
    ensures Sane(s1)
  {
    var e := s.edit;
    if Size(wide, e.text) + |Enc(wide, c)| < max - 1 then s.(edit := Inserted(e, e.cursor, c)) else s
  }

  function Erased(s: Screen, p: int): (s1: Screen)
    requires Sane(s)
    ensures Sane(s1)
  {
    if 0 <= p < |s.edit.text| then s.(edit := Removed(s.edit, p)) else s
  }

  /** Where the character stands that Ctrl-T moves. */
  function Moving(e: Edit): int { if e.cursor == |e.text| then e.cursor - 1 else e.cursor }

  function Transposed(wide: bool, max: nat, s: Screen): (s1: Screen)
    requires Sane(s)
    ensures Sane(s1)
  {
    var e := s.edit;
    if e.cursor == 0 then s
    else if |e.text| > 1 && Size(wide, e.text) < max - 1 then s.(edit := Swapped(e))
    else Erased(s, Moving(e))
  }

  function Press(wide: bool, max: nat, s: Screen, key: Key): (s1: Screen)
    requires Sane(s)
    ensures Sane(s1)
    decreases key
  {
    var e := s.edit;
    var n := |e.text|;
    match key
    case Char(c) => Typed(wide, max, s, Stored(wide, c))
    case Quoted(c, plain) =>
      if Size(wide, e.text) + 3 < max - 1 then Typed(wide, max, s, Stored(wide, c)) else Press(wide, max, s, plain)
    case Backspace => Erased(s, e.cursor - 1)
    case Delete => Erased(s, e.cursor)
    case Left => if e.cursor > 0 then s.(edit := e.(cursor := e.cursor - 1)) else s
    case Right => if e.cursor < n then s.(edit := e.(cursor := e.cursor + 1)) else s
    case Home => s.(edit := e.(cursor := 0))
    case EndKey => s.(edit := e.(cursor := n))
    case KillLeft => Killed(s, 0, e.cursor)
    case KillRight => Killed(s, e.cursor, n)
    case KillWord => Killed(s, WordStart(e.text, e.cursor), e.cursor)
    case Yank => Yanked(wide, max, s)
    case Transpose => Transposed(wide, max, s)
  }

  /** No key types a zero. */
  predicate Typable(wide: bool, key: Key) {
    match key
    case Char(c) => Stored(wide, c) != 0
    case Quoted(c, plain) => Stored(wide, c) != 0 && Typable(wide, plain)
    case _ => true
  }

  /** The characters a key takes out of the text. */
  function Lost(wide: bool, max: nat, s: Screen, key: Key): seq<rune>
    requires Sane(s)
    decreases key
  {
    var e := s.edit;
    match key
    case Quoted(_, plain) => if Size(wide, e.text) + 3 < max - 1 then [] else Lost(wide, max, s, plain)
    case Backspace => if e.cursor > 0 then [e.text[e.cursor - 1]] else []
    case Delete => if e.cursor < |e.text| then [e.text[e.cursor]] else []
    case KillLeft => e.text[0..e.cursor]
    case KillRight => e.text[e.cursor..|e.text|]
    case KillWord => e.text[WordStart(e.text, e.cursor)..e.cursor]
    case Transpose => if e.cursor > 0 then [e.text[Moving(e)]] else []
    case _ => []
  }

  /** No key takes out a character of more than one byte. */
  predicate LosesNarrow(wide: bool, max: nat, s: Screen, keys: seq<Key>)
    requires Sane(s)
    decreases |keys|
  {
    keys == [] ||
    (AllNarrow(wide, Lost(wide, max, s, keys[0])) && LosesNarrow(wide, max, Press(wide, max, s, keys[0]), keys[1..]))
  }

  lemma {:induction false} NarrowSession(max: nat, s: Screen, keys: seq<Key>)
    requires Sane(s)
    ensures LosesNarrow(false, max, s, keys)
    decreases |keys|
  {
    hide AllNarrow, Lost, Press;
    if keys != [] {
      NarrowBuild(Lost(false, max, s, keys[0]));
      NarrowSession(max, Press(false, max, s, keys[0]), keys[1..]);
    }
  }

  function PressAll(wide: bool, max: nat, s: Screen, keys: seq<Key>): (s1: Screen)
    requires Sane(s)
    ensures Sane(s1)
    decreases |keys|
  {
    if keys == [] then s else PressAll(wide, max, Press(wide, max, s, keys[0]), keys[1..])
  }

  /** The characters before and under the cursor change places; at the end of the line, the last two. */
  function Swapped(e: Edit): Edit
    requires 0 < e.cursor <= |e.text| && |e.text| > 1
  {
    var i := if e.cursor == |e.text| then e.cursor - 1 else e.cursor;
    Edit(e.text[i - 1 := e.text[i]][i := e.text[i - 1]], i + 1)
  }

  lemma SwappedInSteps(e: Edit)
    requires 0 < e.cursor <= |e.text| && |e.text| > 1
    ensures var i := if e.cursor == |e.text| then e.cursor - 1 else e.cursor; var r := Removed(e, i);
      r.cursor > 0 && Inserted(r, r.cursor - 1, e.text[i]) == Swapped(e)
  {
    var i := if e.cursor == |e.text| then e.cursor - 1 else e.cursor;
    var r := Removed(e, i);
    var t := Inserted(r, i - 1, e.text[i]).text;
    assert r.text[..i - 1] == e.text[..i - 1] && r.text[i - 1..] == [e.text[i - 1]] + e.text[i + 1..];
    assert t == Swapped(e).text;
  }

  // ----- what each key does, told on text, cursor and cut bytes alone

  /** What there is to see: the characters, the cursor and the bytes cut last. */
  datatype Seen = Seen(text: seq<rune>, pos: nat, cut: seq<byte>)

  /** From `a` the key leads to `b`. */
  ghost predicate Did(wide: bool, max: nat, key: Key, a: Seen, b: Seen)
    decreases key
  {
    var t0, p0, t, p := a.text, a.pos, b.text, b.pos;
    p0 <= |t0| && p <= |t| &&
    match key
    case Char(ch) => b.cut == a.cut && DidType(wide, max, Stored(wide, ch), t0, p0, t, p)
    case Quoted(ch, plain) =>
      if Size(wide, t0) + 3 < max - 1 then b == Seen(t0[..p0] + [Stored(wide, ch)] + t0[p0..], p0 + 1, a.cut)
      else Did(wide, max, plain, a, b)
    case Backspace => b == if p0 == 0 then a else Seen(t0[..p0 - 1] + t0[p0..], p0 - 1, a.cut)
    case Delete => b == if p0 == |t0| then a else Seen(t0[..p0] + t0[p0 + 1..], p0, a.cut)
    case Left => b == Seen(t0, if p0 == 0 then 0 else p0 - 1, a.cut)
    case Right => b == Seen(t0, if p0 == |t0| then |t0| else p0 + 1, a.cut)
    case Home => b == Seen(t0, 0, a.cut)
    case EndKey => b == Seen(t0, |t0|, a.cut)
    case KillLeft => b == Seen(t0[p0..], 0, if p0 == 0 then a.cut else Encode(wide, t0[..p0]))
    case KillRight => b == Seen(t0[..p0], p0, if p0 == |t0| then a.cut else Encode(wide, t0[p0..]))
    case KillWord =>
      exists q: nat, m: nat :: LastWord(t0, q, m, p0)
        && b == Seen(t0[..q] + t0[p0..], q, if q == p0 then a.cut else Encode(wide, t0[q..p0]))
    case Yank => b.cut == a.cut && DidPaste(wide, max, Decode(wide, a.cut), t0, p0, t, p)
    case Transpose => b.cut == a.cut && DidTranspose(wide, max, t0, p0, t, p)
  }

  /** From `a` the keys lead to `b`, one after the other. */
  ghost predicate Ran(wide: bool, max: nat, keys: seq<Key>, a: Seen, b: Seen)
    decreases |keys|
  {
    if keys == [] then a == b
    else
      var n := |keys| - 1;
      exists m :: Ran(wide, max, keys[..n], a, m) && Did(wide, max, keys[n], m, b)
  }

  predicate DidType(wide: bool, max: nat, ch: rune, t0: seq<rune>, p0: nat, t: seq<rune>, p: nat)
    requires p0 <= |t0|
  {
    if Size(wide, t0) + |Enc(wide, ch)| < max - 1 then t == t0[..p0] + [ch] + t0[p0..] && p == p0 + 1
    else t == t0 && p == p0
  }

  /** As many of the cut characters as fit go in at the cursor. */
  ghost predicate DidPaste(wide: bool, max: nat, cut: seq<rune>, t0: seq<rune>, p0: nat, t: seq<rune>, p: nat)
    requires p0 <= |t0|
  {
    exists k: nat :: k <= |cut| && t == t0[..p0] + cut[..k] + t0[p0..] && p == p0 + k
      && (k > 0 ==> Size(wide, t0) + Size(wide, cut[..k]) < max - 1)
      && (k < |cut| ==> Size(wide, t0) + Size(wide, cut[..k + 1]) >= max - 1)
  }

  /** The characters around the cursor change places, at the end of the line the last two; alone on the
      line, or on a full one, the character is lost. */
  predicate DidTranspose(wide: bool, max: nat, t0: seq<rune>, p0: nat, t: seq<rune>, p: nat)
    requires p0 <= |t0|
  {
    if p0 == 0 then t == t0 && p == 0
    else
      var i := if p0 == |t0| then p0 - 1 else p0;
      if |t0| > 1 && Size(wide, t0) < max - 1 then
        && p == i + 1 && |t| == |t0| && t[i - 1] == t0[i] && t[i] == t0[i - 1]
        && forall j :: 0 <= j < |t| && j != i - 1 && j != i ==> t[j] == t0[j]
      else t == t0[..i] + t0[i + 1..] && p == i
  }

  function SeenOf(wide: bool, s: Screen): Seen { Seen(s.edit.text, s.edit.cursor, Encode(wide, s.cut)) }

  lemma {:induction false} PressDid(wide: bool, max: nat, s: Screen, key: Key)
    requires Sane(s) && forall c :: c in s.cut ==> Fits(wide, c)
    ensures var s1 := Press(wide, max, s, key);
      Did(wide, max, key, SeenOf(wide, s), SeenOf(wide, s1))
    decreases key
  {
    hide Encode, Decode, Enc, Fits, Stored, Size, WordStart, Killed, Yanked, Transposed, DidPaste, DidTranspose;
    var e := s.edit;
    match key
    case Quoted(c, plain) =>
      QuotedFits(wide, max, e.text, Stored(wide, c));
      if Size(wide, e.text) + 3 >= max - 1 { PressDid(wide, max, s, plain); }
    case KillLeft =>
      KilledIs(s, 0, e.cursor);
      assert e.text[..0] + e.text[e.cursor..] == e.text[e.cursor..] && e.text[0..e.cursor] == e.text[..e.cursor];
    case KillRight =>
      var n := |e.text|;
      KilledIs(s, e.cursor, n);
      assert e.text[..e.cursor] + e.text[n..] == e.text[..e.cursor] && e.text[e.cursor..n] == e.text[e.cursor..];
    case KillWord =>
      var q := WordStart(e.text, e.cursor);
      KilledIs(s, q, e.cursor);
      WordStartIff(e.text, e.cursor, q);
    case Yank =>
      DecodeEncode(wide, s.cut);
      PasteDid(wide, max, s);
    case Transpose => TransposeDid(wide, max, s);
    case _ =>
  }

  lemma QuotedFits(wide: bool, max: nat, t: seq<rune>, c: rune)
    ensures Size(wide, t) + 3 < max - 1 ==> Size(wide, t) + |Enc(wide, c)| < max - 1
  {
    hide Encode;
  }

  lemma KilledIs(s: Screen, p: nat, q: nat)
    requires p <= q <= |s.edit.text| && (s.edit.cursor == p || s.edit.cursor == q)
    ensures var t := s.edit.text; var s1 := Killed(s, p, q);
      s1.edit == Edit(t[..p] + t[q..], p) && s1.cut == if p == q then s.cut else t[p..q]
  {
    var t := s.edit.text;
    assert p == q ==> t[..p] + t[q..] == t;
  }

  lemma PasteDid(wide: bool, max: nat, s: Screen)
    requires Sane(s)
    ensures var s1 := Yanked(wide, max, s);
      s1.cut == s.cut && DidPaste(wide, max, s.cut, s.edit.text, s.edit.cursor, s1.edit.text, s1.edit.cursor)
  {
    hide Encode, Enc, Room;
    RoomFits(wide, max, Size(wide, s.edit.text), s.cut);
  }

  lemma {:induction false} RoomFits(wide: bool, max: nat, size: nat, cs: seq<rune>)
    ensures var k := Room(wide, max, size, cs);
      && (k > 0 ==> size + Size(wide, cs[..k]) < max - 1)
      && (k < |cs| ==> size + Size(wide, cs[..k + 1]) >= max - 1)
    decreases |cs|
  {
    hide Enc, Encode;
    var k := Room(wide, max, size, cs);
    if cs != [] {
      NoChars(wide, cs[1..]);
      FirstSize(wide, cs, if k == 0 then 1 else k);
      if k < |cs| { FirstSize(wide, cs, k + 1); }
      if k > 0 { RoomFits(wide, max, size + |Enc(wide, cs[0])|, cs[1..]); }
    }
  }

  lemma FirstSize(wide: bool, cs: seq<rune>, k: nat)
    requires 0 < k <= |cs|
    ensures Size(wide, cs[..k]) == |Enc(wide, cs[0])| + Size(wide, cs[1..][..k - 1])
  {
    hide Enc;
    assert cs[..k][0] == cs[0] && cs[..k][1..] == cs[1..][..k - 1];
  }

  lemma TransposeDid(wide: bool, max: nat, s: Screen)
    requires Sane(s)
    ensures var s1 := Transposed(wide, max, s);
      DidTranspose(wide, max, s.edit.text, s.edit.cursor, s1.edit.text, s1.edit.cursor) && s1.cut == s.cut
  {
    hide Encode;
  }

  // ----- the keys on the buffer

  ghost predicate Shows(line: Line, s: Screen)
    reads line, line.buf
  {
    && line.Holds(s.edit) && 0 !in s.edit.text
    && line.capture == Encode(line.wide, s.cut) && 0 !in s.cut && (forall c :: c in s.cut ==> Fits(line.wide, c))
  }

  lemma {:induction false} EncodeNoZero(wide: bool, cs: seq<rune>)
    requires 0 !in cs && forall c :: c in cs ==> Fits(wide, c)
    ensures 0 !in Encode(wide, cs)
  {
    if cs != [] {
      if wide { FirstByteTells(cs[0]); } else { assert Fits(wide, cs[0]) && cs[0] != 0; }
      EncodeNoZero(wide, cs[1..]);
    }
  }

  /** Taking as many characters as there is room for, told by where it stops. */
  lemma {:induction false} RoomStops(wide: bool, max: nat, size: nat, cs: seq<rune>, k: nat)
    requires k <= |cs|
    requires k > 0 ==> size + Size(wide, cs[..k]) < max - 1
    requires k < |cs| ==> size + Size(wide, cs[..k]) + |Enc(wide, cs[k])| >= max - 1
    ensures Room(wide, max, size, cs) == k
    decreases k
  {
    hide Enc;
    if k == 0 {
      NoChars(wide, cs);
    } else {
      assert cs[..k][0] == cs[0] && cs[..k][1..] == cs[1..][..k - 1];
      RoomStops(wide, max, size + |Enc(wide, cs[0])|, cs[1..], k - 1);
    }
  }

  method Type(line: Line, c: bv32, ghost s: Screen)
    requires Shows(line, s) && Stored(line.wide, c) != 0
    modifies line, line.buf
    ensures Shows(line, Press(line.wide, line.buf.Length, s, Char(c)))
    ensures line.KeepsZeros(old(line.len), old(line.buf[..]), [])
  {
    hide Encode, Enc, Fits, Stored, Decode, Offset, InsertBytes, RemoveBytes, Line.Counted;
    var done := line.InsertChar(line.pos, c, s.edit);
  }

  /** Ctrl-V with room: insert it, take it out again, and insert the next character whatever it is. */
  method TypeQuoted(line: Line, c: bv32, ghost s: Screen)
    requires Shows(line, s) && Stored(line.wide, c) != 0 && line.HasRoom(3)
    modifies line, line.buf
    ensures Shows(line, Typed(line.wide, line.buf.Length, s, Stored(line.wide, c)))
    ensures line.KeepsZeros(old(line.len), old(line.buf[..]), [])
  {
    hide Encode, Enc, Fits, Inserted, Removed, Stored, ZeroFrom, Decode, Offset, InsertBytes, RemoveBytes, Line.Counted;
    ghost var e := s.edit;
    NarrowQuote(line.wide);
    var done := line.InsertChar(line.pos, QUOTE, e);
    if done {
      ghost var e1 := Inserted(e, e.cursor, Stored(line.wide, QUOTE));
      QuoteGone(e, Stored(line.wide, QUOTE), Stored(line.wide, c));
      var removed := line.RemoveChar(line.pos - 1, e1);
      var inserted := line.InsertChar(line.pos, c, e);
    }
  }

  lemma NarrowQuote(wide: bool)
    ensures AllNarrow(wide, [Stored(wide, QUOTE)]) && AllNarrow(wide, [])
  {
  }

  lemma QuoteGone(e: Edit, quote: rune, c: rune)
    requires e.cursor <= |e.text|
    ensures var e1 := Inserted(e, e.cursor, quote);
      e1.cursor == e.cursor + 1 <= |e1.text| && Removed(e1, e.cursor) == e && e1.text[e.cursor] == quote
    ensures c != 0 && 0 !in e.text ==> 0 !in Inserted(e, e.cursor, c).text
  {
    RemoveUndoesInsert(e, e.cursor, quote);
  }

  method EraseAt(line: Line, p: int, ghost s: Screen)
    requires Shows(line, s)
    modifies line, line.buf
    ensures Shows(line, Erased(s, p))
    ensures line.KeepsZeros(old(line.len), old(line.buf[..]), if 0 <= p < |s.edit.text| then [s.edit.text[p]] else [])
  {
    hide Encode, Decode, Offset, Enc, Fits, AllNarrow, ZeroFrom, InsertBytes, RemoveBytes, Line.Counted;
    var done := line.RemoveChar(p, s.edit);
  }

  /** Backspace and Ctrl-D */
  method Erase(line: Line, key: Key, ghost s: Screen)
    requires Shows(line, s) && (key == Backspace || key == Delete)
    modifies line, line.buf
    ensures Shows(line, Press(line.wide, line.buf.Length, s, key))
    ensures line.KeepsZeros(old(line.len), old(line.buf[..]), Lost(line.wide, line.buf.Length, s, key))
  {
    hide Encode, Fits, AllNarrow, ZeroFrom, Erased, Line.Counted;
    EraseAt(line, if key == Backspace then line.pos - 1 else line.pos, s);
  }

  method MoveCursor(line: Line, key: Key, ghost s: Screen)
    requires Shows(line, s) && (key == Left || key == Right || key == Home || key == EndKey)
    modifies line
    ensures Shows(line, Press(line.wide, line.buf.Length, s, key))
    ensures line.KeepsZeros(old(line.len), old(line.buf[..]), [])
  {
    hide Encode, Enc, Fits, Decode, Offset, InsertBytes, RemoveBytes;
    match key {
      case Left => if line.pos > 0 { line.pos := line.pos - 1; }
      case Right => if line.pos < line.chars { line.pos := line.pos + 1; }
      case Home => line.pos := 0;
      case EndKey => line.pos := line.chars;
    }
  }

  method CutOut(line: Line, p: nat, q: nat, ghost s: Screen)
    requires Shows(line, s) && p <= q <= |s.edit.text| && (s.edit.cursor == p || s.edit.cursor == q)
    modifies line, line.buf
    ensures Shows(line, Killed(s, p, q))
    ensures line.KeepsZeros(old(line.len), old(line.buf[..]), s.edit.text[p..q])
  {
    hide Encode, Enc, Fits, AllNarrow, ZeroFrom, Decode, Offset, InsertBytes, RemoveBytes, Line.Counted;
    ghost var e := s.edit;
    var n := line.RemoveChars(p, q - p, e);
    assert n == q - p && p + n == q;
    if p == q { NothingCutOut(line.wide, e.text, p); }
  }

  lemma NothingCutOut(wide: bool, t: seq<rune>, p: nat)
    requires p <= |t|
    ensures AllNarrow(wide, t[p..p]) && AllNarrow(wide, [])
  {
  }

  /** Ctrl-U and Ctrl-K */
  method Kill(line: Line, key: Key, ghost s: Screen)
    requires Shows(line, s) && (key == KillLeft || key == KillRight)
    modifies line, line.buf
    ensures Shows(line, Press(line.wide, line.buf.Length, s, key))
    ensures line.KeepsZeros(old(line.len), old(line.buf[..]), Lost(line.wide, line.buf.Length, s, key))
  {
    hide Encode, Enc, Fits, AllNarrow, ZeroFrom, Killed;
    if key == KillLeft { CutOut(line, 0, line.pos, s); } else { CutOut(line, line.pos, line.chars, s); }
  }

  method WordBefore(line: Line, ghost e: Edit) returns (p: nat)
    requires line.Holds(e)
    ensures p == WordStart(e.text, e.cursor)
  {
    hide Encode, Enc, Fits, Decode, Offset, InsertBytes, RemoveBytes, Line.Counted;
    p := line.pos;
    var c := line.GetChar(p - 1, e);
    while p > 0 && c == Some(SPACE)
      invariant p <= e.cursor && BlanksLeft(e.text, p) == BlanksLeft(e.text, e.cursor)
      invariant c == if p > 0 then Some(e.text[p - 1]) else None
    {
      p := p - 1;
      c := line.GetChar(p - 1, e);
    }
    while p > 0 && c != Some(SPACE)
      invariant p <= e.cursor && WordLeft(e.text, p) == WordStart(e.text, e.cursor)
      invariant c == if p > 0 then Some(e.text[p - 1]) else None
    {
      p := p - 1;
      c := line.GetChar(p - 1, e);
    }
  }

  /** Ctrl-W */
  method CutWord(line: Line, ghost s: Screen)
    requires Shows(line, s)
    modifies line, line.buf
    ensures Shows(line, Press(line.wide, line.buf.Length, s, KillWord))
    ensures line.KeepsZeros(old(line.len), old(line.buf[..]), Lost(line.wide, line.buf.Length, s, KillWord))
  {
    hide Encode, Enc, Fits, WordStart, AllNarrow, ZeroFrom, Killed;
    var p := WordBefore(line, s.edit);
    CutOut(line, p, line.pos, s);
  }

  method Paste(line: Line, ghost s: Screen)
    requires Shows(line, s)
    modifies line, line.buf
    ensures Shows(line, Press(line.wide, line.buf.Length, s, Yank))
    ensures line.KeepsZeros(old(line.len), old(line.buf[..]), [])
  {
    hide Encode, Decode, Enc, Fits, Offset, InsertBytes, RemoveBytes, Line.Counted;
    ghost var e, cut := s.edit, s.cut;
    EncodeNoZero(line.wide, cut);
    DecodeEncode(line.wide, cut);
    if line.capture == [] {
      NothingCut(line.wide, cut);
      NoneInserted(e, cut);
    } else {
      var n := line.InsertChars(line.pos, line.capture, e);
      RoomStops(line.wide, line.buf.Length, Size(line.wide, e.text), cut, n);
      NoneInserted(e, cut);
    }
  }

  lemma NothingCut(wide: bool, cut: seq<rune>)
    requires Encode(wide, cut) == []
    ensures cut == []
  {
    hide Enc;
  }

  lemma NoneInserted(e: Edit, cut: seq<rune>)
    requires e.cursor <= |e.text|
    ensures InsertedRun(e, e.cursor, cut[..0]) == e
  {
    assert e.text[..e.cursor] + [] + e.text[e.cursor..] == e.text;
  }

  method TransposeChars(line: Line, ghost s: Screen)
    requires Shows(line, s)
    modifies line, line.buf
    ensures Shows(line, Press(line.wide, line.buf.Length, s, Transpose))
    ensures line.KeepsZeros(old(line.len), old(line.buf[..]), Lost(line.wide, line.buf.Length, s, Transpose))
  {
    hide Encode, Enc, Fits, Swapped, Inserted, Stored;
    if 0 < line.pos <= line.chars {
      ghost var e := s.edit;
      if |e.text| > 1 { SwappedInSteps(e); }
      SwapKeeps(e);
      TakeAndPutBefore(line, if line.pos == line.chars then line.pos - 1 else line.pos, e);
    }
  }

  /** Take out a character and put it one place to the left. */
  method TakeAndPutBefore(line: Line, p: nat, ghost e: Edit)
    requires line.Holds(e) && p < |e.text|
    modifies line`len, line`chars, line`pos, line.buf
    ensures var r := Removed(e, p); var fits := r.cursor > 0 && old(line.len) < line.buf.Length - 1;
      line.Holds(if fits then Inserted(r, r.cursor - 1, e.text[p]) else r)
    ensures line.KeepsZeros(old(line.len), old(line.buf[..]), [e.text[p]])
  {
    hide Encode, Enc, Fits, Inserted, Removed, Stored, ZeroFrom, Decode, Offset, InsertBytes, RemoveBytes, Line.Counted;
    var c := TakeOut(line, p, e);
    var inserted := line.InsertChar(line.pos - 1, c, Removed(e, p));
  }

  method TakeOut(line: Line, p: nat, ghost e: Edit) returns (c: bv32)
    requires line.Holds(e) && p < |e.text|
    modifies line`len, line`chars, line`pos, line.buf
    ensures line.Holds(Removed(e, p)) && Stored(line.wide, c) == e.text[p]
    ensures line.len == old(line.len) - |Enc(line.wide, e.text[p])|
    ensures line.KeepsZeros(old(line.len), old(line.buf[..]), [e.text[p]])
  {
    hide Encode, Enc, Fits, Removed, Stored, ZeroFrom, Decode, Offset, InsertBytes, RemoveBytes, Line.Counted;
    c := Fetch(line, p, e);
    var removed := line.RemoveChar(p, e);
  }

  method Fetch(line: Line, p: nat, ghost e: Edit) returns (c: bv32)
    requires line.Holds(e) && p < |e.text|
    ensures Stored(line.wide, c) == e.text[p]
  {
    hide Encode, Enc, Fits, Stored, Decode, Offset, Line.Counted;
    var got := line.GetChar(p, e);
    assert e.text[p] in e.text;
    StoredWhole(line.wide, got.value);
    c := got.value as bv32;
  }

  lemma SwapKeeps(e: Edit)
    ensures 0 < e.cursor <= |e.text| && |e.text| > 1 && 0 !in e.text ==> 0 !in Swapped(e).text
  {
  }

  /** One key. */
  method Handle(line: Line, key: Key, ghost s: Screen)
    requires Shows(line, s) && Typable(line.wide, key)
    modifies line, line.buf
    ensures Shows(line, Press(line.wide, line.buf.Length, s, key))
    ensures Did(line.wide, line.buf.Length, key, old(On(line)), On(line))
    ensures line.KeepsZeros(old(line.len), old(line.buf[..]), Lost(line.wide, line.buf.Length, s, key))
  {
    hide Encode, Decode, Fits, AllNarrow, ZeroFrom, Press, Lost, Did, Typable;
    Shown(line, s);
    PressDid(line.wide, line.buf.Length, s, key);
    HandleKey(line, key, s);
    Shown(line, Press(line.wide, line.buf.Length, s, key));
  }

  /** What the fields of the line hold. */
  ghost function On(line: Line): Seen
    requires line.len <= line.buf.Length
    reads line, line.buf
  {
    Seen(line.Text(), line.pos, line.capture)
  }

  lemma Shown(line: Line, s: Screen)
    requires Shows(line, s)
    ensures Sane(s) && On(line) == SeenOf(line.wide, s)
    ensures forall c :: c in s.cut ==> Fits(line.wide, c)
  {
    hide Encode, Decode, Fits;
    DecodeEncode(line.wide, s.edit.text);
  }

  method HandleKey(line: Line, key: Key, ghost s: Screen)
    requires Shows(line, s) && Typable(line.wide, key)
    modifies line, line.buf
    ensures Shows(line, Press(line.wide, line.buf.Length, s, key))
    ensures line.KeepsZeros(old(line.len), old(line.buf[..]), Lost(line.wide, line.buf.Length, s, key))
    decreases key
  {
    hide Encode, Stored, Fits, AllNarrow, ZeroFrom, Typed, Erased, Killed, Yanked, Transposed;
    match key {
      case Char(c) => Type(line, c, s);
      case Quoted(c, plain) => if line.HasRoom(3) { TypeQuoted(line, c, s); } else { HandleKey(line, plain, s); }
      case Backspace => Erase(line, key, s);
      case Delete => Erase(line, key, s);
      case KillLeft => Kill(line, key, s);
      case KillRight => Kill(line, key, s);
      case KillWord => CutWord(line, s);
      case Yank => Paste(line, s);
      case Transpose => TransposeChars(line, s);
      case _ => MoveCursor(line, key, s);
    }
  }

  /** A whole session: the buffer always holds the characters the keys make. The C string in it is
      exactly the line in the one-byte build, and in the other one if only characters of one byte were
      taken out. */
  method Session(line: Line, keys: seq<Key>, ghost s: Screen)
    requires Shows(line, s) && forall k :: k in keys ==> Typable(line.wide, k)
    modifies line, line.buf
    ensures var s1 := PressAll(line.wide, line.buf.Length, s, keys);
      && Shows(line, s1) && Ran(line.wide, line.buf.Length, keys, old(On(line)), On(line))
      && (ZeroFrom(old(line.buf[..]), old(line.len)) && (line.wide ==> LosesNarrow(true, line.buf.Length, s, keys)) ==>
            CString(line.buf[..]) == Encode(line.wide, s1.edit.text))
  {
    hide Encode, Decode, Press, Lost, Typable, CString, Fits, ZeroFrom, AllNarrow, Did;
    ghost var start := On(line);
    assert keys[..0] == [];
    if !line.wide { NarrowSession(line.buf.Length, s, keys); }
    ghost var clean := ZeroFrom(line.buf[..], line.len) && LosesNarrow(line.wide, line.buf.Length, s, keys);
    ghost var now := s;
    assert keys[0..] == keys;
    for i := 0 to |keys|
      invariant Shows(line, now) && PressAll(line.wide, line.buf.Length, now, keys[i..]) == PressAll(line.wide, line.buf.Length, s, keys)
      invariant clean ==> ZeroFrom(line.buf[..], line.len) && LosesNarrow(line.wide, line.buf.Length, now, keys[i..])
      invariant Ran(line.wide, line.buf.Length, keys[..i], start, On(line))
    {
      assert keys[i..][0] == keys[i] && keys[i..][1..] == keys[i + 1..] && keys[..i + 1][..i] == keys[..i];
      assert keys[i] in keys;
      Shown(line, now);
      Handle(line, keys[i], now);
      now := Press(line.wide, line.buf.Length, now, keys[i]);
    }
    assert keys[..|keys|] == keys;
    EncodeNoZero(line.wide, now.edit.text);
    CStringEnds(line.buf[..], line.len);
    if clean { assert line.buf[line.len] == 0 by { FirstZero(line.buf[..], line.len); } }
  }

  lemma FirstZero(b: seq<byte>, n: nat)
    requires ZeroFrom(b, n) && n < |b|
    ensures b[n] == 0
  {
  }

  // ----- cutting and pasting

  lemma {:induction false} AllFit(wide: bool, max: nat, size: nat, cs: seq<rune>)
    ensures Room(wide, max, size, cs) == |cs| <==> cs == [] || size + Size(wide, cs) < max - 1
    decreases |cs|
  {
    hide Enc;
    if cs != [] {
      AllFit(wide, max, size + |Enc(wide, cs[0])|, cs[1..]);
      assert Size(wide, cs) == |Enc(wide, cs[0])| + Size(wide, cs[1..]);
      assert cs[1..] == [] ==> Size(wide, cs[1..]) == 0;
    }
  }

  /** Pasting what was just cut to the left of the cursor restores line and cursor, unless the line was
      full. */
  lemma YankUndoesKillLeftIff(wide: bool, max: nat, s: Screen, key: Key)
    requires Sane(s) && s.edit.cursor > 0 && (key == KillLeft || key == KillWord)
    ensures Press(wide, max, Press(wide, max, s, key), Yank).edit == s.edit <==> Size(wide, s.edit.text) < max - 1
  {
    hide Encode, Enc, Room, WordLeft, BlanksLeft;
    var e := s.edit;
    var p := if key == KillLeft then 0 else WordStart(e.text, e.cursor);
    var cut, left, rest := e.text[p..e.cursor], e.text[..p], e.text[e.cursor..];
    assert e.text == left + cut + rest;
    assert left == [] ==> left + rest == rest;
    EncodeAppend(wide, left + cut, rest);
    EncodeAppend(wide, left, cut);
    EncodeAppend(wide, left, rest);
    AllFit(wide, max, Size(wide, left + rest), cut);
    var k := Room(wide, max, Size(wide, left + rest), cut);
    PastedBack(left, cut, rest, k);
  }

  lemma PastedBack(left: seq<rune>, cut: seq<rune>, rest: seq<rune>, k: nat)
    requires k <= |cut|
    ensures InsertedRun(Edit(left + rest, |left|), |left|, cut[..k]) == Edit(left + cut + rest, |left| + |cut|) <==> k == |cut|
  {
    var t := left + rest;
    assert t[..|left|] == left && t[|left|..] == rest;
    if k == |cut| { assert cut[..k] == cut; }
  }

  /** Pasting what was just cut from the end of the line brings the text back, unless the line was full.
      The cursor ends up behind it, so the line is as before only if nothing was cut or pasted. */
  lemma YankUndoesKillRightIff(wide: bool, max: nat, s: Screen)
    requires Sane(s)
    ensures var t := Press(wide, max, Press(wide, max, s, KillRight), Yank).edit; var n := |s.edit.text|;
      && (s.edit.cursor < n ==> (t.text == s.edit.text <==> Size(wide, s.edit.text) < max - 1))
      && (s.edit.cursor < n && t.text == s.edit.text ==> t.cursor == n)
      && (t == s.edit <==> s.edit.cursor == n && Room(wide, max, Size(wide, s.edit.text), s.cut) == 0)
  {
    hide Encode, Enc, Room;
    var e := s.edit;
    var cut, rest := e.text[e.cursor..], e.text[..e.cursor];
    assert rest + cut == e.text && rest + e.text[|e.text|..] == rest && e.text[e.cursor..|e.text|] == cut;
    if e.cursor < |e.text| {
      EncodeAppend(wide, rest, cut);
      AllFit(wide, max, Size(wide, rest), cut);
      var k := Room(wide, max, Size(wide, rest), cut);
      var r := InsertedRun(Edit(rest, e.cursor), e.cursor, cut[..k]);
      assert rest[..e.cursor] == rest && rest[e.cursor..] == [];
      assert r.text == rest + cut[..k];
      if k == |cut| { assert cut[..k] == cut; }
    } else {
      var k := Room(wide, max, Size(wide, e.text), s.cut);
      NoneInserted(e, s.cut);
      assert |InsertedRun(e, e.cursor, s.cut[..k]).text| == |e.text| + k;
    }
  }

  // ----- the terminator in the UTF-8 build

  /** After "aé", erasing the é and typing b leaves a byte of the é behind: the text is "ab", the C
      string is longer. */
  method LeavesByteBehind() returns (line: Line)
    ensures fresh(line) && line.Holds(Edit([0x61, 0x62], 2))
    ensures CString(line.buf[..]) == [0x61, 0x62, 0xa9] != line.buf[..line.len]
  {
    hide Encode, Decode, Enc, CString, Offset, InsertBytes, RemoveBytes, Line.Counted;
    var buf := new byte[8];
    line := new Line(true, buf);
    var text: seq<byte> := [0x61, 0xc3, 0xa9];
    line.SetCurrent(text);
    Decoded();
    ghost var b0 := buf[..];
    assert line.buf == buf && line.len == |text| == 3;
    assert b0[..3] == text && ZeroFrom(b0, 3);
    var _ := line.RemoveChar(1, Edit([0x61, 0xe9], 2));
    assert Removed(Edit([0x61, 0xe9], 2), 1) == Edit([0x61], 1);
    ghost var b := buf[..];
    assert line.len == 1 && b[2..] == b0[2..];
    assert b0[2] == b0[..3][2] && b[2] == b[2..][0] && b[3] == b[2..][1];
    var _ := line.InsertChar(1, 0x62, Edit([0x61], 1));
    assert Inserted(Edit([0x61], 1), 1, 0x62) == Edit([0x61, 0x62], 2);
    assert line.len == 2 && buf[..][2..] == b[2..];
    assert buf[..3] == buf[..2] + [buf[..][2..][0]] && buf[3] == buf[..][2..][1];
    CStringEnds(buf[..], 3);
  }

  lemma Decoded()
    ensures Encode(true, [0x61, 0xe9]) == [0x61, 0xc3, 0xa9] && Decode(true, [0x61, 0xc3, 0xa9]) == [0x61, 0xe9]
    ensures Encode(true, [0x61]) == [0x61] && Encode(true, [0x61, 0x62]) == [0x61, 0x62]
  {
    hide Encode, Decode, Enc;
    ThreeCodes();
    EncodeFirst([0x61, 0xe9]);
    EncodeFirst([0x61, 0x62]);
    EncodeFirst([0x61]);
    EncodeFirst([0xe9]);
    EncodeFirst([0x62]);
    assert [0x61, 0xe9][1..] == [0xe9] && [0x61, 0x62][1..] == [0x62];
    DecodeEncode(true, [0x61, 0xe9]);
  }

  lemma ThreeCodes()
    ensures Enc(true, 0x61) == [0x61] && Enc(true, 0x62) == [0x62] && Enc(true, 0xe9) == [0xc3, 0xa9]
  {
  }

  lemma EncodeFirst(cs: seq<rune>)
    requires cs != []
    ensures Encode(true, cs) == Enc(true, cs[0]) + Encode(true, cs[1..])
    ensures |cs| == 1 ==> Encode(true, cs[1..]) == []
  {
    hide Enc;
  }
}
