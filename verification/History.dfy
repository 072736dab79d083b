/** The line history: bounded, without repeats in a row, saved to and loaded from a file. */
module History {
  import opened Options
  import opened Utf8

  type line = seq<byte>

  const NL: byte := 10
  const CR: byte := 13
  const BACKSLASH: byte := 92
  /** `LINENOISE_MAX_LINE - 1`: the most that `fgets` reads at a time. */
  const LIMIT := 4095

  // ----- adding

  function Newest<T>(h: seq<T>, max: nat): seq<T> {
    if |h| <= max then h else h[|h| - max..]
  }

  function Added(h: seq<line>, max: nat, x: line): seq<line> {
    if h != [] && h[|h| - 1] == x then h else Newest(h + [x], max)
  }

  function AddedAll(h: seq<line>, max: nat, xs: seq<line>): seq<line>
    decreases |xs|
  {
    if xs == [] then h else AddedAll(Added(h, max, xs[0]), max, xs[1..])
  }

  ghost predicate NoRepeats<T>(h: seq<T>) { forall i :: 0 < i < |h| ==> h[i - 1] != h[i] }

  /** The lines without those that equal the line before. */
  ghost function Distinct<T>(xs: seq<T>): seq<T> {
    if xs == [] then []
    else
      var n := |xs| - 1;
      if n > 0 && xs[n - 1] == xs[n] then Distinct(xs[..n]) else Distinct(xs[..n]) + [xs[n]]
  }

  lemma {:induction false} DistinctFacts<T>(xs: seq<T>)
    ensures NoRepeats(Distinct(xs)) && (NoRepeats(xs) ==> Distinct(xs) == xs)
    ensures xs != [] ==> Distinct(xs) != [] && Distinct(xs)[|Distinct(xs)| - 1] == xs[|xs| - 1]
  {
    if xs != [] {
      var n := |xs| - 1;
      DistinctFacts(xs[..n]);
      assert xs == xs[..n] + [xs[n]];
    }
  }

  lemma {:induction false} AddedLast(h: seq<line>, max: nat, xs: seq<line>)
    requires xs != []
    ensures AddedAll(h, max, xs) == Added(AddedAll(h, max, xs[..|xs| - 1]), max, xs[|xs| - 1])
    decreases |xs|
  {
    hide Added;
    var n := |xs| - 1;
    if n > 0 {
      AddedLast(Added(h, max, xs[0]), max, xs[1..]);
      assert xs[1..][..n - 1] == xs[..n][1..];
    } else {
      assert xs[1..] == [] && xs[..n] == [];
    }
  }

  /** Whatever has been added, the history is the newest of the distinct lines. */
  lemma {:induction false} KeepsNewest(max: nat, xs: seq<line>)
    requires max > 0
    ensures AddedAll([], max, xs) == Newest(Distinct(xs), max)
    decreases |xs|
  {
    if xs != [] {
      hide *;
      var n := |xs| - 1;
      AddedLast([], max, xs);
      KeepsNewest(max, xs[..n]);
      DistinctNext(xs);
      AddNewest(Distinct(xs[..n]), max, xs[n]);
    }
  }

  lemma AddNewest(d: seq<line>, max: nat, x: line)
    requires max > 0
    ensures Added(Newest(d, max), max, x) == Newest(if d != [] && d[|d| - 1] == x then d else d + [x], max)
  {
    var h := Newest(d, max);
    assert h != [] <==> d != [];
    assert h != [] ==> h[|h| - 1] == d[|d| - 1];
    NewestTwice(d, max, x);
  }

  lemma DistinctNext<T>(xs: seq<T>)
    requires xs != []
    ensures var n := |xs| - 1; var d := Distinct(xs[..n]);
      && Distinct(xs) == (if d != [] && d[|d| - 1] == xs[n] then d else d + [xs[n]])
  {
    hide Distinct, NoRepeats;
    var n := |xs| - 1;
    var a := xs[..n];
    DistinctStep(xs);
    if n == 0 {
      NoneDistinct<T>();
      assert a == [];
    } else {
      DistinctFacts(a);
      assert a[|a| - 1] == xs[n - 1];
    }
  }

  lemma NoneDistinct<T>()
    ensures Distinct<T>([]) == []
  {
  }

  lemma DistinctStep<T>(xs: seq<T>)
    requires xs != []
    ensures var n := |xs| - 1;
      Distinct(xs) == if n > 0 && xs[n - 1] == xs[n] then Distinct(xs[..n]) else Distinct(xs[..n]) + [xs[n]]
  {
  }

  lemma NewestTwice<T>(d: seq<T>, max: nat, x: T)
    requires max > 0
    ensures Newest(Newest(d, max) + [x], max) == Newest(d + [x], max)
  {
    if |d| > max {
      assert Newest(d, max) + [x] == (d + [x])[|d| - max..];
    }
  }

  // ----- the file format

  function EscapeByte(b: byte): seq<byte> {
    if b == BACKSLASH then [BACKSLASH, BACKSLASH]
    else if b == NL then [BACKSLASH, 110]
    else if b == CR then [BACKSLASH, 114]
    else [b]
  }

  function Escape(s: line): seq<byte> {
    if s == [] then [] else Escape(s[..|s| - 1]) + EscapeByte(s[|s| - 1])
  }

  function Saved(h: seq<line>): seq<byte> {
    if h == [] then [] else Saved(h[..|h| - 1]) + Escape(h[|h| - 1]) + [NL]
  }

  function Meant(b: byte): byte { if b == 110 then NL else if b == 114 then CR else b }

  /** None when the last byte is a lone backslash: there the program reads past the terminator. */
  function Unescape(s: seq<byte>): Option<line>
    decreases |s|
  {
    if s == [] then Some([])
    else if s[0] != BACKSLASH then Prepend(s[0], Unescape(s[1..]))
    else if |s| == 1 then None
    else Prepend(Meant(s[1]), Unescape(s[2..]))
  }

  function Prepend(b: byte, r: Option<line>): Option<line> {
    match r
    case None => None
    case Some(s) => Some([b] + s)
  }

  /** Without one newline or carriage return at the end. */
  function Strip(s: line): line {
    if s != [] && (s[|s| - 1] == NL || s[|s| - 1] == CR) then s[..|s| - 1] else s
  }

  /** How many bytes `fgets` takes: to the end of the line, or as many as it may. */
  function Taken(file: seq<byte>, limit: nat): (n: nat)
    ensures n <= |file| && n <= limit
    ensures file != [] && limit > 0 ==> n > 0
  {
    if file == [] || limit == 0 then 0
    else if file[0] == NL then 1
    else 1 + Taken(file[1..], limit - 1)
  }

  function Chunks(file: seq<byte>): seq<seq<byte>>
    decreases |file|
  {
    if file == [] then [] else [file[..Taken(file, LIMIT)]] + Chunks(file[Taken(file, LIMIT)..])
  }

  function Loaded(h: seq<line>, max: nat, chunks: seq<seq<byte>>): Option<seq<line>>
    decreases |chunks|
  {
    if chunks == [] then Some(h)
    else
      match Unescape(CString(chunks[0]))
      case None => None
      case Some(s) => Loaded(Added(h, max, Strip(s)), max, chunks[1..])
  }

  /** Ends in neither a newline nor a carriage return. */
  predicate NoEnd(s: line): (b: bool)
    ensures b <==> Strip(s) == s
  {
    s != [] ==> s[|s| - 1] != 10 && s[|s| - 1] != 13
  }

  // ----- what the bytes of the file are, told without the functions above

  /** `e` is how the line `s` stands in the file: a newline as `\\n`, a carriage return as `\\r`, a
      backslash twice, and any other byte as it is. */
  predicate Stands(s: line, e: seq<byte>) {
    if s == [] then e == []
    else if s[0] == 10 then |e| >= 2 && e[0] == 92 && e[1] == 110 && Stands(s[1..], e[2..])
    else if s[0] == 13 then |e| >= 2 && e[0] == 92 && e[1] == 114 && Stands(s[1..], e[2..])
    else if s[0] == 92 then |e| >= 2 && e[0] == 92 && e[1] == 92 && Stands(s[1..], e[2..])
    else |e| >= 1 && e[0] == s[0] && Stands(s[1..], e[1..])
  }

  /** The lines stand in the file one after the other, each with a newline behind it. */
  ghost predicate AllStand(h: seq<line>, file: seq<byte>) {
    if h == [] then file == []
    else exists n: nat :: n < |file| && Stands(h[0], file[..n]) && file[n] == 10 && AllStand(h[1..], file[n + 1..])
  }

  /** A line without newline, carriage return and backslash stands there as it is. */
  lemma {:induction false} PlainStands(s: line, e: seq<byte>)
    requires 10 !in s && 13 !in s && 92 !in s
    ensures Stands(s, e) <==> e == s
  {
    if s != [] {
      assert s[0] in s;
      if e != [] {
        PlainStands(s[1..], e[1..]);
        assert e == [e[0]] + e[1..] && s == [s[0]] + s[1..];
      }
    }
  }

  lemma {:induction false} EscapeFront(s: line)
    requires s != []
    ensures Escape(s) == EscapeByte(s[0]) + Escape(s[1..])
    decreases |s|
  {
    hide EscapeByte;
    var n := |s| - 1;
    if n > 0 {
      EscapeFront(s[..n]);
      assert s[..n][1..] == s[1..][..n - 1];
      Associated(EscapeByte(s[0]), Escape(s[1..][..n - 1]), EscapeByte(s[n]));
    } else {
      assert s[1..] == [] && s[..0] == [];
    }
  }

  lemma Associated<T>(a: seq<T>, b: seq<T>, c: seq<T>)
    ensures a + b + c == a + (b + c)
  {
  }

  lemma {:induction false} EscapeStands(s: line)
    ensures Stands(s, Escape(s))
    decreases |s|
  {
    hide Stands, EscapeByte;
    if s == [] {
      NothingStands();
    } else {
      EscapeFront(s);
      EscapeStands(s[1..]);
      StandsFirst(s, Escape(s[1..]));
    }
  }

  lemma NothingStands()
    ensures Stands([], [])
  {
  }

  lemma StandsFirst(s: line, e: seq<byte>)
    requires s != [] && Stands(s[1..], e)
    ensures Stands(s, EscapeByte(s[0]) + e)
  {
    var t := EscapeByte(s[0]) + e;
    assert t[|EscapeByte(s[0])|..] == e;
  }

  lemma {:induction false} SavedStands(h: seq<line>)
    ensures AllStand(h, Saved(h))
    decreases |h|
  {
    hide Escape, Stands;
    if h != [] {
      SavedFront(h);
      hide Saved;
      EscapeStands(h[0]);
      SavedStands(h[1..]);
      var file, n := Saved(h), |Escape(h[0])|;
      assert file[..n] == Escape(h[0]) && file[n] == NL && file[n + 1..] == Saved(h[1..]);
    }
  }

  /** What the bytes `c` of a chunk are read as: behind a backslash, `n` is a newline, `r` a carriage
      return and any other byte itself; a lone backslash at the end is no line. */
  predicate ReadsAs(c: seq<byte>, s: line)
    decreases |c|
  {
    if c == [] then s == []
    else if c[0] != 92 then s != [] && s[0] == c[0] && ReadsAs(c[1..], s[1..])
    else
      && |c| >= 2 && s != []
      && s[0] == (if c[1] == 110 then 10 else if c[1] == 114 then 13 else c[1])
      && ReadsAs(c[2..], s[1..])
  }

  lemma {:induction false} UnescapeReads(c: seq<byte>, s: line)
    ensures Unescape(c) == Some(s) <==> ReadsAs(c, s)
    decreases |c|
  {
    if c != [] && (c[0] != 92 || |c| > 1) {
      var t := c[if c[0] == 92 then 2 else 1..];
      if s != [] { UnescapeReads(t, s[1..]); assert s == [s[0]] + s[1..]; }
    }
  }

  /** Without one newline or carriage return at its end. */
  predicate Ended(s: line, x: line) {
    if s != [] && (s[|s| - 1] == 10 || s[|s| - 1] == 13) then x == s[..|s| - 1] else x == s
  }

  /** `r` is the history after the lines read from the chunks have been added one by one. */
  ghost predicate LoadsTo(h: seq<line>, max: nat, chunks: seq<seq<byte>>, r: seq<line>)
    decreases |chunks|
  {
    if chunks == [] then r == h
    else exists s: line, x: line ::
      ReadsAs(CString(chunks[0]), s) && Ended(s, x) && LoadsTo(Added(h, max, x), max, chunks[1..], r)
  }

  lemma ReadOut(c: seq<byte>)
    ensures forall s :: ReadsAs(c, s) <==> Unescape(c) == Some(s)
    ensures forall s, x :: Ended(s, x) <==> x == Strip(s)
  {
    hide Unescape, ReadsAs;
    forall s ensures ReadsAs(c, s) <==> Unescape(c) == Some(s) { UnescapeReads(c, s); }
  }

  lemma {:induction false} LoadedReads(h: seq<line>, max: nat, chunks: seq<seq<byte>>, r: seq<line>)
    ensures Loaded(h, max, chunks) == Some(r) <==> LoadsTo(h, max, chunks, r)
    decreases |chunks|
  {
    hide Unescape, ReadsAs, CString, Added, Ended, Strip;
    if chunks != [] {
      var c := CString(chunks[0]);
      ReadOut(c);
      if Unescape(c).Some? {
        var s := Unescape(c).value;
        LoadedReads(Added(h, max, Strip(s)), max, chunks[1..], r);
        assert ReadsAs(c, s) && Ended(s, Strip(s));
      }
    }
  }

  /** What stands in the file for a line is read as the line. */
  lemma {:induction false} StandsReads(s: line, e: seq<byte>)
    requires Stands(s, e)
    ensures ReadsAs(e, s)
  {
    if s != [] { StandsReads(s[1..], e[if s[0] == 10 || s[0] == 13 || s[0] == 92 then 2 else 1..]); }
  }

  // ----- loading what was saved

  lemma {:induction false} UnescapeAppend(a: seq<byte>, b: seq<byte>)
    requires Unescape(a).Some? && Unescape(b).Some?
    ensures Unescape(a + b) == Some(Unescape(a).value + Unescape(b).value)
    decreases |a|
  {
    hide Unescape;
    if a == [] {
      UnescapeNothing();
      assert a + b == b && [] + Unescape(b).value == Unescape(b).value;
    } else {
      assert a[0..] == a && (a + b)[0..] == a + b;
      UnescapeStep(a, 0);
      UnescapeStep(a + b, 0);
      var k := if a[0] == BACKSLASH then 2 else 1;
      assert (a + b)[k..] == a[k..] + b;
      UnescapeAppend(a[k..], b);
      var x := if k == 2 then Meant(a[1]) else a[0];
      var u, v := Unescape(a[k..]).value, Unescape(b).value;
      assert [x] + (u + v) == [x] + u + v;
    }
  }

  lemma UnescapeByte(b: byte)
    ensures Unescape(EscapeByte(b)) == Some([b])
    ensures NL !in EscapeByte(b) && (b != 0 ==> 0 !in EscapeByte(b)) && 1 <= |EscapeByte(b)| <= 2
  {
    var e := EscapeByte(b);
    assert e[0..] == e;
    UnescapeStep(e, 0);
    UnescapeNothing();
    assert [b] + [] == [b];
    assert if |e| == 2 then e[2..] == [] else e[1..] == [];
    hide Unescape;
  }

  /** The two escape loops undo each other. */
  lemma {:induction false} UnescapeEscape(s: line)
    ensures Unescape(Escape(s)) == Some(s)
    ensures NL !in Escape(s) && (0 !in s ==> 0 !in Escape(s)) && |s| <= |Escape(s)| <= 2 * |s|
  {
    hide EscapeByte, Unescape;
    if s == [] {
      UnescapeNothing();
    } else {
      var n := |s| - 1;
      UnescapeEscape(s[..n]);
      UnescapeByte(s[n]);
      UnescapeAppend(Escape(s[..n]), EscapeByte(s[n]));
      assert s == s[..n] + [s[n]];
    }
  }

  /** One saved line read back. */
  lemma LineBack(s: line)
    requires 0 !in s
    ensures Unescape(CString(Escape(s) + [NL])) == Some(s + [NL]) && Strip(s + [NL]) == s
  {
    hide Unescape, Escape;
    var t := Escape(s) + [NL];
    UnescapeEscape(s);
    UnescapeByte(100);
    NewlineAlone();
    UnescapeAppend(Escape(s), [NL]);
    WholeString(t);
  }

  lemma NewlineAlone()
    ensures Unescape([NL]) == Some([NL])
  {
    assert [NL][0..] == [NL] && [NL][1..] == [] && [NL] + [] == [NL];
    UnescapeStep([NL], 0);
    UnescapeNothing();
  }

  lemma {:induction false} WholeString(b: seq<byte>)
    requires 0 !in b
    ensures CString(b) == b
  {
    if b != [] { WholeString(b[1..]); }
  }

  lemma {:induction false} TakenLine(e: seq<byte>, rest: seq<byte>, limit: nat)
    requires NL !in e && |e| < limit
    ensures Taken(e + [NL] + rest, limit) == |e| + 1
    decreases |e|
  {
    var file := e + [NL] + rest;
    if e != [] {
      assert file[0] == e[0] && file[1..] == e[1..] + [NL] + rest;
      assert e[0] in e;
      TakenLine(e[1..], rest, limit - 1);
    }
  }

  lemma {:induction false} SavedFront(h: seq<line>)
    requires h != []
    ensures Saved(h) == Escape(h[0]) + [NL] + Saved(h[1..])
  {
    hide Escape;
    var n := |h| - 1;
    if n > 0 {
      SavedFront(h[..n]);
      assert h[1..][..n - 1] == h[..n][1..];
      var x, y := Escape(h[0]) + [NL], Saved(h[1..][..n - 1]);
      assert x + y + Escape(h[n]) + [NL] == x + (y + Escape(h[n]) + [NL]);
    } else {
      assert h[1..] == [] && h[..0] == [];
    }
  }

  lemma FirstChunk(file: seq<byte>)
    requires file != []
    ensures var k := Taken(file, LIMIT); var cs := Chunks(file);
      cs != [] && cs[0] == file[..k] && cs[1..] == Chunks(file[k..])
  {
  }

  // ----- the list itself

  class Lines {
    var maxLen: nat
    var lines: seq<line>

    constructor ()
      ensures maxLen == 100 && lines == []
    {
      maxLen, lines := 100, [];
    }

    ghost predicate Valid()
      reads this
    {
      NoRepeats(lines) && |lines| <= maxLen && maxLen > 0 && forall s: line :: s in lines ==> 0 !in s
    }

    /** `linenoiseHistoryAdd` */
    method Add(x: line) returns (added: bool)
      modifies this`lines
      ensures maxLen == 0 ==> !added && lines == old(lines)
      ensures maxLen > 0 && |old(lines)| <= maxLen ==> lines == Added(old(lines), maxLen, x)
      ensures added <==> maxLen > 0 && (old(lines) == [] || old(lines)[|old(lines)| - 1] != x)
      ensures old(Valid()) && 0 !in x ==> Valid()
    {
      if maxLen == 0 { return false; }
      if |lines| > 0 && lines[|lines| - 1] == x { return false; }
      if |lines| == maxLen {
        lines := lines[1..];
      }
      lines := lines + [x];
      return true;
    }

    /** `linenoiseHistorySetMaxLen` */
    method SetMaxLen(n: int) returns (ok: bool)
      modifies this
      ensures ok <==> n >= 1
      ensures ok ==> maxLen == n && lines == Newest(old(lines), n)
      ensures !ok ==> maxLen == old(maxLen) && lines == old(lines)
      ensures old(Valid()) ==> Valid()
    {
      if n < 1 { return false; }
      var toCopy := |lines|;
      if n < toCopy { toCopy := n; }
      lines := lines[|lines| - toCopy..];
      maxLen := n;
      return true;
    }

    /** `linenoiseHistorySave`; what it writes. */
    method Save() returns (file: seq<byte>)
      ensures file == Saved(lines) && AllStand(lines, file)
    {
      hide EscapeByte;
      file := [];
      for j := 0 to |lines|
        invariant file == Saved(lines[..j])
      {
        var str := lines[j];
        ghost var before := file;
        for i := 0 to |str|
          invariant file == before + Escape(str[..i])
        {
          assert str[..i + 1][..i] == str[..i];
          file := file + EscapeByte(str[i]);
        }
        assert str[..|str|] == str;
        file := file + [NL];
        assert lines[..j + 1][..j] == lines[..j];
      }
      assert lines[..|lines|] == lines;
      SavedStands(lines);
    }

    /** `linenoiseHistoryLoad`; `ok` is false where the program reads past a terminator. */
    method Load(file: seq<byte>) returns (ok: bool)
      requires Valid()
      modifies this`lines
      ensures Valid()
      ensures var r := Loaded(old(lines), maxLen, Chunks(file));
        if ok then r == Some(lines) else r == None
      ensures ok ==> LoadsTo(old(lines), maxLen, Chunks(file), lines)
      ensures !ok ==> forall r :: !LoadsTo(old(lines), maxLen, Chunks(file), r)
    {
      hide Unescape, Strip, Taken, CString, Added, LoadsTo;
      forall r ensures Loaded(lines, maxLen, Chunks(file)) == Some(r) <==> LoadsTo(lines, maxLen, Chunks(file), r) {
        LoadedReads(lines, maxLen, Chunks(file), r);
      }
      var buf := new byte[LIMIT + 1];
      var at := 0;
      assert file[0..] == file;
      while at < |file|
        invariant 0 <= at <= |file| && Valid()
        invariant Loaded(lines, maxLen, Chunks(file[at..])) == Loaded(old(lines), maxLen, Chunks(file))
        invariant fresh(buf) && buf.Length == LIMIT + 1
      {
        FirstChunk(file[at..]);
        var n := ReadLine(buf, file, at);
        ghost var c := file[at..at + n];
        assert file[at..][..n] == c && file[at..][n..] == file[at + n..];
        CStringFront(c, buf[..]);
        var m, whole := DecodeInPlace(buf);
        if !whole { return false; }
        NoZeros(c);
        var _ := Add(buf[..m]);
        at := at + n;
      }
      return true;
    }
  }

  /** `fgets` */
  method ReadLine(buf: array<byte>, file: seq<byte>, at: nat) returns (n: nat)
    requires buf.Length > LIMIT && at < |file|
    modifies buf
    ensures n == Taken(file[at..], LIMIT)
    ensures buf[..n] == file[at..at + n] && buf[n] == 0
  {
    hide Taken;
    n := 0;
    assert file[at + n..] == file[at..];
    while n < LIMIT && at + n < |file|
      invariant n <= LIMIT && at + n <= |file| && buf[..n] == file[at..at + n]
      invariant Taken(file[at..], LIMIT) == n + Taken(file[at + n..], LIMIT - n)
    {
      var b := file[at + n];
      assert file[at + n..][0] == b && file[at + n..][1..] == file[at + n + 1..];
      TakenStep(file[at + n..], LIMIT - n);
      buf[n] := b;
      n := n + 1;
      assert file[at..at + n] == file[at..at + n - 1] + [b];
      if b == NL { break; }
    }
    TakenStep(file[at + n..], LIMIT - n);
    buf[n] := 0;
  }

  lemma TakenStep(file: seq<byte>, limit: nat)
    ensures file != [] && limit > 0 ==>
      Taken(file, limit) == if file[0] == NL then 1 else 1 + Taken(file[1..], limit - 1)
    ensures file == [] || limit == 0 ==> Taken(file, limit) == 0
  {
  }

  function Join(done: seq<byte>, r: Option<line>): Option<line> {
    match r
    case None => None
    case Some(s) => Some(done + s)
  }

  /** Decode the C string in the buffer where it stands, and cut its line end off. */
  method DecodeInPlace(buf: array<byte>) returns (m: nat, whole: bool)
    requires exists i :: 0 <= i < buf.Length && buf[i] == 0
    modifies buf
    ensures var r := Unescape(CString(old(buf[..])));
      && (whole <==> r.Some?)
      && (whole ==> m < buf.Length && buf[..m] == Strip(r.value) && buf[m] == 0)
    ensures whole ==> exists s: line :: ReadsAs(CString(old(buf[..])), s) && Ended(s, buf[..m])
    ensures !whole ==> forall s: line :: !ReadsAs(CString(old(buf[..])), s)
  {
    hide Unescape, CString, Join, Prepend, Meant;
    ghost var b, c := buf[..], CString(buf[..]);
    ghost var n := CStringPrefix(b);
    var src, dest := 0, 0;
    assert c[0..] == c && buf[..0] == [];
    ReadOut(c);
    JoinNone(Unescape(c));
    while buf[src] != 0
      invariant dest <= src <= n < buf.Length
      invariant forall i :: src <= i < buf.Length ==> buf[i] == b[i]
      invariant Join(buf[..dest], Unescape(c[src..])) == Unescape(c)
      decreases n - src
    {
      UnescapeStep(c, src);
      var ch := buf[src];
      ghost var done := buf[..dest];
      if ch == BACKSLASH {
        src := src + 1;
        if buf[src] == 0 {
          NothingJoined(done);
          return 0, false;
        }
        ch := Meant(buf[src]);
      }
      JoinMore(done, ch, Unescape(c[src + 1..]));
      buf[dest] := ch;
      dest := dest + 1;
      src := src + 1;
      assert buf[..dest] == done + [ch];
    }
    assert c[src..] == [];
    UnescapeNothing();
    Joined(buf[..dest]);
    if dest > 0 && (buf[dest - 1] == NL || buf[dest - 1] == CR) {
      dest := dest - 1;
    }
    buf[dest] := 0;
    return dest, true;
  }

  lemma NothingJoined(done: seq<byte>)
    ensures Join(done, None) == None
  {
  }

  lemma Joined(done: seq<byte>)
    ensures Join(done, Some([])) == Some(done)
  {
    assert done + [] == done;
  }

  lemma JoinNone(r: Option<line>)
    ensures Join([], r) == r
  {
    if r.Some? { assert [] + r.value == r.value; }
  }

  lemma JoinMore(done: seq<byte>, b: byte, r: Option<line>)
    ensures Join(done + [b], r) == Join(done, Prepend(b, r))
  {
    if r.Some? { assert done + [b] + r.value == done + ([b] + r.value); }
  }

  lemma UnescapeNothing()
    ensures Unescape([]) == Some([])
  {
  }

  lemma UnescapeStep(c: seq<byte>, i: nat)
    requires i < |c|
    ensures c[i] != BACKSLASH ==> Unescape(c[i..]) == Prepend(c[i], Unescape(c[i + 1..]))
    ensures c[i] == BACKSLASH && i + 1 == |c| ==> Unescape(c[i..]) == None
    ensures c[i] == BACKSLASH && i + 1 < |c| ==> Unescape(c[i..]) == Prepend(Meant(c[i + 1]), Unescape(c[i + 2..]))
  {
    assert c[i..][1..] == c[i + 1..];
    if i + 1 < |c| { assert c[i..][2..] == c[i + 2..]; }
  }

  lemma {:induction false} CStringPrefix(b: seq<byte>) returns (n: nat)
    requires exists i :: 0 <= i < |b| && b[i] == 0
    ensures n < |b| && b[n] == 0 && CString(b) == b[..n] && 0 !in b[..n]
  {
    if b[0] == 0 {
      n := 0;
    } else {
      n := CStringPrefix(b[1..]);
      n := n + 1;
      assert b[..n] == [b[0]] + b[1..][..n - 1];
    }
  }

  lemma {:induction false} CStringFront(a: seq<byte>, b: seq<byte>)
    requires |a| < |b| && b[..|a|] == a && b[|a|] == 0
    ensures CString(b) == CString(a)
  {
    if a != [] {
      assert b[0] == b[..|a|][0] == a[0];
      assert b[1..][..|a| - 1] == a[1..];
      if a[0] != 0 { CStringFront(a[1..], b[1..]); }
    }
  }

  /** No zero comes out of a C string. */
  lemma {:induction false} NoZeros(c: seq<byte>)
    ensures var r := Unescape(CString(c)); r.Some? ==> 0 !in Strip(r.value)
  {
    hide Unescape, CString;
    NoZeroInside(c);
    UnescapeNoZero(CString(c));
  }

  lemma {:induction false} NoZeroInside(c: seq<byte>)
    ensures 0 !in CString(c)
  {
    if c != [] && c[0] != 0 { NoZeroInside(c[1..]); }
  }

  lemma {:induction false} UnescapeNoZero(c: seq<byte>)
    requires 0 !in c
    ensures Unescape(c).Some? ==> 0 !in Unescape(c).value
    decreases |c|
  {
    if c != [] && (c[0] != BACKSLASH || |c| > 1) {
      UnescapeNoZero(c[if c[0] == BACKSLASH then 2 else 1..]);
    }
  }
}
