/** Saving a history and loading it again: lines that do not fit the read buffer come back in pieces. */
module HistoryFile {
  import opened Options
  import opened Utf8
  import opened History

  /** The escaped line and its line end fit the read buffer. */
  predicate Storable(s: line) { |Escape(s)| < LIMIT }

  /** The escaped line fits, its line end may not. */
  predicate Fits(s: line) { |Escape(s)| <= LIMIT }

  predicate Clean(h: seq<line>) { forall s: line :: s in h ==> 0 !in s }

  // ----- one chunk

  lemma LoadStep(h0: seq<line>, max: nat, file: seq<byte>)
    requires file != []
    ensures var k := Taken(file, LIMIT); var u := Unescape(CString(file[..k]));
      Loaded(h0, max, Chunks(file)) ==
        if u.None? then None else Loaded(Added(h0, max, Strip(u.value)), max, Chunks(file[k..]))
  {
    hide Unescape, CString, Taken, Strip, Added, Chunks;
    FirstChunk(file);
  }

  lemma {:induction false} TakenFull(e: seq<byte>, rest: seq<byte>, limit: nat)
    requires NL !in e && |e| >= limit
    ensures Taken(e + rest, limit) == limit
    decreases limit
  {
    var file := e + rest;
    if limit > 0 {
      assert file[0] == e[0] && e[0] in e && file[1..] == e[1..] + rest;
      TakenFull(e[1..], rest, limit - 1);
    }
  }

  /** A cut through an escaped line either falls between two characters or leaves a lone backslash. */
  lemma {:induction false} CutEscape(s: line, n: nat) returns (k: nat)
    requires n <= |Escape(s)|
    ensures k <= |s|
    ensures Unescape(Escape(s)[..n]).Some? ==> Escape(s[..k]) == Escape(s)[..n] && Escape(s[k..]) == Escape(s)[n..]
    decreases |s|
  {
    hide EscapeByte, Unescape;
    if n == |Escape(s)| {
      k := |s|;
      assert s[..k] == s && s[k..] == [];
    } else {
      var m := |s| - 1;
      var before, last := Escape(s[..m]), EscapeByte(s[m]);
      if n <= |before| {
        k := CutEscape(s[..m], n);
        assert Escape(s)[..n] == before[..n] && Escape(s)[n..] == before[n..] + last;
        assert s[..m][..k] == s[..k] && s[k..][..|s[k..]| - 1] == s[..m][k..];
      } else {
        k := 0;
        UnescapeByte(s[m]);
        LoneBackslash(s[..m], s[m]);
        assert Escape(s)[..n] == before + [BACKSLASH];
      }
    }
  }

  /** Half an escaped character is a lone backslash. */
  lemma LoneBackslash(s: line, b: byte)
    ensures |EscapeByte(b)| == 2 ==> EscapeByte(b)[0] == BACKSLASH
    ensures Unescape(Escape(s) + [BACKSLASH]).None?
  {
    hide Unescape, Escape;
    UnescapeEscape(s);
    NoneAfter(Escape(s));
  }

  lemma {:induction false} NoneAfter(a: seq<byte>)
    requires Unescape(a).Some?
    ensures Unescape(a + [BACKSLASH]).None?
    decreases |a|
  {
    hide Unescape;
    var t := a + [BACKSLASH];
    assert a[0..] == a && t[0..] == t;
    UnescapeStep(t, 0);
    if a != [] {
      UnescapeStep(a, 0);
      var k := if a[0] == BACKSLASH then 2 else 1;
      assert t[k..] == a[k..] + [BACKSLASH];
      NoneAfter(a[k..]);
    }
  }

  // ----- what comes back fits

  lemma StripShort(s: line)
    ensures |Escape(Strip(s))| <= |Escape(s)|
  {
    hide EscapeByte;
  }

  lemma {:induction false} AddedAllFront(h: seq<line>, max: nat, x: line, xs: seq<line>)
    ensures AddedAll(h, max, [x] + xs) == AddedAll(Added(h, max, x), max, xs)
  {
    assert ([x] + xs)[1..] == xs;
  }

  lemma {:induction false} AddedAllAppend(h: seq<line>, max: nat, xs: seq<line>, ys: seq<line>)
    ensures AddedAll(h, max, xs + ys) == AddedAll(AddedAll(h, max, xs), max, ys)
    decreases |xs|
  {
    hide Added;
    if xs == [] {
      assert xs + ys == ys;
    } else {
      assert (xs + ys)[1..] == xs[1..] + ys;
      AddedAllAppend(Added(h, max, xs[0]), max, xs[1..], ys);
    }
  }

  /** A saved line, or what is left of one, is loaded as lines that fit. */
  lemma {:induction false} LinePieces(s: line, rest: seq<byte>, h0: seq<line>, max: nat) returns (xs: seq<line>)
    requires 0 !in s && Loaded(h0, max, Chunks(Escape(s) + [NL] + rest)).Some?
    ensures forall x :: x in xs ==> Fits(x)
    ensures Loaded(h0, max, Chunks(Escape(s) + [NL] + rest)) == Loaded(AddedAll(h0, max, xs), max, Chunks(rest))
    decreases |s|
  {
    hide Escape, Unescape, CString, Taken, Strip, Added, Chunks, Loaded, AddedAll;
    var file := Escape(s) + [NL] + rest;
    UnescapeEscape(s);
    LoadStep(h0, max, file);
    if |Escape(s)| < LIMIT {
      TakenLine(Escape(s), rest, LIMIT);
      assert file[..|Escape(s)| + 1] == Escape(s) + [NL] && file[|Escape(s)| + 1..] == rest;
      LineBack(s);
      xs := [s];
      AddedAllFront(h0, max, s, []);
      NothingAdded(Added(h0, max, s), max);
      assert [s] + [] == [s];
    } else {
      TakenFull(Escape(s), [NL] + rest, LIMIT);
      assert Escape(s) + ([NL] + rest) == file;
      var chunk := Escape(s)[..LIMIT];
      assert file[..LIMIT] == chunk && file[LIMIT..] == Escape(s)[LIMIT..] + [NL] + rest;
      WholeString(chunk);
      var k := CutEscape(s, LIMIT);
      UnescapeEscape(s[..k]);
      NoEmptyPiece(s, k);
      var v := Strip(s[..k]);
      StripShort(s[..k]);
      var ys := LinePieces(s[k..], rest, Added(h0, max, v), max);
      xs := [v] + ys;
      AddedAllFront(h0, max, v, ys);
    }
  }

  lemma NothingAdded(h: seq<line>, max: nat)
    ensures AddedAll(h, max, []) == h
  {
  }

  lemma NoEmptyPiece(s: line, k: nat)
    requires k <= |s| && |Escape(s[..k])| == LIMIT
    ensures k > 0
  {
  }

  lemma {:induction false} HistoryPieces(h: seq<line>, h0: seq<line>, max: nat) returns (xs: seq<line>)
    requires Clean(h) && Loaded(h0, max, Chunks(Saved(h))).Some?
    ensures forall x :: x in xs ==> Fits(x)
    ensures Loaded(h0, max, Chunks(Saved(h))) == Some(AddedAll(h0, max, xs))
    decreases |h|
  {
    hide Escape, Chunks, AddedAll, Fits, Loaded;
    if h == [] {
      xs := [];
      NothingLoaded(h0, max);
      NothingAdded(h0, max);
    } else {
      SavedFront(h);
      hide Saved;
      var ys := LinePieces(h[0], Saved(h[1..]), h0, max);
      var zs := HistoryPieces(h[1..], AddedAll(h0, max, ys), max);
      xs := ys + zs;
      AddedAllAppend(h0, max, ys, zs);
    }
  }

  lemma NothingLoaded(h0: seq<line>, max: nat)
    ensures Loaded(h0, max, Chunks(Saved([]))) == Some(h0)
  {
    assert Saved([]) == [] && Chunks([]) == [];
  }

  lemma {:induction false} OnlyAdded(h: seq<line>, max: nat, xs: seq<line>)
    ensures forall x :: x in AddedAll(h, max, xs) ==> x in h || x in xs
    decreases |xs|
  {
    if xs != [] { OnlyAdded(Added(h, max, xs[0]), max, xs[1..]); }
  }

  // ----- histories whose escaped lines fit

  /** What a line that fits comes back as: itself, or, when its line end is left for the next chunk,
      without a newline at its own end and with an empty line after it. */
  function Pieces(s: line): seq<line> { if Storable(s) then [s] else [Strip(s), []] }

  function AllPieces(h: seq<line>): seq<line> {
    if h == [] then [] else Pieces(h[0]) + AllPieces(h[1..])
  }

  lemma ExactLine(s: line, rest: seq<byte>, h0: seq<line>, max: nat)
    requires 0 !in s && |Escape(s)| == LIMIT
    ensures Loaded(h0, max, Chunks(Escape(s) + [NL] + rest))
         == Loaded(Added(Added(h0, max, Strip(s)), max, []), max, Chunks(rest))
  {
    hide Escape, Unescape, CString, Taken, Added, Chunks, Loaded;
    var file := Escape(s) + [NL] + rest;
    UnescapeEscape(s);
    TakenFull(Escape(s), [NL] + rest, LIMIT);
    assert Escape(s) + ([NL] + rest) == file;
    assert file[..LIMIT] == Escape(s) && file[LIMIT..] == [NL] + rest;
    WholeString(Escape(s));
    LoadStep(h0, max, file);
    var h1 := Added(h0, max, Strip(s));
    NoLine();
    TakenLine([], rest, LIMIT);
    assert [] + [NL] + rest == [NL] + rest && ([NL] + rest)[..1] == [NL] && ([NL] + rest)[1..] == rest;
    LineBack([]);
    assert [] + [NL] == [NL];
    LoadStep(h1, max, [NL] + rest);
  }

  lemma NoLine()
    ensures Escape([]) == []
  {
  }

  /** Loading a saved history adds the pieces of its lines one by one. */
  lemma {:induction false} LoadAddsPieces(h0: seq<line>, max: nat, h: seq<line>)
    requires Clean(h) && forall s :: s in h ==> Fits(s)
    ensures Loaded(h0, max, Chunks(Saved(h))) == Some(AddedAll(h0, max, AllPieces(h)))
    decreases |h|
  {
    hide Escape, Chunks, AddedAll, Loaded, Added, Strip, Taken, Unescape, CString;
    if h == [] {
      NothingLoaded(h0, max);
      NothingAdded(h0, max);
    } else {
      SavedFront(h);
      hide Saved;
      var s, more := h[0], AllPieces(h[1..]);
      if Storable(s) {
        StorableLine(s, Saved(h[1..]), h0, max);
        LoadAddsPieces(Added(h0, max, s), max, h[1..]);
        AddedAllFront(h0, max, s, more);
      } else {
        assert Fits(s);
        ExactLine(s, Saved(h[1..]), h0, max);
        var h1 := Added(h0, max, Strip(s));
        LoadAddsPieces(Added(h1, max, []), max, h[1..]);
        AddedAllFront(h1, max, [], more);
        AddedAllFront(h0, max, Strip(s), [[]] + more);
        assert [Strip(s)] + ([[]] + more) == [Strip(s), []] + more;
      }
    }
  }

  lemma StorableLine(s: line, rest: seq<byte>, h0: seq<line>, max: nat)
    requires 0 !in s && Storable(s)
    ensures Loaded(h0, max, Chunks(Escape(s) + [NL] + rest)) == Loaded(Added(h0, max, s), max, Chunks(rest))
  {
    hide Escape, Unescape, CString, Taken, Added, Chunks, Loaded;
    var file := Escape(s) + [NL] + rest;
    UnescapeEscape(s);
    TakenLine(Escape(s), rest, LIMIT);
    assert file[..|Escape(s)| + 1] == Escape(s) + [NL] && file[|Escape(s)| + 1..] == rest;
    LineBack(s);
    LoadStep(h0, max, file);
  }

  lemma {:induction false} NoPieces(h: seq<line>)
    requires forall s :: s in h ==> Storable(s)
    ensures AllPieces(h) == h
  {
    hide Storable;
    if h != [] { NoPieces(h[1..]); }
  }

  /** When every line can be stored, its lines are added one by one. */
  lemma {:induction false} LoadAddsAll(h0: seq<line>, max: nat, h: seq<line>)
    requires Clean(h) && forall s :: s in h ==> Storable(s)
    ensures Loaded(h0, max, Chunks(Saved(h))) == Some(AddedAll(h0, max, h))
  {
    hide Escape, Loaded, Saved, Chunks;
    LoadAddsPieces(h0, max, h);
    NoPieces(h);
  }

  // ----- exactly the histories that come back

  /** The `j`th line comes back as itself: it can be stored, or it just fits, does not end in a newline
      or carriage return, and the empty line behind it is there already. */
  predicate Survives(h: seq<line>, j: nat)
    requires j < |h|
  {
    Storable(h[j]) || (|Escape(h[j])| == LIMIT && NoEnd(h[j]) && j + 1 < |h| && h[j + 1] == [])
  }

  predicate AllSurvive(h: seq<line>) { forall j :: 0 <= j < |h| ==> Survives(h, j) }

  lemma NotEmpty(s: line)
    requires |Escape(s)| == LIMIT
    ensures s != [] && Strip(s) != []
  {
    hide Escape;
    UnescapeEscape(s);
  }

  /** What is left of `b` after `a`. */
  ghost function Onward<T>(a: seq<T>, b: seq<T>, d: seq<T>): seq<T> {
    if a != [] && b != [] && d != [] && a[|a| - 1] == b[0] then d[1..] else d
  }

  /** Removing repeats piece by piece. */
  lemma {:induction false} DistinctAppend<T>(a: seq<T>, b: seq<T>)
    ensures b != [] ==> Distinct(b) != [] && Distinct(b)[0] == b[0]
    ensures Distinct(a + b) == Distinct(a) + Onward(a, b, Distinct(b))
    decreases |b|
  {
    hide Distinct, NoRepeats;
    NoneDistinct<T>();
    if b == [] {
      assert a + b == a;
    } else {
      var n := |b| - 1;
      DistinctAppend(a, b[..n]);
      assert (a + b)[..|a + b| - 1] == a + b[..n] && (a + b)[|a + b| - 1] == b[n];
      DistinctNext(b);
      DistinctNext(a + b);
      if n == 0 { FirstAdded(a, b); } else { OneMoreAdded(a, b); }
    }
  }

  lemma FirstAdded<T>(a: seq<T>, b: seq<T>)
    requires |b| == 1 && Distinct(b[..0]) == []
    requires Distinct(b) == [b[0]] && Distinct(a + b[..0]) == Distinct(a)
    requires var d := Distinct(a + b[..0]);
      Distinct(a + b) == if d != [] && d[|d| - 1] == b[0] then d else d + [b[0]]
    ensures Distinct(a + b) == Distinct(a) + Onward(a, b, Distinct(b))
  {
    hide Distinct, NoRepeats;
    DistinctFacts(a);
    NoneDistinct<T>();
  }

  lemma OneMoreAdded<T>(a: seq<T>, b: seq<T>)
    requires |b| > 1
    requires var n := |b| - 1; var c := b[..n]; var d, e := Distinct(c), Distinct(a + c);
      && d != [] && d[0] == b[0] && e == Distinct(a) + Onward(a, c, d)
      && Distinct(b) == (if d[|d| - 1] == b[n] then d else d + [b[n]])
      && Distinct(a + b) == (if e != [] && e[|e| - 1] == b[n] then e else e + [b[n]])
    ensures Distinct(b)[0] == b[0] && Distinct(a + b) == Distinct(a) + Onward(a, b, Distinct(b))
  {
    hide Distinct, NoRepeats;
    var n := |b| - 1;
    var c := b[..n];
    DistinctFacts(a);
    var d := Distinct(c);
    assert c[0] == b[0];
    AddedBehind(Distinct(a), d, a != [] && a[|a| - 1] == b[0], b[n]);
  }

  /** Adding behind `a` what is added behind `d`. */
  lemma AddedBehind<T>(a: seq<T>, d: seq<T>, drop: bool, x: T)
    requires d != [] && (drop ==> a != [] && a[|a| - 1] == d[0])
    ensures var e := a + if drop then d[1..] else d; var d' := if d[|d| - 1] == x then d else d + [x];
      (if e != [] && e[|e| - 1] == x then e else e + [x]) == a + if drop then d'[1..] else d'
  {
    var o := if drop then d[1..] else d;
    var e := a + o;
    assert e != [] && e[|e| - 1] == d[|d| - 1];
    assert (d + [x])[1..] == d[1..] + [x];
    assert a + o + [x] == a + (o + [x]);
  }

  lemma {:induction false} PiecesAppend(a: seq<line>, b: seq<line>)
    ensures AllPieces(a + b) == AllPieces(a) + AllPieces(b)
  {
    hide Pieces;
    if a == [] {
      assert a + b == b;
    } else {
      assert (a + b)[1..] == a[1..] + b;
      PiecesAppend(a[1..], b);
    }
  }

  lemma SurvivesTail(h: seq<line>)
    requires h != [] && AllSurvive(h)
    ensures AllSurvive(h[1..])
  {
    hide Storable, Strip;
    forall j | 0 <= j < |h[1..]| ensures Survives(h[1..], j) { assert Survives(h, j + 1); }
  }

  lemma RepeatsTail(h: seq<line>, n: nat)
    requires NoRepeats(h) && n <= |h|
    ensures NoRepeats(h[n..])
  {
    forall i | 0 < i < |h[n..]| ensures h[n..][i - 1] != h[n..][i] { assert h[n + i - 1] != h[n + i]; }
  }

  /** Lines that survive are what is left of their pieces without the repeats. */
  lemma {:induction false} SurvivorsDistinct(h: seq<line>)
    requires NoRepeats(h) && AllSurvive(h)
    ensures Distinct(AllPieces(h)) == h && (if h == [] then AllPieces(h) == [] else AllPieces(h) != [] && AllPieces(h)[0] == h[0])
  {
    hide Distinct, Escape, Strip;
    if h == [] {
      NoneDistinct<line>();
    } else {
      var s, t := h[0], h[1..];
      SurvivesTail(h);
      RepeatsTail(h, 1);
      SurvivorsDistinct(t);
      assert Survives(h, 0);
      DistinctAppend(Pieces(s), AllPieces(t));
      PieceDistinct(s);
      if t != [] { assert h[0] != h[1]; }
    }
  }

  lemma PieceDistinct(s: line)
    ensures Storable(s) ==> Distinct(Pieces(s)) == [s]
    ensures |Escape(s)| == LIMIT ==> Distinct(Pieces(s)) == [Strip(s), []]
  {
    hide Escape, Strip;
    NoneDistinct<line>();
    if Storable(s) {
      DistinctNext([s]);
      assert [s][..0] == [];
    } else if |Escape(s)| == LIMIT {
      NotEmpty(s);
      var xs := [Strip(s), []];
      DistinctNext(xs);
      assert xs[..1] == [Strip(s)];
      DistinctNext([Strip(s)]);
      assert [Strip(s)][..0] == [];
    }
  }

  /** The last line that does not survive. */
  lemma {:induction false} LastLost(h: seq<line>) returns (j: nat)
    requires !AllSurvive(h)
    ensures j < |h| && !Survives(h, j) && AllSurvive(h[j + 1..])
    decreases |h|
  {
    hide Storable, Strip;
    if AllSurvive(h[1..]) {
      j := 0;
      if Survives(h, 0) {
        forall i | 0 <= i < |h| ensures Survives(h, i) {
          if i > 0 { assert Survives(h[1..], i - 1); }
        }
      }
    } else {
      var i := LastLost(h[1..]);
      j := i + 1;
      assert h[1..][i + 1..] == h[j + 1..];
    }
  }

  /** Then something else stands where the line should. */
  lemma {:induction false} LostDiffers(h: seq<line>, max: nat)
    requires NoRepeats(h) && (forall s :: s in h ==> Fits(s)) && !AllSurvive(h) && |h| <= max
    ensures Newest(Distinct(AllPieces(h)), max) != h
  {
    hide Distinct, NoRepeats, Newest, AllPieces, Escape, Strip, Fits, AllSurvive, Survives;
    var j := LastLost(h);
    var t := h[j + 1..];
    assert h[j] in h;
    RepeatsTail(h, j + 1);
    SurvivorsDistinct(t);
    var x := LostPieces(h, j);
    NewestAt(Distinct(AllPieces(h)), max, h, j);
  }

  lemma NewestAt<T>(d: seq<T>, max: nat, h: seq<T>, j: nat)
    requires j < |h|
    ensures Newest(d, max) == h ==> |d| >= |h| && d[|d| - |h| + j] == h[j]
  {
  }

  /** The pieces up to a lost line end in its first piece or, if the next line does not hide it, in the
      empty one; both differ from the line. */
  lemma LostPieces(h: seq<line>, j: nat) returns (x: seq<line>)
    requires j < |h| && Fits(h[j]) && !Survives(h, j) && AllSurvive(h[j + 1..]) && NoRepeats(h[j + 1..])
    ensures x != [] && x[|x| - 1] != h[j] && Distinct(AllPieces(h)) == x + h[j + 1..]
  {
    hide Distinct, NoRepeats, AllPieces, Escape, Strip, AllSurvive;
    var l, t := h[j], h[j + 1..];
    NotEmpty(l);
    SurvivorsDistinct(t);
    LostAt(h, j);
    x := LostCore(AllPieces(h[..j]) + [Strip(l)], AllPieces(t), t, l);
  }

  lemma LostAt(h: seq<line>, j: nat)
    requires j < |h| && !Storable(h[j])
    ensures AllPieces(h) == AllPieces(h[..j]) + [Strip(h[j])] + [[]] + AllPieces(h[j + 1..])
  {
    hide AllPieces, Storable, Strip;
    var x, t := h[j], h[j + 1..];
    assert h == h[..j] + [x] + t;
    PiecesAppend(h[..j] + [x], t);
    PiecesAppend(h[..j], [x]);
    OnePiece(x);
    ListsJoin(AllPieces(h[..j]), Strip(x), [], AllPieces(t));
  }

  lemma OnePiece(x: line)
    ensures AllPieces([x]) == Pieces(x)
  {
    hide Pieces;
    assert [x][1..] == [] && AllPieces([]) == [] && Pieces(x) + [] == Pieces(x);
  }

  lemma ListsJoin<T>(a: seq<T>, x: T, y: T, b: seq<T>)
    ensures a + [x, y] + b == a + [x] + [y] + b
  {
  }

  lemma LostCore(first: seq<line>, p: seq<line>, t: seq<line>, l: line) returns (x: seq<line>)
    requires first != [] && first[|first| - 1] == Strip(l) && Strip(l) != [] && l != []
    requires Distinct(p) == t && (t != [] ==> p != [] && p[0] == t[0]) && (t == [] ==> p == [])
    requires t != [] && t[0] == [] ==> Strip(l) != l
    ensures x != [] && x[|x| - 1] != l && Distinct(first + [[]] + p) == x + t
  {
    hide Distinct, NoRepeats, Strip;
    DistinctFacts(first);
    OneDistinct<line>([]);
    DistinctAppend(first, [[]]);
    DistinctAppend(first + [[]], p);
    var d := Distinct(first);
    EndsApart(d, t);
    x := if t != [] && t[0] == [] then d else d + [[]];
  }

  lemma EndsApart<T>(d: seq<T>, t: seq<T>)
    ensures t != [] ==> d + [t[0]] + t[1..] == d + t
  {
  }

  lemma OneDistinct<T>(s: T)
    ensures Distinct([s]) == [s]
  {
    NoneDistinct<T>();
    DistinctNext([s]);
    assert [s][..0] == [];
  }

  /** Saving a history and loading it gives it back exactly when each of its lines survives. */
  lemma {:induction false} HistoryIff(h: seq<line>, max: nat)
    requires NoRepeats(h) && |h| <= max && Clean(h)
    ensures Loaded([], max, Chunks(Saved(h))) == Some(h) <==> AllSurvive(h)
  {
    hide Distinct, Escape, Strip, Loaded, Chunks, Saved, AllPieces, AddedAll;
    if forall s :: s in h ==> Fits(s) {
      LoadAddsPieces([], max, h);
      if h == [] {
        NothingLoaded([], max);
      } else {
        KeepsNewest(max, AllPieces(h));
        if AllSurvive(h) { SurvivorsDistinct(h); } else { LostDiffers(h, max); }
      }
    } else {
      var s :| s in h && !Fits(s);
      NotSurviving(h, s);
      OnlyFitting(h, max);
    }
  }

  /** Only lines that fit are ever loaded. */
  lemma {:induction false} OnlyFitting(h: seq<line>, max: nat)
    requires Clean(h)
    ensures Loaded([], max, Chunks(Saved(h))) == Some(h) ==> forall s :: s in h ==> Fits(s)
  {
    hide Escape, Loaded, Chunks, Saved, AddedAll, Fits;
    if Loaded([], max, Chunks(Saved(h))) == Some(h) {
      var xs := HistoryPieces(h, [], max);
      OnlyAdded([], max, xs);
    }
  }

  lemma NotSurviving(h: seq<line>, s: line)
    requires s in h && !Fits(s)
    ensures !AllSurvive(h)
  {
    hide Escape, Strip;
    var j :| 0 <= j < |h| && h[j] == s;
    assert !Survives(h, j);
  }

  /** Saving and loading is the identity when every line can be stored. */
  lemma {:induction false} LoadSaved(h: seq<line>, max: nat)
    requires NoRepeats(h) && |h| <= max && Clean(h) && forall s :: s in h ==> Storable(s)
    ensures Loaded([], max, Chunks(Saved(h))) == Some(h)
  {
    hide Loaded, Chunks, Saved, Escape, Strip;
    HistoryIff(h, max);
  }

  /** A single line comes back exactly when its escaped form and its line end fit the read buffer. */
  lemma {:induction false} OneLineIff(s: line, max: nat)
    requires 0 !in s && max > 0
    ensures Loaded([], max, Chunks(Saved([s]))) == Some([s]) <==> Storable(s)
  {
    hide Loaded, Chunks, Saved, Escape, Strip;
    HistoryIff([s], max);
    assert AllSurvive([s]) <==> Survives([s], 0);
  }
}
