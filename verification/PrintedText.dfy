/** The printed characters give the instructions back exactly when every operand is plain. */
module PrintedText {
  import opened Options
  import opened Ifjcode
  import opened Spelling

  // ----- one word

  lemma AfterBack(p: string, t: string)
    requires p != ""
    ensures After(p, p + t) == Some(t) && (p + t)[0] == p[0]
    ensures Word(p + t) <==> Word(p) && Word(t)
  {
    if Word(p + t) {
      forall c | c in p ensures Visible(c) { assert c in p + t; }
      forall c | c in t ensures Visible(c) { assert c in p + t; }
    }
    assert (p + t)[|p|..] == t;
  }

  lemma NoSymb(w: string, f: Floats)
    requires w != "" && w[0] !in "Gifsb"
    ensures ReadSymb(w, f) == None
  {
    hide Word, Signed, ReadInt, ReadFloat;
    assert w[0] != 'G' && w[0] != 'i' && w[0] != 'f' && w[0] != 's' && w[0] != 'b' by {
      var t := "Gifsb";
      assert t[0] in t && t[1] in t && t[2] in t && t[3] in t && t[4] in t;
    }
  }

  lemma SymbBack(s: Symb, f: Floats)
    ensures ReadSymb(Operand(s, f), f) == Some(s) <==> PlainSymb(s, f)
  {
    match s
    case Var(x) => AfterBack("GF@", x);
    case Const(v) => LiteralBack(v, false, f);
    case Neg(v) => LiteralBack(v, true, f);
  }

  lemma LiteralBack(v: Value, minus: bool, f: Floats)
    ensures var s := if minus then Neg(v) else Const(v);
      ReadSymb(Literal(v, if minus then "-" else "", f), f) == Some(s) <==> PlainSymb(s, f)
  {
    hide ReadSymb, Word, Decimal;
    var sign := if minus then "-" else "";
    match v
    case IntV(n) => IntBack(n, sign, f);
    case FloatV(r) => FloatBack(r, sign, f);
    case StrV(x) =>
      StringBack(sign + x, f);
      assert "string@" + sign + x == "string@" + (sign + x);
      assert !minus ==> sign + x == x;
    case BoolV(b) => BoolBack(b, sign, f);
  }

  lemma IntBack(n: int, sign: string, f: Floats)
    requires sign == "" || sign == "-"
    ensures ReadSymb("int@" + sign + Decimal(n), f) == Some(if sign == "" then Const(IntV(n)) else Neg(IntV(n)))
       <==> n >= 0
  {
    hide Word, Number, Decimal, ReadFloat;
    var u := sign + Decimal(n);
    assert "int@" + sign + Decimal(n) == "int@" + u;
    AfterBack("int@", u);
    DecimalBack(n);
    assert if sign == "" then u == Decimal(n) else u[1..] == Decimal(n);
  }

  lemma FloatBack(r: real, sign: string, f: Floats)
    requires sign == "" || sign == "-"
    ensures ReadSymb("float@" + sign + f.show(r), f) ==
      Signed(sign == "-" || Minus(f.show(r)),
        ReadFloat(if sign == "" then Unsigned(f.show(r)) else f.show(r), f))
  {
    hide Word, ReadInt, ReadFloat;
    var u := sign + f.show(r);
    assert "float@" + sign + f.show(r) == "float@" + u;
    AfterBack("float@", u);
    assert if sign == "" then u == f.show(r) else u[1..] == f.show(r);
  }

  lemma StringBack(t: string, f: Floats)
    ensures ReadSymb("string@" + t, f) == if Word(t) then Some(Const(StrV(t))) else None
  {
    hide Word, Signed, ReadInt, ReadFloat;
    AfterBack("string@", t);
    Prefixes();
  }

  lemma BoolBack(b: bool, sign: string, f: Floats)
    requires sign == "" || sign == "-"
    ensures var w := "bool@" + sign + if b then "true" else "false";
      ReadSymb(w, f) == if sign == "" then Some(Const(BoolV(b))) else None
  {
    hide Word, Signed, ReadInt, ReadFloat;
    var w := "bool@" + sign + if b then "true" else "false";
    assert w[0] == 'b' && (sign == "-" ==> w[5] == '-');
    if sign == "" {
      assert w == "bool@" + if b then "true" else "false";
      assert b ==> w == "bool@true";
      assert !b ==> w == "bool@false";
    } else {
      assert "bool@true"[5] == 't' && "bool@false"[5] == 'f';
    }
  }

  lemma Prefixes()
    ensures Word("string@") && Word("GF@") && Word("int@") && Word("float@") && Word("bool@") && Word("-")
    ensures Word("true") && Word("false") && Word("")
  {
  }

  lemma LabelBack(l: Label, f: Floats)
    ensures var w := LabelName(l);
      w != "" && Word(w) && w[0] !in "Gifsb" && ReadLabel(w) == Some(l)
  {
    hide Word, Number, Digits, Decimal, Whole;
    LabelWords();
    match l
    case ScopeLabel =>
    case ResIf(n) => DigitsBack(n); AfterBack("RES_IF_", Digits(n));
    case ResElse(n) =>
      DigitsBack(n);
      AfterBack("RES_ELSE_", Digits(n));
      assert "RES_IF_"[4] != LabelName(l)[4];
    case EndIf(n) => DigitsBack(n); AfterBack("END_IF_", Digits(n));
    case LoopLabel(k) => DecimalBack(k); AfterBack("LOOP_", Decimal(k));
  }

  lemma LabelWords()
    ensures Word("Scope") && Word("RES_IF_") && Word("RES_ELSE_") && Word("END_IF_") && Word("LOOP_")
  {
  }

  lemma NameAlone(m: Mnemonic)
    ensures var w := Name(m); w[0] !in "Gifsb" && ReadLabel(w) == None
  {
    var w := Name(m);
    assert m == M_LABEL ==> w[1] != "LOOP_"[1];
  }

  /** A word reads back exactly when it is plain. */
  lemma PieceBack(p: Piece, f: Floats)
    requires p != EOL
    ensures ReadWord(Spell(p, f), f) == Some(p) <==> Plain(p, f)
    ensures p.Op? ==> ReadWord(Spell(p, f), f) == Some(p)
  {
    hide ReadSymb, ReadLabel, ReadName, Name, LabelName, Operand, PlainSymb, Word;
    var w := Spell(p, f);
    match p
    case Sym(s) => SymbBack(s, f);
    case Lbl(l) => LabelBack(l, f); NoSymb(w, f);
    case Op(m) => NameBack(m); NameAlone(m); NoSymb(w, f);
    case Header => OtherBack(Spell(p, f), f);
    case Temp(first) => OtherBack(Spell(p, f), f);
  }

  lemma OtherBack(w: string, f: Floats)
    requires w == ".IFJcode17" || w == "TF@temp_bool_1" || w == "TF@temp_bool_2"
    ensures w != "" && Word(w) && ReadSymb(w, f) == None && ReadLabel(w) == None && ReadName(w) == None
  {
    hide ReadSymb, ReadLabel, ReadName;
    NoSymb(w, f);
    OtherNames(w);
  }

  lemma OtherNames(w: string)
    requires w == ".IFJcode17" || w == "TF@temp_bool_1" || w == "TF@temp_bool_2"
    ensures ReadLabel(w) == None && ReadName(w) == None
  {
    hide Number, Whole, Labelled;
  }

  // ----- one word after the other

  predicate Spelled(p: Piece, f: Floats) { p != EOL ==> Spell(p, f) != "" && Word(Spell(p, f)) }

  lemma LiteralSpelled(v: Value, minus: bool, f: Floats)
    requires Wordy(f) && (v.StrV? ==> Word(v.text))
    ensures Word(Literal(v, if minus then "-" else "", f)) && Literal(v, if minus then "-" else "", f) != ""
  {
    hide Word, Decimal;
    var sign := if minus then "-" else "";
    Prefixes();
    match v
    case IntV(n) => DecimalBack(n); AfterBack("int@" + sign, Decimal(n)); AfterBack("int@", sign);
    case FloatV(r) => AfterBack("float@" + sign, f.show(r)); AfterBack("float@", sign);
    case StrV(x) => AfterBack("string@" + sign, x); AfterBack("string@", sign);
    case BoolV(b) => AfterBack("bool@" + sign, if b then "true" else "false"); AfterBack("bool@", sign);
  }

  lemma SymbSpelled(s: Symb, f: Floats)
    requires Wordy(f) && (s.Var? ==> Word(s.name)) && (!s.Var? && s.val.StrV? ==> Word(s.val.text))
    ensures Spelled(Sym(s), f)
  {
    hide Word;
    match s
    case Var(x) => Prefixes(); AfterBack("GF@", x);
    case Const(v) => LiteralSpelled(v, false, f);
    case Neg(v) => LiteralSpelled(v, true, f);
  }

  lemma PlainSpelled(p: Piece, f: Floats)
    requires Plain(p, f) && Wordy(f)
    ensures Spelled(p, f)
  {
    hide Word, Operand, LabelName, Name;
    match p
    case Sym(s) => SymbSpelled(s, f);
    case Lbl(l) => LabelBack(l, f);
    case Op(m) => NameBack(m);
    case Header => OtherBack(Spell(p, f), f);
    case Temp(_) => OtherBack(Spell(p, f), f);
    case EOL =>
  }

  /** Whatever is read could have been printed as a word. */
  lemma ReadSpelled(w: string, f: Floats)
    requires Wordy(f) && ReadWord(w, f).Some?
    ensures Spelled(ReadWord(w, f).value, f)
  {
    hide Word, ReadLabel, ReadName;
    var p := ReadWord(w, f).value;
    if p.Sym? {
      SymbRead(w, f);
      SymbSpelled(p.s, f);
    } else {
      PlainSpelled(p, f);
    }
  }

  lemma SymbRead(w: string, f: Floats)
    requires ReadSymb(w, f).Some?
    ensures var s := ReadSymb(w, f).value;
      (s.Var? ==> Word(s.name)) && (!s.Var? && s.val.StrV? ==> Word(s.val.text))
  {
    hide Number;
    if Word(w) {
      forall p | After(p, w).Some? ensures Word(After(p, w).value) {
        forall c | c in After(p, w).value ensures Visible(c) { assert c in w; }
      }
    }
  }

  function ReadOne(p: Piece, f: Floats): Option<seq<Piece>> {
    if p == EOL then Some([EOL]) else Ended(Spell(p, f), f)
  }

  /** The words read back one by one. */
  function Reads(ps: seq<Piece>, f: Floats): Option<seq<Piece>> {
    if ps == [] then Some([]) else Both(ReadOne(ps[0], f), Reads(ps[1..], f))
  }

  lemma {:induction false} ScanWord(u: string, w: string, rest: string, f: Floats)
    requires Word(u)
    ensures Scan(u + rest, w, f) == Scan(rest, w + u, f)
    decreases |u|
  {
    hide Ended;
    if u == "" {
      assert u + rest == rest && w + u == w;
    } else {
      assert u[0] in u && Visible(u[0]);
      assert (u + rest)[1..] == u[1..] + rest;
      ScanWord(u[1..], w + [u[0]], rest, f);
      assert w + [u[0]] + u[1..] == w + u;
    }
  }

  lemma BothNothing(a: Option<seq<Piece>>)
    ensures Both(a, Some([])) == a == Both(Some([]), a)
  {
    if a.Some? { assert a.value + [] == a.value == [] + a.value; }
  }

  lemma BothTogether(a: Option<seq<Piece>>, b: Option<seq<Piece>>, c: Option<seq<Piece>>)
    ensures Both(Both(a, b), c) == Both(a, Both(b, c))
  {
    if a.Some? && b.Some? && c.Some? { assert a.value + b.value + c.value == a.value + (b.value + c.value); }
  }

  lemma ScanEnd(w: string, rest: string, f: Floats)
    requires rest == "" || rest[0] == ' ' || rest[0] == '\n'
    ensures Scan(rest, w, f) == Both(Ended(w, f), Scan(rest, "", f))
  {
    hide ReadWord, Both;
    var e := Ended(w, f);
    BothNothing(e);
    BothNothing(Some([EOL]));
    if rest != "" {
      var more := Scan(rest[1..], "", f);
      BothNothing(more);
      BothTogether(e, Some([EOL]), more);
    }
  }

  lemma ScanOne(p: Piece, rest: string, f: Floats)
    requires Spelled(p, f)
    requires p == EOL || rest == "" || rest[0] == ' ' || rest[0] == '\n'
    ensures Scan(Spell(p, f) + rest, "", f) == Both(ReadOne(p, f), Scan(rest, "", f))
  {
    hide ReadWord, Both;
    if p == EOL {
      assert (Spell(p, f) + rest)[1..] == rest;
      BothNothing(Some([EOL]));
    } else {
      var w := Spell(p, f);
      ScanWord(w, "", rest, f);
      assert "" + w == w;
      ScanEnd(w, rest, f);
    }
  }

  lemma ScanGap(rest: string, f: Floats)
    ensures Scan(" " + rest, "", f) == Scan(rest, "", f)
  {
    hide ReadWord, Both;
    assert (" " + rest)[1..] == rest;
    BothNothing(Scan(rest, "", f));
  }

  /** Words that are words are taken apart again. */
  lemma {:induction false} ScanChars(ps: seq<Piece>, f: Floats)
    requires forall p :: p in ps ==> Spelled(p, f)
    ensures Scan(Chars(ps, f), "", f) == Reads(ps, f)
  {
    hide Scan, Spell, Both, Spelled, ReadOne;
    if ps == [] {
      ScanNothing(f);
    } else {
      var p, t := ps[0], ps[1..];
      assert p in ps;
      var rest := Gap(ps) + Chars(t, f);
      assert Spell(p, f) + Gap(ps) + Chars(t, f) == Spell(p, f) + rest;
      RestStarts(ps, f);
      ScanOne(p, rest, f);
      if Gap(ps) == " " { ScanGap(Chars(t, f), f); } else { assert rest == Chars(t, f); }
      ScanChars(t, f);
    }
  }

  lemma ScanNothing(f: Floats)
    ensures Scan("", "", f) == Some([])
  {
  }

  lemma RestStarts(ps: seq<Piece>, f: Floats)
    requires ps != []
    ensures var rest := Gap(ps) + Chars(ps[1..], f); ps[0] == EOL || rest == "" || rest[0] == ' ' || rest[0] == '\n'
  {
    hide Spell;
    if |ps| > 1 && ps[1] == EOL { EolSpell(f); }
  }

  lemma EolSpell(f: Floats)
    ensures Spell(EOL, f) == "\n"
  {
  }

  // ----- the whole output

  lemma {:induction false} ReadsAppend(a: seq<Piece>, b: seq<Piece>, f: Floats)
    ensures Reads(a + b, f) == Both(Reads(a, f), Reads(b, f))
  {
    hide Both, ReadOne;
    if a == [] {
      assert a + b == b;
      BothNothing(Reads(b, f));
    } else {
      assert (a + b)[1..] == a[1..] + b;
      ReadsAppend(a[1..], b, f);
      BothTogether(ReadOne(a[0], f), Reads(a[1..], f), Reads(b, f));
    }
  }

  lemma {:induction false} ReadsLength(ps: seq<Piece>, f: Floats)
    requires Reads(ps, f).Some? && forall p :: p in ps ==> Spelled(p, f)
    ensures |Reads(ps, f).value| == |ps|
  {
    hide ReadWord, Spell;
    if ps != [] {
      assert ps[0] in ps;
      ReadsLength(ps[1..], f);
    }
  }

  /** Words read back as they are exactly when they are plain. */
  lemma {:induction false} ReadsPlain(ps: seq<Piece>, f: Floats)
    requires forall p :: p in ps ==> Spelled(p, f)
    ensures Reads(ps, f) == Some(ps) <==> forall p :: p in ps ==> Plain(p, f)
  {
    hide ReadWord, Spell, Plain, Reads;
    if ps == [] {
      ReadsNothing(f);
    } else {
      var p, t := ps[0], ps[1..];
      assert p in ps && ps == [p] + t;
      ReadsPlain(t, f);
      ReadsFront(ps, f);
      if p == EOL { EolPlain(f); } else { PieceBack(p, f); }
    }
  }

  lemma ReadsNothing(f: Floats)
    ensures Reads([], f) == Some([])
  {
  }

  lemma ReadsFront(ps: seq<Piece>, f: Floats)
    requires ps != []
    ensures Reads(ps, f) == Both(ReadOne(ps[0], f), Reads(ps[1..], f))
  {
  }

  lemma EolPlain(f: Floats)
    ensures Plain(EOL, f)
  {
  }

  predicate AllPlain(ps: seq<Piece>, f: Floats) { forall p :: p in ps ==> Plain(p, f) }

  lemma {:induction false} TextPlain(code: seq<Instr>, f: Floats)
    ensures AllPlain(Text(code), f) <==> PlainCode(code, f)
  {
    hide Line, Plain;
    if code != [] {
      var m := |code| - 1;
      TextPlain(code[..m], f);
      assert code == code[..m] + [code[m]];
    }
  }

  lemma OutputPlain(code: seq<Instr>, f: Floats)
    ensures AllPlain(Output(code), f) <==> PlainCode(code, f)
  {
    hide Plain, Text, PlainCode;
    TextPlain(code, f);
    EolPlain(f);
    assert Plain(Header, f) by { HeaderPlain(f); }
    var a, b := [Header, EOL], [EOL];
    if AllPlain(Output(code), f) {
      forall p | p in Text(code) ensures Plain(p, f) { assert p in Output(code); }
    }
  }

  lemma HeaderPlain(f: Floats)
    ensures Plain(Header, f)
  {
  }

  lemma EndAssembled()
    ensures Assemble([EOL]) == Some([])
  {
    assert [EOL][1..] == [] && Assemble([]) == Some([]);
  }

  /** Plain operands are read back. */
  lemma LoadPlain(code: seq<Instr>, f: Floats)
    requires PlainCode(code, f) && Wordy(f)
    ensures Load(Chars(Output(code), f), f) == Some(code)
  {
    hide Scan, Chars, Reads, Text, Assemble, Plain, Spelled, PlainCode, Wordy;
    var ps := Output(code);
    OutputPlain(code, f);
    forall p | p in ps ensures Spelled(p, f) { PlainSpelled(p, f); }
    ScanChars(ps, f);
    ReadsPlain(ps, f);
    assert ps[2..] == Text(code) + [EOL];
    EndAssembled();
    TextDecodes(code, [EOL]);
  }

  lemma {:induction false} ScanSpelled(s: string, w: string, f: Floats)
    requires Wordy(f) && Scan(s, w, f).Some?
    ensures forall p :: p in Scan(s, w, f).value ==> Spelled(p, f)
    decreases |s|
  {
    hide ReadWord, Spelled, Wordy;
    EndedSpelled(w, f);
    if s != "" {
      assert Spelled(EOL, f) by { EolSpelled(f); }
      if s[0] == '\n' || s[0] == ' ' || s[0] == '\t' {
        ScanSpelled(s[1..], "", f);
      } else if s[0] == '#' {
        ScanSpelled(Skip(s[1..]), "", f);
      } else {
        ScanSpelled(s[1..], w + [s[0]], f);
      }
    }
  }

  lemma EolSpelled(f: Floats)
    ensures Spelled(EOL, f)
  {
  }

  lemma EndedSpelled(w: string, f: Floats)
    requires Wordy(f)
    ensures Ended(w, f).Some? ==> forall p :: p in Ended(w, f).value ==> Spelled(p, f)
  {
    hide ReadWord, Spelled, Wordy;
    if w != "" && ReadWord(w, f).Some? { ReadSpelled(w, f); }
  }

  lemma {:induction false} LineEndAt(ps: seq<Piece>)
    ensures LineEnd(ps) < |ps| ==> ps[LineEnd(ps)] == EOL
    ensures ps != [] && ps[0] != EOL ==> LineEnd(ps) > 0
  {
    if ps != [] && ps[0] != EOL { LineEndAt(ps[1..]); }
  }

  /** The first line that is read is the line of the first instruction. */
  lemma AssembledLine(ps: seq<Piece>, code: seq<Instr>)
    requires Assemble(ps) == Some(code) && ps != [] && ps[0] != EOL
    ensures code != [] && Line(code[0]) != [] && Line(code[0]) <= ps
    ensures Assemble(ps[|Line(code[0])|..]) == Some(code[1..])
  {
    hide Parse, Line, LineEnd;
    LineEndAt(ps);
    var n := LineEnd(ps);
    ParsedLine(ps[..n]);
    var i := Parse(ps[..n]).value;
    assert Line(i) == ps[..n] + [EOL] == ps[..n + 1];
    assert code == [i] + code[1..];
  }

  /** Every word of an instruction was there to be read. */
  lemma {:induction false} AssembleParts(ps: seq<Piece>, code: seq<Instr>)
    requires Assemble(ps) == Some(code)
    ensures forall i, p :: i in code && p in Line(i) ==> p in ps
    decreases |ps|
  {
    hide Parse, Line;
    if ps != [] {
      if ps[0] == EOL {
        AssembleParts(ps[1..], code);
        assert ps == [ps[0]] + ps[1..];
      } else {
        AssembledLine(ps, code);
        var n := |Line(code[0])|;
        assert ps == ps[..n] + ps[n..] && code == [code[0]] + code[1..];
        AssembleParts(ps[n..], code[1..]);
      }
    }
  }

  /** What is read is what was printed, word for word. */
  lemma {:induction false} Aligned(code: seq<Instr>, ps: seq<Piece>, f: Floats)
    requires Reads(Text(code) + [EOL], f) == Some(ps) && Assemble(ps) == Some(code)
    requires forall p :: p in Text(code) ==> Spelled(p, f)
    ensures PlainCode(code, f)
    decreases |code|
  {
    hide Reads, Line, Spelled, Plain, Assemble;
    if code != [] {
      var i, more := code[0], Text(code[1..]) + [EOL];
      TextFront(code);
      assert Text(code) + [EOL] == Line(i) + more;
      ReadsAppend(Line(i), more, f);
      var qs := Reads(Line(i), f).value;
      ReadsLength(Line(i), f);
      FirstRead(i, f);
      assert ps == qs + Reads(more, f).value;
      AssembledLine(ps, code);
      assert qs == ps[..|qs|] == Line(i);
      ReadsPlain(Line(i), f);
      assert ps[|qs|..] == Reads(more, f).value;
      Aligned(code[1..], ps[|qs|..], f);
      assert code == [i] + code[1..];
    }
  }

  lemma FirstRead(i: Instr, f: Floats)
    requires Reads(Line(i), f).Some?
    ensures Line(i) != [] && Reads(Line(i), f).value != [] && Reads(Line(i), f).value[0] != EOL
  {
    hide ReadWord, Spell;
    var p := Line(i)[0];
    assert p.Op?;
    PieceBack(p, f);
    assert ReadOne(p, f) == Some([p]) by { OpRead(p, f); }
  }

  lemma OpRead(p: Piece, f: Floats)
    requires p.Op?
    ensures ReadOne(p, f) == Some([p])
  {
    hide ReadWord;
    PieceBack(p, f);
    NameBack(p.m);
  }

  /** The characters give the instructions back exactly when every operand is plain. */
  lemma LoadIff(code: seq<Instr>, f: Floats)
    requires Wordy(f)
    ensures Load(Chars(Output(code), f), f) == Some(code) <==> PlainCode(code, f)
  {
    if PlainCode(code, f) { LoadPlain(code, f); }
    if Load(Chars(Output(code), f), f) == Some(code) { LoadedPlain(code, f); }
  }

  lemma LoadedPlain(code: seq<Instr>, f: Floats)
    requires Wordy(f) && Load(Chars(Output(code), f), f) == Some(code)
    ensures PlainCode(code, f)
  {
    hide Scan, Chars, Reads, Text, Assemble, Line, Plain, Spelled, PlainCode, Wordy;
    var out := Output(code);
    var s := Chars(out, f);
    ScanSpelled(s, "", f);
    var ps := Scan(s, "", f).value;
    AssembleParts(ps[2..], code);
    forall i, p | i in code && p in Line(i) ensures Spelled(p, f) { assert p in ps[2..]; }
    TextSpelled(code, f);
    OutputSpelled(code, f);
    ScanChars(out, f);
    assert out == [Header, EOL] + (Text(code) + [EOL]);
    ReadsAppend([Header, EOL], Text(code) + [EOL], f);
    OpeningRead(f);
    assert ps == [Header, EOL] + Reads(Text(code) + [EOL], f).value;
    assert ps[2..] == Reads(Text(code) + [EOL], f).value;
    Aligned(code, ps[2..], f);
  }

  lemma OpeningRead(f: Floats)
    ensures Reads([Header, EOL], f) == Some([Header, EOL])
  {
    hide ReadWord;
    PieceBack(Header, f);
    HeaderPlain(f);
    assert ReadOne(Header, f) == Some([Header]) && [Header, EOL][1..] == [EOL] && [EOL][1..] == [];
    ReadsNothing(f);
    BothNothing(Some([EOL]));
    assert Reads([EOL], f) == Some([EOL]);
    assert [Header] + [EOL] == [Header, EOL];
    assert Reads([Header, EOL], f) == Both(Some([Header]), Some([EOL]));
  }

  lemma {:induction false} TextSpelled(code: seq<Instr>, f: Floats)
    requires forall i, p :: i in code && p in Line(i) ==> Spelled(p, f)
    ensures forall p :: p in Text(code) ==> Spelled(p, f)
  {
    hide Line, Spelled;
    if code != [] {
      var m := |code| - 1;
      TextSpelled(code[..m], f);
      assert code[m] in code;
    }
  }

  lemma OutputSpelled(code: seq<Instr>, f: Floats)
    requires forall p :: p in Text(code) ==> Spelled(p, f)
    ensures forall p :: p in Output(code) ==> Spelled(p, f)
  {
    hide Spelled, Text;
    EolSpelled(f);
    HeaderSpelled(f);
  }

  lemma HeaderSpelled(f: Floats)
    ensures Spelled(Header, f)
  {
    OtherBack(Spell(Header, f), f);
  }
}
