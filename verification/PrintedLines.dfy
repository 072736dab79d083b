/** The characters of every instruction, and those of one whole program. */
module PrintedLines {
  import opened Options
  import opened Tokens
  import opened Ast
  import opened Ifjcode
  import opened CodegenSpec
  import opened PrintedProgram
  import S = Spelling

  /** The name of a label, its number in decimal. */
  function Place(l: Label): string {
    match l
    case ScopeLabel => "Scope"
    case ResIf(n) => "RES_IF_" + S.Decimal(n)
    case ResElse(n) => "RES_ELSE_" + S.Decimal(n)
    case EndIf(n) => "END_IF_" + S.Decimal(n)
    case LoopLabel(k) => "LOOP_" + S.Decimal(k)
  }

  /** An operand behind the prefix that says what it is. */
  function Shown(a: Symb, f: floats): string {
    match a
    case Var(x) => "GF@" + x
    case Const(IntV(n)) => "int@" + S.Decimal(n)
    case Neg(IntV(n)) => "int@-" + S.Decimal(n)
    case Const(FloatV(r)) => "float@" + f.show(r)
    case Neg(FloatV(r)) => "float@-" + f.show(r)
    case Const(StrV(t)) => "string@" + t
    case Neg(StrV(t)) => "string@-" + t
    case Const(BoolV(b)) => if b then "bool@true" else "bool@false"
    case Neg(BoolV(b)) => if b then "bool@-true" else "bool@-false"
  }

  /** The text in front of the target variable of a calculation. */
  function Opening(op: Alu): string {
    match op
    case ADD => "ADD GF@"
    case SUB => "SUB GF@"
    case MUL => "MUL GF@"
    case AND => "AND GF@"
    case OR => "OR GF@"
  }

  /** What stands on the line of an instruction. */
  function OnLine(i: Instr, f: floats): string {
    match i
    case DefVar(x) => "DEFVAR GF@" + x
    case Move(x, a) => "MOVE GF@" + x + " " + Shown(a, f)
    case Calc(op, x, a, b) => Opening(op) + x + " " + Shown(a, f) + " " + Shown(b, f)
    case NotI(x, a) => "NOT GF@" + x + " " + Shown(a, f)
    case TypeOf(first, a) => "TYPE " + (if first then "TF@temp_bool_1" else "TF@temp_bool_2") + " " + Shown(a, f)
    case JumpIfTypesDiffer(l) => "JUMPIFNEQ " + Place(l) + " TF@temp_bool_1 TF@temp_bool_2"
    case Jump(l) => "JUMP " + Place(l)
    case JumpIfEq(l, a, b) => "JUMPIFEQ " + Place(l) + " " + Shown(a, f) + " " + Shown(b, f)
    case JumpIfNeq(l, a, b) => "JUMPIFNEQ " + Place(l) + " " + Shown(a, f) + " " + Shown(b, f)
    case Mark(l) => "LABEL " + Place(l)
    case CreateFrame => "CREATEFRAME"
    case DefTemp(first) => "DEFVAR " + if first then "TF@temp_bool_1" else "TF@temp_bool_2"
  }

  lemma PlaceIs(l: Label)
    ensures S.LabelName(l) == Place(l)
  {
  }

  lemma ShownIs(a: Symb, f: floats)
    ensures S.Operand(a, f) == Shown(a, f)
  {
  }

  /** Words and blanks up to the end of the line. */
  function Words(ps: seq<Piece>, f: floats): string
    requires ps != []
  {
    if |ps| == 1 then S.Spell(ps[0], f) else S.Spell(ps[0], f) + " " + Words(ps[1..], f)
  }

  lemma {:induction false} WordsLine(ps: seq<Piece>, f: floats)
    requires ps != [] && EOL !in ps
    ensures S.Chars(ps + [EOL], f) == Words(ps, f) + "\n"
  {
    hide S.Spell;
    var p := ps[0];
    assert p in ps;
    if |ps| == 1 {
      assert ps + [EOL] == [p, EOL] + [];
      WordChars(p, EOL, [], f);
      LineEndChars(f);
      assert [EOL] + [] == [EOL];
    } else {
      assert ps[1] in ps;
      WordsLine(ps[1..], f);
      assert ps + [EOL] == [p, ps[1]] + (ps[2..] + [EOL]);
      assert [ps[1]] + (ps[2..] + [EOL]) == ps[1..] + [EOL];
      WordChars(p, ps[1], ps[2..] + [EOL], f);
    }
  }

  lemma WordAlone(o: Piece, f: floats)
    ensures Words([o], f) == S.Spell(o, f)
  {
  }

  lemma WordsOne(o: Piece, p: Piece, f: floats)
    ensures Words([o, p], f) == S.Spell(o, f) + " " + S.Spell(p, f)
  {
    hide S.Spell;
    assert [o, p][1..] == [p];
  }

  lemma WordsTwo(o: Piece, p: Piece, q: Piece, f: floats)
    ensures Words([o, p, q], f) == S.Spell(o, f) + " " + (S.Spell(p, f) + " " + S.Spell(q, f))
  {
    hide S.Spell;
    assert [o, p, q][1..] == [p, q];
    WordsOne(p, q, f);
  }

  lemma WordsThree(o: Piece, p: Piece, q: Piece, r: Piece, f: floats)
    ensures Words([o, p, q, r], f) == S.Spell(o, f) + " " + (S.Spell(p, f) + " " + (S.Spell(q, f) + " " + S.Spell(r, f)))
  {
    hide S.Spell;
    assert [o, p, q, r][1..] == [p, q, r];
    WordsTwo(p, q, r, f);
  }

  lemma LineWords(i: Instr, ws: seq<Piece>, f: floats)
    requires Line(i) == ws + [EOL] && ws != [] && EOL !in ws
    ensures S.Chars(Line(i), f) == Words(ws, f) + "\n"
  {
    hide Line, Words;
    WordsLine(ws, f);
  }

  lemma Prefixed(w: string, p: string, x: string, rest: string)
    ensures w + " " + (p + x + " " + rest) == w + " " + p + x + " " + rest
    ensures w + " " + (p + x) == w + " " + p + x
  {
  }

  lemma Second(w: string, x: string, rest: string)
    ensures w + " " + (x + " " + rest) == w + " " + x + " " + rest
  {
  }

  lemma Openings()
    ensures "DEFVAR" + " " + "GF@" == "DEFVAR GF@" && "MOVE" + " " + "GF@" == "MOVE GF@"
    ensures "NOT" + " " + "GF@" == "NOT GF@"
    ensures forall op :: S.Name(M_CALC(op)) + " " + "GF@" == Opening(op)
  {
    forall op ensures S.Name(M_CALC(op)) + " " + "GF@" == Opening(op) {
      match op case ADD => case SUB => case MUL => case AND => case OR =>
    }
  }

  lemma SymbWord(a: Symb, f: floats)
    ensures S.Spell(Sym(a), f) == Shown(a, f)
  {
    hide Shown;
    ShownIs(a, f);
  }

  lemma VarWord(x: string, f: floats)
    ensures S.Spell(Sym(Var(x)), f) == "GF@" + x
  {
  }

  lemma LabelWord(l: Label, f: floats)
    ensures S.Spell(Lbl(l), f) == Place(l)
  {
    PlaceIs(l);
  }

  lemma OpWord(m: Mnemonic, f: floats)
    ensures S.Spell(Op(m), f) == S.Name(m)
  {
  }

  lemma CalcLine(op: Alu, x: string, a: Symb, b: Symb, f: floats)
    ensures S.Chars(Line(Calc(op, x, a, b)), f) == OnLine(Calc(op, x, a, b), f) + "\n"
  {
    hide S.Spell, S.Chars, Shown, S.Name, Opening, Words;
    var o, p, q, r := Op(M_CALC(op)), Sym(Var(x)), Sym(a), Sym(b);
    LineWords(Calc(op, x, a, b), [o, p, q, r], f);
    WordsThree(o, p, q, r, f);
    OpWord(M_CALC(op), f);
    VarWord(x, f);
    SymbWord(a, f);
    SymbWord(b, f);
    Openings();
    Prefixed(S.Name(M_CALC(op)), "GF@", x, Shown(a, f) + " " + Shown(b, f));
    Second(S.Name(M_CALC(op)) + " " + "GF@" + x, Shown(a, f), Shown(b, f));
  }

  lemma TargetLine(i: Instr, f: floats)
    requires i.Move? || i.NotI? || i.DefVar?
    ensures S.Chars(Line(i), f) == OnLine(i, f) + "\n"
  {
    hide S.Spell, S.Chars, Shown, Words;
    Openings();
    VarWord(i.x, f);
    match i
    case DefVar(x) =>
      LineWords(i, [Op(M_DEFVAR), Sym(Var(x))], f);
      WordsOne(Op(M_DEFVAR), Sym(Var(x)), f);
      OpWord(M_DEFVAR, f);
      Prefixed("DEFVAR", "GF@", x, "");
    case Move(x, a) =>
      LineWords(i, [Op(M_MOVE), Sym(Var(x)), Sym(a)], f);
      WordsTwo(Op(M_MOVE), Sym(Var(x)), Sym(a), f);
      OpWord(M_MOVE, f);
      SymbWord(a, f);
      Prefixed("MOVE", "GF@", x, Shown(a, f));
    case NotI(x, a) =>
      LineWords(i, [Op(M_NOT), Sym(Var(x)), Sym(a)], f);
      WordsTwo(Op(M_NOT), Sym(Var(x)), Sym(a), f);
      OpWord(M_NOT, f);
      SymbWord(a, f);
      Prefixed("NOT", "GF@", x, Shown(a, f));
  }

  lemma OneOperand(i: Instr, m: Mnemonic, p: Piece, f: floats)
    requires Line(i) == [Op(m), p, EOL] && p != EOL
    ensures S.Chars(Line(i), f) == S.Name(m) + " " + S.Spell(p, f) + "\n"
  {
    hide S.Spell, S.Chars, Words, Line, S.Name;
    assert [Op(m), p] + [EOL] == [Op(m), p, EOL];
    LineWords(i, [Op(m), p], f);
    WordsOne(Op(m), p, f);
    OpWord(m, f);
  }

  lemma JumpLine(l: Label, f: floats)
    ensures S.Chars(Line(Jump(l)), f) == OnLine(Jump(l), f) + "\n"
    ensures S.Chars(Line(Mark(l)), f) == OnLine(Mark(l), f) + "\n"
  {
    hide S.Spell, S.Chars, Place;
    LabelWord(l, f);
    OneOperand(Jump(l), M_JUMP, Lbl(l), f);
    OneOperand(Mark(l), M_LABEL, Lbl(l), f);
  }

  lemma CompareLine(i: Instr, m: Mnemonic, l: Label, a: Symb, b: Symb, f: floats)
    requires Line(i) == [Op(m), Lbl(l), Sym(a), Sym(b), EOL]
    ensures S.Chars(Line(i), f) == S.Name(m) + " " + Place(l) + " " + Shown(a, f) + " " + Shown(b, f) + "\n"
  {
    hide S.Spell, S.Chars, Shown, Words, Place, Line, S.Name;
    var o, p, q, r := Op(m), Lbl(l), Sym(a), Sym(b);
    assert [o, p, q, r] + [EOL] == [o, p, q, r, EOL];
    LineWords(i, [o, p, q, r], f);
    WordsThree(o, p, q, r, f);
    OpWord(m, f);
    LabelWord(l, f);
    SymbWord(a, f);
    SymbWord(b, f);
    Second(S.Name(m), Place(l), Shown(a, f) + " " + Shown(b, f));
    Second(S.Name(m) + " " + Place(l), Shown(a, f), Shown(b, f));
  }

  lemma EqualLine(l: Label, a: Symb, b: Symb, f: floats)
    ensures S.Chars(Line(JumpIfEq(l, a, b)), f) == OnLine(JumpIfEq(l, a, b), f) + "\n"
  {
    hide S.Chars, Shown, Place;
    CompareLine(JumpIfEq(l, a, b), M_JUMPIFEQ, l, a, b, f);
    assert "JUMPIFEQ" + " " == "JUMPIFEQ ";
  }

  lemma UnequalLine(l: Label, a: Symb, b: Symb, f: floats)
    ensures S.Chars(Line(JumpIfNeq(l, a, b)), f) == OnLine(JumpIfNeq(l, a, b), f) + "\n"
  {
    hide S.Chars, Shown, Place;
    CompareLine(JumpIfNeq(l, a, b), M_JUMPIFNEQ, l, a, b, f);
    assert "JUMPIFNEQ" + " " == "JUMPIFNEQ ";
  }

  lemma TempWord(first: bool, f: floats)
    ensures S.Spell(Temp(first), f) == if first then "TF@temp_bool_1" else "TF@temp_bool_2"
  {
  }

  lemma FrameLine(f: floats)
    ensures S.Chars(Line(CreateFrame), f) == OnLine(CreateFrame, f) + "\n"
  {
    hide S.Spell, S.Chars, Words;
    LineWords(CreateFrame, [Op(M_CREATEFRAME)], f);
    WordAlone(Op(M_CREATEFRAME), f);
    OpWord(M_CREATEFRAME, f);
  }

  lemma DefTempLine(first: bool, f: floats)
    ensures S.Chars(Line(DefTemp(first)), f) == OnLine(DefTemp(first), f) + "\n"
  {
    hide S.Spell, S.Chars;
    OneOperand(DefTemp(first), M_DEFVAR, Temp(first), f);
    TempWord(first, f);
  }

  lemma TypeLine(first: bool, a: Symb, f: floats)
    ensures S.Chars(Line(TypeOf(first, a)), f) == OnLine(TypeOf(first, a), f) + "\n"
  {
    hide S.Spell, S.Chars, Shown, Words;
    var o, p, q := Op(M_TYPE), Temp(first), Sym(a);
    LineWords(TypeOf(first, a), [o, p, q], f);
    WordsTwo(o, p, q, f);
    OpWord(M_TYPE, f);
    TempWord(first, f);
    SymbWord(a, f);
    Second("TYPE", S.Spell(p, f), Shown(a, f));
    assert "TYPE" + " " == "TYPE ";
  }

  lemma DifferLine(l: Label, f: floats)
    ensures S.Chars(Line(JumpIfTypesDiffer(l)), f) == OnLine(JumpIfTypesDiffer(l), f) + "\n"
  {
    hide S.Spell, S.Chars, Place, Words;
    var o, p, q, r := Op(M_JUMPIFNEQ), Lbl(l), Temp(true), Temp(false);
    LineWords(JumpIfTypesDiffer(l), [o, p, q, r], f);
    WordsThree(o, p, q, r, f);
    OpWord(M_JUMPIFNEQ, f);
    LabelWord(l, f);
    TempWord(true, f);
    TempWord(false, f);
    Differing(Place(l));
  }

  lemma Differing(l: string)
    ensures "JUMPIFNEQ" + " " + (l + " " + ("TF@temp_bool_1" + " " + "TF@temp_bool_2"))
         == "JUMPIFNEQ " + l + " TF@temp_bool_1 TF@temp_bool_2"
  {
    var x, y := " " + ("TF@temp_bool_1" + " " + "TF@temp_bool_2"), " TF@temp_bool_1 TF@temp_bool_2";
    assert x == y;
    assert "JUMPIFNEQ" + " " == "JUMPIFNEQ ";
    Front("JUMPIFNEQ ", l, y);
    assert l + " " + ("TF@temp_bool_1" + " " + "TF@temp_bool_2") == l + x;
  }

  lemma Front(a: string, b: string, c: string)
    ensures a + (b + c) == a + b + c
  {
  }

  /** The characters of every instruction. */
  lemma LineShown(i: Instr, f: floats)
    ensures S.Chars(Line(i), f) == OnLine(i, f) + "\n"
  {
    hide S.Chars, OnLine, Line;
    match i
    case Calc(op, x, a, b) => CalcLine(op, x, a, b, f);
    case Move(_, _) => TargetLine(i, f);
    case NotI(_, _) => TargetLine(i, f);
    case DefVar(_) => TargetLine(i, f);
    case Jump(l) => JumpLine(l, f);
    case Mark(l) => JumpLine(l, f);
    case JumpIfEq(l, a, b) => EqualLine(l, a, b, f);
    case JumpIfNeq(l, a, b) => UnequalLine(l, a, b, f);
    case CreateFrame => FrameLine(f);
    case DefTemp(first) => DefTempLine(first, f);
    case TypeOf(first, a) => TypeLine(first, a, f);
    case JumpIfTypesDiffer(l) => DifferLine(l, f);
  }

  /** These lines, each with its end. */
  function Lines(ls: seq<string>): string {
    if ls == [] then "" else ls[0] + "\n" + Lines(ls[1..])
  }

  predicate Listed(code: seq<Instr>, ls: seq<string>, f: floats) {
    |code| == |ls| && forall k :: 0 <= k < |code| ==> OnLine(code[k], f) == ls[k]
  }

  lemma {:induction false} TextShown(code: seq<Instr>, ls: seq<string>, f: floats)
    requires Listed(code, ls, f)
    ensures S.Chars(Text(code), f) == Lines(ls)
  {
    hide S.Chars, OnLine, Line;
    if code == [] {
      NoChars(f);
    } else {
      var i := code[0];
      TextFront(code);
      TextOne(i);
      TextEnds([i]);
      CharsAppend(Line(i), Text(code[1..]), f);
      LineShown(i, f);
      TextShown(code[1..], ls[1..], f);
    }
  }

  lemma NoChars(f: floats)
    ensures S.Chars([], f) == ""
  {
  }

  /** The whole output: a header, the lines, and an empty line. */
  lemma OutputShown(code: seq<Instr>, ls: seq<string>, f: floats)
    requires Listed(code, ls, f) && code != []
    ensures S.Chars(S.Output(code), f) == ".IFJcode17\n" + Lines(ls) + "\n"
  {
    hide S.Chars, Text, Line, S.Spell, OnLine;
    TextShown(code, ls, f);
    TextEnds(code);
    LineEndChars(f);
    CharsAppend([Header, EOL] + Text(code), [EOL], f);
    CharsAppend([Header, EOL], Text(code), f);
    assert [Header, EOL] == [Header, EOL] + [] && [EOL] + [] == [EOL];
    WordChars(Header, EOL, [], f);
    HeaderWord(f);
  }

  lemma HeaderWord(f: floats)
    ensures S.Spell(Header, f) == ".IFJcode17"
  {
  }

  // ----- one whole program

  function SetInt(x: string, n: int): Stmt { Eval(Binary(Assign, Id(x), Int(n))) }

  function Declares(x: string): Stmt { Eval(Dim([Item(Decl([x], "integer"), None)])) }

  const CHOICE := If(Binary(Eq, Id("a"), Int(1)), [SetInt("res", 42)], [], Else([SetInt("res", 24)]))

  const PROGRAM := [Declares("a"), Declares("res"), SetInt("a", 1), CHOICE]

  /** The lines expected of it. */
  const EXPECTED := [
    "JUMP Scope",
    "LABEL Scope",
    "CREATEFRAME",
    "DEFVAR TF@temp_bool_1",
    "DEFVAR TF@temp_bool_2",
    "DEFVAR GF@a",
    "DEFVAR GF@res",
    "MOVE GF@a int@1",
    "TYPE TF@temp_bool_1 GF@a",
    "TYPE TF@temp_bool_2 int@1",
    "JUMPIFNEQ END_IF_0 TF@temp_bool_1 TF@temp_bool_2",
    "JUMPIFEQ RES_IF_1 GF@a int@1",
    "JUMP RES_ELSE_1",
    "LABEL RES_IF_1",
    "MOVE GF@res int@42",
    "JUMP END_IF_1",
    "LABEL RES_ELSE_1",
    "MOVE GF@res int@24",
    "JUMP END_IF_1",
    "LABEL END_IF_1",
    "LABEL END_IF_0"
  ]

  lemma SetIntCode(x: string, n: int, k: Counters)
    ensures Covered(SetInt(x, n)) && StmtCode(SetInt(x, n), k) == ([Move(x, Const(IntV(n)))], k)
  {
  }

  lemma DeclaresCode(x: string, k: Counters)
    ensures Covered(Declares(x)) && StmtCode(Declares(x), k) == ([DefVar(x)], k)
  {
    var i := Item(Decl([x], "integer"), None);
    assert [i][..0] == [] && [x][..0] == [] && DeclCode([]) == [] && DimCode([]) == [];
    assert DeclCode([x]) == [DefVar(x)];
  }

  lemma BodyOne(s: Stmt, k: Counters)
    requires Covered(s)
    ensures CoveredBody([s]) && BodyCode([s], k) == StmtCode(s, k)
  {
    hide Covered, StmtCode;
    assert [s][1..] == [] && BodyCode([], StmtCode(s, k).1) == ([], StmtCode(s, k).1);
    assert StmtCode(s, k).0 + [] == StmtCode(s, k).0;
  }

  lemma BodyNext(s: Stmt, more: seq<Stmt>, k: Counters)
    requires Covered(s) && CoveredBody(more) && StmtCode(s, k).1 == k
    ensures CoveredBody([s] + more)
    ensures BodyCode([s] + more, k) == (StmtCode(s, k).0 + BodyCode(more, k).0, BodyCode(more, k).1)
  {
    hide Covered, StmtCode;
    assert ([s] + more)[1..] == more;
  }

  const CHOSEN := TestCode(Binary(Eq, Id("a"), Int(1)), ResIf(1)) + [Jump(ResElse(1))]
    + ([Mark(ResIf(1)), Move("res", Const(IntV(42))), Jump(EndIf(1))]
    + [Mark(ResElse(1)), Move("res", Const(IntV(24))), Jump(EndIf(1))]) + [Mark(EndIf(1))]

  lemma ArmShown(n: int, l: Label, k: Counters)
    ensures CoveredBody([SetInt("res", n)])
    ensures BranchCode([SetInt("res", n)], l, k)
         == ([Mark(l), Move("res", Const(IntV(n))), Jump(EndIf(k.endIf))], k)
  {
    hide BodyCode, StmtCode;
    SetIntCode("res", n, k);
    BodyOne(SetInt("res", n), k);
    var m, j := Move("res", Const(IntV(n))), Jump(EndIf(k.endIf));
    assert [Mark(l)] + [m] + [j] == [Mark(l), m, j];
  }

  lemma ChoiceArms(k: Counters)
    requires k == Counters(1, 1, 1, 0, 0)
    ensures Covered(CHOICE)
    ensures IfArms(CHOICE, 1, k) == ([Mark(ResIf(1)), Move("res", Const(IntV(42))), Jump(EndIf(1))]
      + [Mark(ResElse(1)), Move("res", Const(IntV(24))), Jump(EndIf(1))], k)
  {
    hide BranchCode;
    ArmShown(42, ResIf(1), k);
    ArmShown(24, ResElse(1), k);
    assert BranchesCode([], 2, k) == ([], k);
    var b := BranchCode([SetInt("res", 42)], ResIf(1), k).0;
    assert b + [] == b;
  }

  lemma ChoiceTests()
    requires Covered(CHOICE)
    ensures IfTests(CHOICE, START) == TestCode(CHOICE.cond, ResIf(1)) + [Jump(ResElse(1))]
  {
    hide TestCode, StmtCode, Covered;
    var t := TestCode(CHOICE.cond, ResIf(1));
    var k := IfCounted(CHOICE, START);
    assert k.els == 1 && Fallback(CHOICE.elseIfs, CHOICE.otherwise, k) == [Jump(ResElse(1))];
    assert TestsCode(CHOICE.elseIfs, 2) == [] && t + [] == t;
  }

  lemma ChoiceCode()
    ensures Covered(CHOICE) && StmtCode(CHOICE, START).0 == CHOSEN
  {
    hide IfArms, IfTests, TestCode;
    var k := Counters(1, 1, 1, 0, 0);
    assert IfCounted(CHOICE, START) == k;
    ChoiceArms(k);
    ChoiceTests();
  }

  const CHECK := [TypeOf(true, Var("a")), TypeOf(false, Const(IntV(1))), JumpIfTypesDiffer(EndIf(0))]

  /** The instructions of the program. */
  const CODE := [Jump(ScopeLabel), Mark(ScopeLabel), CreateFrame, DefTemp(true), DefTemp(false)]
    + [DefVar("a"), DefVar("res"), Move("a", Const(IntV(1)))]
    + CHECK + [JumpIfEq(ResIf(1), Var("a"), Const(IntV(1))), Jump(ResElse(1))]
    + [Mark(ResIf(1)), Move("res", Const(IntV(42))), Jump(EndIf(1))]
    + [Mark(ResElse(1)), Move("res", Const(IntV(24))), Jump(EndIf(1))]
    + [Mark(EndIf(1)), Mark(EndIf(0))]

  lemma ChosenIs()
    ensures CHOSEN == CHECK + [JumpIfEq(ResIf(1), Var("a"), Const(IntV(1))), Jump(ResElse(1))]
      + [Mark(ResIf(1)), Move("res", Const(IntV(42))), Jump(EndIf(1))]
      + [Mark(ResElse(1)), Move("res", Const(IntV(24))), Jump(EndIf(1))] + [Mark(EndIf(1))]
  {
  }

  lemma ProgramBody()
    ensures CoveredBody(PROGRAM)
    ensures BodyCode(PROGRAM, START).0 == [DefVar("a"), DefVar("res"), Move("a", Const(IntV(1)))] + CHOSEN
  {
    hide Covered, StmtCode, BodyCode, CoveredBody, TestCode;
    var p, q, r, c := Declares("a"), Declares("res"), SetInt("a", 1), CHOICE;
    DeclaresCode("a", START);
    DeclaresCode("res", START);
    SetIntCode("a", 1, START);
    ChoiceCode();
    BodyOne(c, START);
    BodyNext(r, [c], START);
    BodyNext(q, [r] + [c], START);
    BodyNext(p, [q] + ([r] + [c]), START);
    assert [p] + ([q] + ([r] + [c])) == PROGRAM;
    var i, j, k := DefVar("a"), DefVar("res"), Move("a", Const(IntV(1)));
    assert [i] + ([j] + ([k] + CHOSEN)) == [i, j, k] + CHOSEN;
  }

  lemma ProgramIs()
    ensures CoveredBody(PROGRAM) && ProgramCode(PROGRAM) == CODE
  {
    hide BodyCode, CoveredBody, TestCode;
    ProgramBody();
    ChosenIs();
  }

  lemma NumbersShown()
    ensures S.Decimal(0) == "0" && S.Decimal(1) == "1" && S.Decimal(24) == "24" && S.Decimal(42) == "42"
  {
    assert S.Digits(2) == "2" && S.Digits(4) == "4";
  }

  /** The program of an acceptance test is printed as its expected output, and an empty line. */
  lemma AcceptanceTest(f: floats)
    ensures CoveredBody(PROGRAM) && Printed(PROGRAM, f) == ".IFJcode17\n" + Lines(EXPECTED) + "\n"
  {
    hide BodyCode, CoveredBody, ProgramCode, S.Chars, Lines, S.Output;
    ProgramIs();
    CodeListed(f);
    OutputShown(CODE, EXPECTED, f);
  }

  lemma CodeListed(f: floats)
    ensures Listed(CODE, EXPECTED, f)
  {
    hide OnLine;
    OpeningListed(f);
    CheckListed(f);
    BranchingListed(f);
    ArmsListed(f);
    ListedJoin(CODE[..8], CODE[8..11], EXPECTED[..8], EXPECTED[8..11], f);
    ListedJoin(CODE[..11], CODE[11..13], EXPECTED[..11], EXPECTED[11..13], f);
    ListedJoin(CODE[..13], CODE[13..], EXPECTED[..13], EXPECTED[13..], f);
    assert CODE[..8] + CODE[8..11] == CODE[..11] && CODE[..11] + CODE[11..13] == CODE[..13];
    assert EXPECTED[..8] + EXPECTED[8..11] == EXPECTED[..11] && EXPECTED[..11] + EXPECTED[11..13] == EXPECTED[..13];
    assert CODE[..13] + CODE[13..] == CODE && EXPECTED[..13] + EXPECTED[13..] == EXPECTED;
  }

  lemma ListedJoin(a: seq<Instr>, b: seq<Instr>, la: seq<string>, lb: seq<string>, f: floats)
    requires Listed(a, la, f) && Listed(b, lb, f)
    ensures Listed(a + b, la + lb, f)
  {
    hide OnLine;
  }

  lemma ScopeLines(f: floats)
    ensures OnLine(Jump(ScopeLabel), f) == "JUMP Scope" && OnLine(Mark(ScopeLabel), f) == "LABEL Scope"
    ensures OnLine(CreateFrame, f) == "CREATEFRAME"
    ensures OnLine(DefTemp(true), f) == "DEFVAR TF@temp_bool_1" && OnLine(DefTemp(false), f) == "DEFVAR TF@temp_bool_2"
  {
  }

  lemma VarLines(f: floats)
    ensures OnLine(DefVar("a"), f) == "DEFVAR GF@a" && OnLine(DefVar("res"), f) == "DEFVAR GF@res"
  {
  }

  lemma MoveLines(f: floats)
    ensures OnLine(Move("a", Const(IntV(1))), f) == "MOVE GF@a int@1"
    ensures OnLine(Move("res", Const(IntV(42))), f) == "MOVE GF@res int@42"
    ensures OnLine(Move("res", Const(IntV(24))), f) == "MOVE GF@res int@24"
  {
    NumbersShown();
  }

  lemma OpeningListed(f: floats)
    ensures Listed(CODE[..8], EXPECTED[..8], f)
  {
    hide OnLine;
    ScopeLines(f);
    VarLines(f);
    MoveLines(f);
  }

  lemma TypeLines(f: floats)
    ensures OnLine(TypeOf(true, Var("a")), f) == "TYPE TF@temp_bool_1 GF@a"
    ensures OnLine(TypeOf(false, Const(IntV(1))), f) == "TYPE TF@temp_bool_2 int@1"
  {
    NumbersShown();
    assert "TYPE " + "TF@temp_bool_1" + " " == "TYPE TF@temp_bool_1 ";
    assert "TYPE " + "TF@temp_bool_2" + " " == "TYPE TF@temp_bool_2 ";
  }

  lemma LeaveText()
    ensures Place(EndIf(0)) == "END_IF_0" && "JUMPIFNEQ " + "END_IF_0" == "JUMPIFNEQ END_IF_0"
  {
    NumbersShown();
  }

  lemma LeaveWords()
    ensures "JUMPIFNEQ END_IF_0" + " TF@temp_bool_1 TF@temp_bool_2"
         == "JUMPIFNEQ END_IF_0 TF@temp_bool_1 TF@temp_bool_2"
  {
  }

  lemma LeaveLine(f: floats)
    ensures OnLine(JumpIfTypesDiffer(EndIf(0)), f) == "JUMPIFNEQ END_IF_0 TF@temp_bool_1 TF@temp_bool_2"
  {
    hide Place;
    LeaveText();
    LeaveWords();
  }

  lemma CheckListed(f: floats)
    ensures Listed(CODE[8..11], EXPECTED[8..11], f)
  {
    hide OnLine;
    TypeLines(f);
    LeaveLine(f);
  }

  lemma JumpLines(f: floats)
    ensures OnLine(JumpIfEq(ResIf(1), Var("a"), Const(IntV(1))), f) == "JUMPIFEQ RES_IF_1 GF@a int@1"
    ensures OnLine(Jump(ResElse(1)), f) == "JUMP RES_ELSE_1" && OnLine(Jump(EndIf(1)), f) == "JUMP END_IF_1"
  {
    NumbersShown();
  }

  lemma BranchingListed(f: floats)
    ensures Listed(CODE[11..13], EXPECTED[11..13], f)
  {
    hide OnLine;
    JumpLines(f);
  }

  lemma LabelLines(f: floats)
    ensures OnLine(Mark(ResIf(1)), f) == "LABEL RES_IF_1" && OnLine(Mark(ResElse(1)), f) == "LABEL RES_ELSE_1"
    ensures OnLine(Mark(EndIf(1)), f) == "LABEL END_IF_1" && OnLine(Mark(EndIf(0)), f) == "LABEL END_IF_0"
  {
    NumbersShown();
  }

  lemma ArmsListed(f: floats)
    ensures Listed(CODE[13..], EXPECTED[13..], f)
  {
    hide OnLine;
    LabelLines(f);
    MoveLines(f);
    JumpLines(f);
  }
}
