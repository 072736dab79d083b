/** The compiler theorem for the characters the generator prints. */
module PrintedProgram {
  import opened Options
  import opened Tokens
  import opened Ast
  import opened Ifjcode
  import opened CodegenSpec
  import opened Codegen
  import opened Meaning
  import opened CompilerCorrect
  import opened WholeProgram
  import S = Spelling
  import PrintedText

  type floats = S.Floats

  // ----- plain programs

  predicate PlainAtom(e: Expr, f: floats) {
    match e
    case Id(x) => S.Word(x)
    case Int(n) => n >= 0
    case Double(r) => S.PlainValue(FloatV(r), f)
    case Str(t) => S.Word(t)
    case _ => true
  }

  predicate PlainExpr(e: Expr, f: floats) {
    match e
    case Binary(_, l, r) => PlainAtom(l, f) && PlainAtom(r, f)
    case Unary(_, x, _) => PlainAtom(x, f)
    case _ => PlainAtom(e, f)
  }

  predicate PlainIds(ids: seq<string>) { forall x :: x in ids ==> S.Word(x) }

  predicate PlainEval(e: Expr, f: floats) {
    match e
    case Binary(_, l, r) => PlainAtom(l, f) && PlainExpr(r, f)
    case Dim(items) => forall i :: i in items ==> PlainIds(i.decl.ids)
    case _ => true
  }

  /** No name or string has a blank, a comment or an escape character in it, and all numbers read back. */
  predicate PlainBody(body: seq<Stmt>, f: floats)
    decreases body
  {
    body == [] || (PlainStmt(body[0], f) && PlainBody(body[1..], f))
  }

  predicate PlainStmt(s: Stmt, f: floats)
    decreases s
  {
    match s
    case Eval(e) => PlainEval(e, f)
    case If(c, body, elseIfs, otherwise) =>
      && PlainExpr(c, f) && PlainBody(body, f) && PlainBranches(elseIfs, f)
      && (match otherwise case NoElse => true case Else(b) => PlainBody(b, f))
    case While(c, body) => PlainExpr(c, f) && PlainBody(body, f)
    case _ => true
  }

  predicate PlainBranches(bs: seq<Branch>, f: floats)
    decreases bs
  {
    bs == [] || (PlainBranch(bs[0], f) && PlainBranches(bs[1..], f))
  }

  predicate PlainBranch(b: Branch, f: floats)
    decreases b
  {
    PlainExpr(b.cond, f) && PlainBody(b.body, f)
  }

  // ----- plain programs have plain code

  lemma PlainJoin(a: seq<Instr>, b: seq<Instr>, f: floats)
    ensures S.PlainCode(a + b, f) <==> S.PlainCode(a, f) && S.PlainCode(b, f)
  {
    hide Line, S.Plain;
    if S.PlainCode(a + b, f) {
      forall i, p | i in a && p in Line(i) ensures S.Plain(p, f) { assert i in a + b; }
      forall i, p | i in b && p in Line(i) ensures S.Plain(p, f) { assert i in a + b; }
    }
  }

  lemma PlainThree(a: seq<Instr>, b: seq<Instr>, c: seq<Instr>, f: floats)
    ensures S.PlainCode(a + b + c, f) <==> S.PlainCode(a, f) && S.PlainCode(b, f) && S.PlainCode(c, f)
  {
    hide S.PlainCode;
    PlainJoin(a, b, f);
    PlainJoin(a + b, c, f);
  }

  /** The operands of an instruction. */
  function Symbs(i: Instr): seq<Symb> {
    match i
    case DefVar(x) => [Var(x)]
    case Move(x, a) => [Var(x), a]
    case Calc(_, x, a, b) => [Var(x), a, b]
    case NotI(x, a) => [Var(x), a]
    case TypeOf(_, a) => [a]
    case JumpIfEq(_, a, b) => [a, b]
    case JumpIfNeq(_, a, b) => [a, b]
    case _ => []
  }

  lemma PlainOne(i: Instr, f: floats)
    ensures S.PlainCode([i], f) <==> forall s :: s in Symbs(i) ==> S.PlainSymb(s, f)
  {
    hide S.PlainSymb;
    assert S.PlainCode([i], f) <==> forall p :: p in Line(i) ==> S.Plain(p, f);
    forall s ensures s in Symbs(i) <==> Sym(s) in Line(i) {
    }
  }

  lemma PlainNone(f: floats)
    ensures S.PlainCode([], f)
  {
  }

  lemma PlainOperand(e: Expr, f: floats)
    requires IsAtom(e)
    ensures S.PlainSymb(Operand(e), f) <==> PlainAtom(e, f)
    ensures e.Int? || e.Double? ==> (S.PlainSymb(Negative(e), f) <==> PlainAtom(e, f))
  {
  }

  lemma CheckPlain(a: Symb, b: Symb, f: floats)
    ensures S.PlainCode(TypeCheck(a, b), f) <==> S.PlainSymb(a, f) && S.PlainSymb(b, f)
  {
    hide S.PlainCode, S.PlainSymb;
    var x, y, z := TypeOf(true, a), TypeOf(false, b), JumpIfTypesDiffer(EndIf(0));
    PlainOne(x, f);
    PlainOne(y, f);
    PlainOne(z, f);
    PlainThree([x], [y], [z], f);
    assert [x] + [y] + [z] == [x, y, z];
  }

  lemma TargetPlain(i: Instr, x: string, f: floats)
    requires Symbs(i) != [] && Symbs(i)[0] == Var(x)
    ensures S.PlainCode([i], f) <==> S.Word(x) && forall s :: s in Symbs(i)[1..] ==> S.PlainSymb(s, f)
  {
    hide S.PlainCode, S.PlainSymb, S.Word;
    PlainOne(i, f);
    assert Symbs(i) == [Var(x)] + Symbs(i)[1..];
    assert S.PlainSymb(Var(x), f) <==> S.Word(x) by { NamePlain(x, f); }
  }

  lemma NamePlain(x: string, f: floats)
    ensures S.PlainSymb(Var(x), f) <==> S.Word(x)
  {
  }

  lemma CalcPlain(x: string, e: Expr, f: floats)
    requires IsCalc(e)
    ensures S.PlainCode(AssignCode(x, e), f) <==> S.Word(x) && PlainExpr(e, f)
  {
    hide S.PlainCode, S.PlainSymb, PlainAtom, Operand, S.Word, TypeCheck;
    var a, b := Operand(e.left), Operand(e.right);
    var last := Calc(AluOf(e.op), x, a, b);
    PlainOperand(e.left, f);
    PlainOperand(e.right, f);
    TargetPlain(last, x, f);
    assert Symbs(last)[1..] == [a, b];
    CheckPlain(a, b, f);
    PlainJoin(TypeCheck(a, b), [last], f);
    assert [] + [last] == [last];
  }

  lemma AssignPlain(x: string, e: Expr, f: floats)
    requires IsRhs(e)
    ensures S.PlainCode(AssignCode(x, e), f) <==> S.Word(x) && PlainExpr(e, f)
  {
    hide S.PlainCode, S.PlainSymb, PlainAtom, Operand, Negative, S.Word, TypeCheck;
    if IsCalc(e) {
      CalcPlain(x, e, f);
    } else {
      var u := if e.Unary? then e.expr else e;
      var a := if IsNegated(e) then Negative(u) else Operand(u);
      var i := if IsNegation(e) then NotI(x, a) else Move(x, a);
      TargetPlain(i, x, f);
      assert AssignCode(x, e) == [i] && Symbs(i)[1..] == [a];
      PlainOperand(u, f);
    }
  }

  lemma TestPlain(e: Expr, l: Label, f: floats)
    requires IsTest(e)
    ensures S.PlainCode(TestCode(e, l), f) <==> PlainExpr(e, f)
  {
    hide S.PlainCode, PlainAtom, Operand, TypeCheck, S.PlainSymb;
    var a, b := Operand(e.left), Operand(e.right);
    PlainOperand(e.left, f);
    PlainOperand(e.right, f);
    CheckPlain(a, b, f);
    PlainOne(Branching(e, l), f);
    PlainJoin(TypeCheck(a, b), [Branching(e, l)], f);
  }

  lemma {:induction false} DeclPlain(ids: seq<string>, f: floats)
    ensures S.PlainCode(DeclCode(ids), f) <==> PlainIds(ids)
  {
    hide S.PlainCode, S.Word;
    if ids == [] {
      PlainNone(f);
    } else {
      var m := |ids| - 1;
      DeclPlain(ids[..m], f);
      PlainOne(DefVar(ids[m]), f);
      PlainJoin(DeclCode(ids[..m]), [DefVar(ids[m])], f);
      assert ids == ids[..m] + [ids[m]];
      assert S.PlainSymb(Var(ids[m]), f) <==> S.Word(ids[m]);
    }
  }

  lemma {:induction false} DimPlain(items: seq<Item>, f: floats)
    ensures S.PlainCode(DimCode(items), f) <==> forall i :: i in items ==> PlainIds(i.decl.ids)
  {
    hide S.PlainCode, PlainIds, DeclCode;
    if items == [] {
      PlainNone(f);
    } else {
      var m := |items| - 1;
      DimPlain(items[..m], f);
      DeclPlain(items[m].decl.ids, f);
      PlainJoin(DimCode(items[..m]), DeclCode(items[m].decl.ids), f);
      assert items == items[..m] + [items[m]];
    }
  }

  predicate PlainConds(bs: seq<Branch>, f: floats) { forall b :: b in bs ==> PlainExpr(b.cond, f) }

  lemma {:induction false} TestsPlain(bs: seq<Branch>, n: nat, f: floats)
    requires CoveredBranches(bs)
    ensures S.PlainCode(TestsCode(bs, n), f) <==> PlainConds(bs, f)
  {
    hide S.PlainCode, PlainExpr, TestCode;
    if bs == [] {
      PlainNone(f);
    } else {
      assert CoveredBranch(bs[0]);
      TestPlain(bs[0].cond, ResIf(n), f);
      TestsPlain(bs[1..], n + 1, f);
      PlainJoin(TestCode(bs[0].cond, ResIf(n)), TestsCode(bs[1..], n + 1), f);
      assert bs == [bs[0]] + bs[1..];
    }
  }

  lemma FallbackPlain(bs: seq<Branch>, o: Else, k: Counters, f: floats)
    ensures S.PlainCode(Fallback(bs, o, k), f)
  {
    hide S.PlainCode;
    PlainNone(f);
    PlainOne(Jump(ResElse(k.els)), f);
    PlainOne(Jump(EndIf(k.endIf)), f);
  }

  lemma IfTestsPlain(s: Stmt, k: Counters, f: floats)
    requires s.If? && Covered(s)
    ensures S.PlainCode(IfTests(s, k), f) <==> PlainExpr(s.cond, f) && PlainConds(s.elseIfs, f)
  {
    hide S.PlainCode, PlainExpr, PlainConds, TestCode, TestsCode, Fallback;
    var last := Fallback(s.elseIfs, s.otherwise, IfCounted(s, k));
    TestPlain(s.cond, ResIf(k.elseIf + 1), f);
    TestsPlain(s.elseIfs, k.elseIf + 2, f);
    FallbackPlain(s.elseIfs, s.otherwise, IfCounted(s, k), f);
    PlainThree(TestCode(s.cond, ResIf(k.elseIf + 1)), TestsCode(s.elseIfs, k.elseIf + 2), last, f);
  }

  lemma {:induction false} BodyPlain(body: seq<Stmt>, k: Counters, f: floats)
    requires CoveredBody(body)
    ensures S.PlainCode(BodyCode(body, k).0, f) <==> PlainBody(body, f)
    decreases body, 1
  {
    hide S.PlainCode, StmtCode, Covered, PlainStmt;
    if body == [] {
      PlainNone(f);
    } else {
      var (s, k1) := StmtCode(body[0], k);
      StmtPlain(body[0], k, f);
      BodyPlain(body[1..], k1, f);
      PlainJoin(s, BodyCode(body[1..], k1).0, f);
    }
  }

  lemma {:induction false} StmtPlain(s: Stmt, k: Counters, f: floats)
    requires Covered(s)
    ensures S.PlainCode(StmtCode(s, k).0, f) <==> PlainStmt(s, f)
    decreases s, 2
  {
    hide S.PlainCode, BodyCode, IfTests, IfArms, TestCode, AssignCode, DimCode, PlainExpr;
    match s {
      case Eval(e) => EvalPlain(e, f);
      case If(_, _, _, _) =>
        var (arms, k1) := IfArms(s, k.elseIf + 1, IfCounted(s, k));
        IfTestsPlain(s, k, f);
        ArmsPlain(s, k.elseIf + 1, IfCounted(s, k), f);
        PlainOne(Mark(EndIf(k1.endIf)), f);
        PlainThree(IfTests(s, k), arms, [Mark(EndIf(k1.endIf))], f);
        IfPlain(s, f);
      case While(c, b) =>
        var (code, k2) := BodyCode(b, LoopCounted(k));
        BodyPlain(b, LoopCounted(k), f);
        TestPlain(c, LoopLabel(k2.loop), f);
        PlainOne(Mark(LoopLabel(k.memLoop + 1)), f);
        PlainThree([Mark(LoopLabel(k.memLoop + 1))], code, TestCode(c, LoopLabel(k2.loop)), f);
    }
  }

  lemma EvalPlain(e: Expr, f: floats)
    requires IsAssignment(e) || IsDeclaration(e)
    ensures S.PlainCode(if IsAssignment(e) then AssignCode(e.left.name, e.right) else DimCode(e.items), f)
       <==> PlainEval(e, f)
  {
    hide S.PlainCode, AssignCode, DimCode, PlainIds, PlainExpr;
    if IsAssignment(e) { AssignPlain(e.left.name, e.right, f); } else { DimPlain(e.items, f); }
  }

  predicate PlainArms(s: Stmt, f: floats)
    requires s.If?
  {
    && PlainBody(s.body, f) && PlainBodies(s.elseIfs, f)
    && (s.otherwise.Else? ==> PlainBody(s.otherwise.stmts, f))
  }

  predicate PlainBodies(bs: seq<Branch>, f: floats) {
    bs == [] || (PlainBody(bs[0].body, f) && PlainBodies(bs[1..], f))
  }

  lemma {:induction false} BranchesSplit(bs: seq<Branch>, f: floats)
    ensures PlainBranches(bs, f) <==> PlainConds(bs, f) && PlainBodies(bs, f)
  {
    hide PlainExpr, PlainBody;
    if bs != [] {
      BranchesSplit(bs[1..], f);
      assert bs == [bs[0]] + bs[1..];
      assert PlainBranch(bs[0], f) <==> PlainExpr(bs[0].cond, f) && PlainBody(bs[0].body, f);
    }
  }

  lemma IfPlain(s: Stmt, f: floats)
    requires s.If?
    ensures PlainStmt(s, f) <==> PlainExpr(s.cond, f) && PlainConds(s.elseIfs, f) && PlainArms(s, f)
  {
    hide PlainExpr, PlainConds, PlainBodies;
    BranchesSplit(s.elseIfs, f);
  }

  lemma {:induction false} ArmsPlain(s: Stmt, n: nat, k: Counters, f: floats)
    requires s.If? && Covered(s)
    ensures S.PlainCode(IfArms(s, n, k).0, f) <==> PlainArms(s, f)
    decreases s, 1
  {
    hide S.PlainCode, BranchCode, BranchesCode, CoveredBranches, PlainBody, PlainBodies;
    var (b, k1) := BranchCode(s.body, ResIf(n), k);
    var (bs, k2) := BranchesCode(s.elseIfs, n + 1, k1);
    ArmPlain(s.body, ResIf(n), k, f);
    BranchesPlain(s.elseIfs, n + 1, k1, f);
    PlainJoin(b, bs, f);
    match s.otherwise {
      case NoElse =>
      case Else(eb) =>
        ArmPlain(eb, ResElse(k2.els), k2, f);
        PlainJoin(b + bs, BranchCode(eb, ResElse(k2.els), k2).0, f);
    }
  }

  lemma {:induction false} ArmPlain(body: seq<Stmt>, own: Label, k: Counters, f: floats)
    requires CoveredBody(body)
    ensures S.PlainCode(BranchCode(body, own, k).0, f) <==> PlainBody(body, f)
    decreases body, 2
  {
    hide S.PlainCode, BodyCode, PlainBody;
    var (code, k1) := BodyCode(body, k);
    BodyPlain(body, k, f);
    PlainOne(Mark(own), f);
    PlainOne(Jump(EndIf(k1.endIf)), f);
    PlainThree([Mark(own)], code, [Jump(EndIf(k1.endIf))], f);
  }

  lemma {:induction false} BranchesPlain(bs: seq<Branch>, n: nat, k: Counters, f: floats)
    requires CoveredBranches(bs)
    ensures S.PlainCode(BranchesCode(bs, n, k).0, f) <==> PlainBodies(bs, f)
    decreases bs
  {
    hide S.PlainCode, BranchCode, PlainBody;
    if bs == [] {
      PlainNone(f);
    } else {
      assert CoveredBranch(bs[0]);
      var (b, k1) := ArmCode(bs[0], n, k);
      ArmPlain(bs[0].body, ResIf(n), k, f);
      BranchesPlain(bs[1..], n + 1, k1, f);
      PlainJoin(b, BranchesCode(bs[1..], n + 1, k1).0, f);
    }
  }

  lemma ProgramPlain(body: seq<Stmt>, f: floats)
    requires CoveredBody(body)
    ensures S.PlainCode(ProgramCode(body), f) <==> PlainBody(body, f)
  {
    hide S.PlainCode, BodyCode, PlainBody;
    OpeningPlain(f);
    PlainOne(Mark(EndIf(0)), f);
    BodyPlain(body, START, f);
    PlainThree([Jump(ScopeLabel)] + OPENING, BodyCode(body, START).0, [Mark(EndIf(0))], f);
  }

  lemma OpeningPlain(f: floats)
    ensures S.PlainCode([Jump(ScopeLabel)] + OPENING, f)
  {
  }

  // ----- the theorem

  /** What the generator prints for a scope with this body. */
  function Printed(body: seq<Stmt>, f: floats): string
    requires CoveredBody(body)
  {
    S.Chars(S.Output(ProgramCode(body)), f)
  }

  /** The visitor prints these characters. */
  method Compile(program: seq<Stmt>, ghost f: floats) returns (generator: Generator)
    requires OneScope(program)
    ensures fresh(generator) && generator.Modes() == IDLE
    ensures S.Chars(generator.out, f) == Printed(program[0].body, f)
  {
    hide S.Chars, ProgramCode, Text;
    generator := new Generator();
    generator.Gen(program);
    assert generator.out == S.Output(ProgramCode(program[0].body));
  }

  /** The printed program is read as the generated instructions exactly when it is plain. */
  lemma PrintedIff(body: seq<Stmt>, f: floats)
    requires CoveredBody(body) && S.Wordy(f)
    ensures S.Load(Printed(body, f), f) == Some(ProgramCode(body)) <==> PlainBody(body, f)
  {
    hide S.Load, S.Chars, S.Output, S.PlainCode, ProgramCode, PlainBody, CoveredBody;
    ProgramPlain(body, f);
    PrintedText.LoadIff(ProgramCode(body), f);
  }

  /** Running what was printed gives what the source means. */
  lemma {:induction false} PrintedCorrect(body: seq<Stmt>, f: floats, fuel: nat) returns (n: nat)
    requires Served(body) && PlainBody(body, f) && S.Wordy(f)
    ensures var code := S.Load(Printed(body, f), f);
      && code.Some?
      && var c, r := Steps(code.value, BEGIN, n), Result(body, fuel, true);
         if r.Unfinished? then n >= fuel && !Stopped(code.value, c)
         else Stopped(code.value, c) && Agrees(code.value, c, r)
  {
    hide S.Load, Printed, PlainBody, CoveredBody, ProgramCode, Steps, Stopped, Agrees, ExecBody;
    PrintedIff(body, f);
    n := Correct(body, fuel);
  }

  /** What was printed stops exactly when the source ends. */
  lemma {:induction false} PrintedStopsIffEnds(body: seq<Stmt>, f: floats)
    requires Served(body) && PlainBody(body, f) && S.Wordy(f)
    ensures var code := S.Load(Printed(body, f), f);
      && code.Some?
      && ((exists n: nat :: Stopped(code.value, Steps(code.value, BEGIN, n)))
          <==> (exists fuel: nat :: !Result(body, fuel, true).Unfinished?))
  {
    hide S.Load, Printed, PlainBody, CoveredBody, ProgramCode, Steps, Stopped, Result;
    PrintedIff(body, f);
    StopsIffEnds(body);
  }

  // ----- a string that prints as two instructions

  lemma {:induction false} CharsAppend(a: seq<Piece>, b: seq<Piece>, f: floats)
    requires a != [] ==> a[|a| - 1] == EOL
    ensures S.Chars(a + b, f) == S.Chars(a, f) + S.Chars(b, f)
  {
    hide S.Spell;
    if a == [] {
      assert a + b == b;
    } else {
      assert (a + b)[1..] == a[1..] + b;
      CharsAppend(a[1..], b, f);
      assert S.Gap(a + b) == S.Gap(a);
    }
  }

  lemma {:induction false} TextEnds(code: seq<Instr>)
    requires code != []
    ensures var t := Text(code); t != [] && t[|t| - 1] == EOL
  {
    var i := code[|code| - 1];
    assert Line(i)[|Line(i)| - 1] == EOL;
  }

  /** The lines of some instructions in the middle. */
  lemma OutputSplits(a: seq<Instr>, m: seq<Instr>, b: seq<Instr>, f: floats)
    requires a != [] && m != []
    ensures S.Chars(S.Output(a + m + b), f)
         == S.Chars([Header, EOL] + Text(a), f) + S.Chars(Text(m), f) + S.Chars(Text(b) + [EOL], f)
  {
    hide S.Chars, Text;
    var x, y, z := [Header, EOL] + Text(a), Text(m), Text(b) + [EOL];
    TextAppend(a, m);
    TextAppend(a + m, b);
    assert S.Output(a + m + b) == x + y + z;
    TextEnds(a);
    TextEnds(m);
    CharsAppend(x, y, f);
    CharsAppend(x + y, z, f);
  }

  lemma WordChars(p: Piece, q: Piece, more: seq<Piece>, f: floats)
    requires p != EOL
    ensures S.Chars([p, q] + more, f) == S.Spell(p, f) + (if q == EOL then "" else " ") + S.Chars([q] + more, f)
  {
    hide S.Spell;
    assert ([p, q] + more)[1..] == [q] + more;
  }

  lemma LineEndChars(f: floats)
    ensures S.Chars([EOL], f) == "\n"
  {
    assert S.Chars([EOL][1..], f) == "";
  }

  lemma MoveChars(v: Symb, f: floats)
    ensures S.Chars(Text([Move("a", v)]), f) == "MOVE GF@a " + S.Operand(v, f) + "\n"
  {
    hide S.Chars, S.Operand;
    var o, x, w := Op(M_MOVE), Sym(Var("a")), Sym(v);
    TextOne(Move("a", v));
    WordChars(o, x, [w, EOL], f);
    WordChars(x, w, [EOL], f);
    WordChars(w, EOL, [], f);
    LineEndChars(f);
    assert [o, x] + [w, EOL] == [o, x, w, EOL] && [x] + [w, EOL] == [x, w] + [EOL];
    assert [w] + [EOL] == [w, EOL] + [] && [EOL] + [] == [EOL];
    VarName(f);
    var rest := S.Operand(v, f) + "\n";
    assert "MOVE" + " " + ("GF@a" + " " + rest) == "MOVE GF@a " + S.Operand(v, f) + "\n";
  }

  lemma VarName(f: floats)
    ensures S.Operand(Var("a"), f) == "GF@a"
  {
  }

  const SPLIT := "x\nMOVE GF@a int@7"

  lemma SameChars(f: floats)
    ensures S.Chars(Text([Move("a", Const(StrV(SPLIT)))]), f)
         == S.Chars(Text([Move("a", Const(StrV("x"))), Move("a", Const(IntV(7)))]), f)
  {
    hide S.Chars, S.Operand, Text;
    var i, j, k := Move("a", Const(StrV(SPLIT))), Move("a", Const(StrV("x"))), Move("a", Const(IntV(7)));
    MoveChars(Const(StrV(SPLIT)), f);
    MoveChars(Const(StrV("x")), f);
    MoveChars(Const(IntV(7)), f);
    TextAppend([j], [k]);
    assert [j] + [k] == [j, k];
    TextEnds([j]);
    CharsAppend(Text([j]), Text([k]), f);
    LiteralChars(f);
    TwoLines();
  }

  lemma TwoLines()
    ensures "MOVE GF@a " + "string@x\nMOVE GF@a int@7" + "\n"
         == ("MOVE GF@a " + "string@x" + "\n") + ("MOVE GF@a " + "int@7" + "\n")
  {
  }

  lemma LiteralChars(f: floats)
    ensures S.Operand(Const(StrV(SPLIT)), f) == "string@x\nMOVE GF@a int@7"
    ensures S.Operand(Const(StrV("x")), f) == "string@x" && S.Operand(Const(IntV(7)), f) == "int@7"
  {
    assert S.Digits(7) == "7" && S.Decimal(7) == "7";
    assert "string@" + "" + SPLIT == "string@x\nMOVE GF@a int@7";
    assert "string@" + "" + "x" == "string@x";
    assert "int@" + "" + "7" == "int@7";
  }

  /** `a = e` */
  function ToA(e: Expr): Stmt { Eval(Binary(Assign, Id("a"), e)) }

  /** `Dim a As Integer` */
  const DIM_A := Eval(Dim([Item(Decl(["a"], "int"), None)]))

  lemma LiteralMove(e: Expr, k: Counters)
    requires e.Int? || e.Str?
    ensures Covered(ToA(e)) && StmtCode(ToA(e), k) == ([Move("a", Operand(e))], k)
  {
  }

  lemma DimMove(k: Counters)
    ensures Covered(DIM_A) && StmtCode(DIM_A, k) == ([DefVar("a")], k)
  {
    var i := Item(Decl(["a"], "int"), None);
    assert [i][..0] == [] && ["a"][..0] == [] && DeclCode([]) == [] && DimCode([]) == [];
    assert DeclCode(["a"]) == [DefVar("a")];
  }

  lemma SimpleFirst(s: Stmt, more: seq<Stmt>, i: Instr, st: Store, st1: Store)
    requires s.Eval? && Covered(s) && Served(more)
    requires StmtCode(s, START) == ([i], START) && Exec(s, st, 0, true) == Done(st1)
    ensures Served([s] + more)
    ensures BodyCode([s] + more, START).0 == [i] + BodyCode(more, START).0
    ensures ExecBody([s] + more, st, 0, true) == ExecBody(more, st1, 0, true)
  {
    hide Covered, StmtCode, Exec;
    assert ([s] + more)[1..] == more;
  }

  lemma SimpleNone(st: Store)
    ensures Served([]) && BodyCode([], START).0 == [] && ExecBody([], st, 0, true) == Done(st)
  {
  }

  lemma LiteralSet(e: Expr, st: Store)
    requires "a" in st && (e.Int? || e.Str?)
    ensures Covered(ToA(e))
    ensures Exec(ToA(e), st, 0, true) == Done(st["a" := Some(if e.Int? then IntV(e.number) else StrV(e.text))])
  {
  }

  lemma DimSet()
    ensures Covered(DIM_A) && Exec(DIM_A, map[], 0, true) == Done(map["a" := None])
  {
    var i := Item(Decl(["a"], "int"), None);
    assert [i][1..] == [] && ["a"][1..] == [];
    assert DeclareAll(["a"][1..], map["a" := None]) == Done(map["a" := None]);
    assert DeclareItems([i][1..], map["a" := None]) == Done(map["a" := None]);
    assert DeclareAll(["a"], map[]) == Done(map["a" := None]);
  }

  const UNSET: Store := map["a" := None]

  lemma MovesMean(e: Expr, d: Expr)
    requires (e.Int? || e.Str?) && (d.Int? || d.Str?)
    ensures var p, q := [DIM_A, ToA(e)], [DIM_A, ToA(e), ToA(d)];
      && Served(p) && Served(q)
      && BodyCode(p, START).0 == [DefVar("a")] + [Move("a", Operand(e))]
      && BodyCode(q, START).0 == [DefVar("a")] + [Move("a", Operand(e)), Move("a", Operand(d))]
      && Result(p, 0, true) == Done(map["a" := Some(if e.Int? then IntV(e.number) else StrV(e.text))])
      && Result(q, 0, true) == Done(map["a" := Some(if d.Int? then IntV(d.number) else StrV(d.text))])
  {
    hide Served, BodyCode, ExecBody, Exec, Covered, StmtCode, Operand;
    var x, y := ToA(e), ToA(d);
    var i, j, k := DefVar("a"), Move("a", Operand(e)), Move("a", Operand(d));
    var st := map["a" := Some(if e.Int? then IntV(e.number) else StrV(e.text))];
    var st1 := map["a" := Some(if d.Int? then IntV(d.number) else StrV(d.text))];
    LiteralMove(e, START);
    LiteralMove(d, START);
    DimMove(START);
    DimSet();
    LiteralSet(e, UNSET);
    LiteralSet(d, st);
    assert UNSET["a" := st["a"]] == st && st["a" := st1["a"]] == st1;
    SimpleNone(st);
    SimpleNone(st1);
    SimpleFirst(x, [], j, UNSET, st);
    SimpleFirst(y, [], k, st, st1);
    assert [x] + [] == [x] && [y] + [] == [y] && [j] + [] == [j] && [k] + [] == [k];
    SimpleFirst(x, [y], j, UNSET, st);
    SimpleFirst(DIM_A, [x], i, map[], UNSET);
    assert [x] + [y] == [x, y] && [j] + [k] == [j, k];
    SimpleFirst(DIM_A, [x, y], i, map[], UNSET);
    assert [DIM_A] + [x] == [DIM_A, x] && [DIM_A] + [x, y] == [DIM_A, x, y];
  }

  /** `a = !"x<line end>MOVE GF@a int@7"` is read as `a = !"x"` and `a = 7`. */
  lemma LiteralSplits(f: floats)
    requires S.Wordy(f)
    ensures var p, q := [DIM_A, ToA(Str(SPLIT))], [DIM_A, ToA(Str("x")), ToA(Int(7))];
      && Served(p) && Served(q)
      && Printed(p, f) == Printed(q, f) && S.Load(Printed(p, f), f) == Some(ProgramCode(q))
      && Result(p, 0, true) == Done(map["a" := Some(StrV(SPLIT))])
      && Result(q, 0, true) == Done(map["a" := Some(IntV(7))])
  {
    hide BodyCode, Text, S.Chars, S.Load, ExecBody, PlainBody, S.Output;
    var p, q := [DIM_A, ToA(Str(SPLIT))], [DIM_A, ToA(Str("x")), ToA(Int(7))];
    MovesMean(Str(SPLIT), Int(7));
    MovesMean(Str("x"), Int(7));
    var head, tail := [Jump(ScopeLabel)] + OPENING + [DefVar("a")], [Mark(EndIf(0))];
    var m, n := [Move("a", Const(StrV(SPLIT)))], [Move("a", Const(StrV("x"))), Move("a", Const(IntV(7)))];
    assert ProgramCode(p) == head + m + tail && ProgramCode(q) == head + n + tail;
    OutputSplits(head, m, tail, f);
    OutputSplits(head, n, tail, f);
    SameChars(f);
    SplitPlain(f);
    PrintedIff(q, f);
  }

  lemma SplitPlain(f: floats)
    ensures PlainBody([DIM_A, ToA(Str("x")), ToA(Int(7))], f)
  {
    var x, y, z := DIM_A, ToA(Str("x")), ToA(Int(7));
    assert [x, y, z][1..] == [y, z] && [y, z][1..] == [z] && [z][1..] == [];
    assert PlainBody([z], f) && PlainBody([y, z], f);
  }
}
