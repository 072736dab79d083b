/** The code generator: a visitor whose static counters decide what each visit prints. An operator
    node is visited twice, first for its opcode and type check, then for its operands. */
module Codegen {
  import opened Tokens
  import opened Ast
  import opened Ifjcode
  import opened CodegenSpec

  /** The counters that say what the next visit is for; all zero between statements. */
  datatype Mode = Mode(binOp: int, not_: int, fromIf: int, fromLoop: int, fromMinus: int, fromDim: int)

  const IDLE := Mode(0, 0, 0, 0, 0, 0)

  class Generator {
    var binOp: int
    var not_: int
    var fromIf: int
    var fromLoop: int
    var fromMinus: int
    var fromDim: int
    var elseIfNum: nat
    var elseNum: nat
    var endIfNum: nat
    var loopNum: int
    var memLoopNum: int
    /** What `print_func` and `printf` have written. */
    var out: seq<Piece>

    constructor ()
      ensures Modes() == IDLE && Labels() == START && out == []
    {
      binOp, not_, fromIf, fromLoop, fromMinus, fromDim := 0, 0, 0, 0, 0, 0;
      elseIfNum, elseNum, endIfNum, loopNum, memLoopNum := 0, 0, 0, 0, 0;
      out := [];
    }

    ghost function Modes(): Mode
      reads this
    {
      Mode(binOp, not_, fromIf, fromLoop, fromMinus, fromDim)
    }

    ghost function Labels(): Counters
      reads this
    {
      Counters(elseIfNum, elseNum, endIfNum, loopNum, memLoopNum)
    }

    method Emit(ps: seq<Piece>)
      modifies this`out
      ensures out == old(out) + ps
    {
      out := out + ps;
    }

    /** `visit_id`, `visit_int`, `visit_double`, `visit_string` */
    method VisitAtom(e: Expr)
      requires IsAtom(e)
      modifies this`out, this`fromMinus
      ensures var negated := old(fromMinus) == 1 && (e.Int? || e.Double?);
        && out == old(out) + [Sym(if negated then Negative(e) else Operand(e))]
        && fromMinus == if negated then 0 else old(fromMinus)
    {
      if fromMinus == 1 && (e.Int? || e.Double?) {
        Emit([Sym(Negative(e))]);
        fromMinus := fromMinus - 1;
      } else {
        Emit([Sym(Operand(e))]);
      }
    }

    /** `ifj17_visit` on an expression; nodes outside the supported statements print nothing here. */
    method VisitExpr(e: Expr)
      modifies this
      ensures IsAtom(e) && old(fromMinus) == 0 ==>
        out == old(out) + [Sym(Operand(e))] && Modes() == old(Modes()) && Labels() == old(Labels())
      ensures (e.Int? || e.Double?) && old(fromMinus) == 1 ==>
        out == old(out) + [Sym(Negative(e))] && Modes() == old(Modes()).(fromMinus := 0) && Labels() == old(Labels())
      ensures IsNegation(e) || IsNegated(e) ==> UnaryVisited(e, old(Modes()), old(out), old(Labels()))
      ensures IsCalc(e) ==> CalcVisited(e, old(Modes()), old(out), old(Labels()))
      ensures IsTest(e) ==> TestVisited(e, old(Modes()), old(out), old(Labels()))
      ensures IsAssignment(e) ==> AssignmentVisited(e, old(Modes()), old(out), old(Labels()))
      ensures IsDeclaration(e) && old(Modes()) == IDLE ==>
        out == old(out) + Text(DimCode(e.items)) && Modes() == IDLE && Labels() == old(Labels())
      decreases e, 3
    {
      match e {
        case Id(_) => VisitAtom(e);
        case Int(_) => VisitAtom(e);
        case Double(_) => VisitAtom(e);
        case Str(_) => VisitAtom(e);
        case Unary(_, _, _) => VisitUnaryOp(e);
        case Binary(_, _, _) => VisitBinaryOp(e);
        case Dim(_) => VisitDim(e);
        case _ =>
      }
    }

    /** First visit: the opcode. Second visit (`not` is 2): the operand. */
    ghost predicate UnaryVisited(e: Expr, mode: Mode, was: seq<Piece>, labels: Counters)
      requires IsNegation(e) || IsNegated(e)
      reads this
    {
      && (mode == IDLE ==>
            && out == was + [Op(if IsNegation(e) then M_NOT else M_MOVE)]
            && Modes() == IDLE.(not_ := 1) && Labels() == labels)
      && (mode == IDLE.(not_ := 2) ==>
            && out == was + [Sym(if IsNegation(e) then Operand(e.expr) else Negative(e.expr))]
            && Modes() == IDLE && Labels() == labels)
    }

    /** First visit (`bin_op` is 1): type check and opcode. Second (2): the operands. */
    ghost predicate CalcVisited(e: Expr, mode: Mode, was: seq<Piece>, labels: Counters)
      requires IsCalc(e)
      reads this
    {
      && (mode == IDLE.(binOp := 1) ==>
            && out == was + CalcOpening(e) && Modes() == mode && Labels() == labels)
      && (mode == IDLE.(binOp := 2) ==>
            && out == was + [Sym(Operand(e.left)), Sym(Operand(e.right)), EOL]
            && Modes() == IDLE && Labels() == labels)
    }

    /** A condition uses up the counter that says where it stands. */
    ghost predicate TestVisited(e: Expr, mode: Mode, was: seq<Piece>, labels: Counters)
      requires IsTest(e)
      reads this
    {
      && (mode == IDLE.(fromIf := 1) ==>
            && out == was + Text(TestCode(e, ResIf(labels.elseIf)))
            && Modes() == IDLE && Labels() == labels)
      && (mode == IDLE.(fromLoop := 1) && e.op == Eq ==>
            && out == was + Text(TestCode(e, LoopLabel(labels.loop)))
            && Modes() == IDLE && Labels() == labels.(loop := labels.loop - 1))
    }

    ghost predicate AssignmentVisited(e: Expr, mode: Mode, was: seq<Piece>, labels: Counters)
      requires IsAssignment(e)
      reads this
    {
      mode == IDLE ==>
        out == was + Text(AssignCode(e.left.name, e.right)) && Modes() == IDLE && Labels() == labels
    }

    /** `TYPE` of both operands and the jump out when they differ. */
    method EmitTypeCheck(e: Expr)
      requires e.Binary?
      modifies this
      ensures IsAtom(e.left) && IsAtom(e.right) && old(fromMinus) == 0 ==>
        && out == old(out) + Text(TypeCheck(Operand(e.left), Operand(e.right)))
        && Modes() == old(Modes()) && Labels() == old(Labels())
      decreases e, 0, 1
    {
      hide Text, TypeCheck, Operand, IsAtom;
      EmitTypeOf(true, e.left, e);
      EmitTypeOf(false, e.right, e);
      Emit([Op(M_JUMPIFNEQ), Lbl(EndIf(0)), Temp(true), Temp(false), EOL]);
      TypeCheckText(Operand(e.left), Operand(e.right));
    }

    /** `TYPE` of one operand. */
    method EmitTypeOf(first: bool, a: Expr, ghost e: Expr)
      requires a < e
      modifies this
      ensures IsAtom(a) && old(fromMinus) == 0 ==>
        && out == old(out) + [Op(M_TYPE), Temp(first), Sym(Operand(a)), EOL]
        && Modes() == old(Modes()) && Labels() == old(Labels())
      decreases e, 0, 0
    {
      hide Text, Operand, IsCalc, IsTest, IsNegation, IsNegated, IsAssignment, IsDeclaration;
      Emit([Op(M_TYPE), Temp(first)]);
      VisitExpr(a);
      Emit([EOL]);
    }

    /** A conditional jump; inside the condition of an `if` it goes to the label of its arm. */
    method EmitBranch(m: Mnemonic)
      modifies this`out, this`fromIf
      ensures out == old(out) + [Op(m)] + if old(fromIf) == 1 then [Lbl(ResIf(elseIfNum))] else []
      ensures fromIf == if old(fromIf) == 1 then 0 else old(fromIf)
    {
      Emit([Op(m)]);
      if fromIf == 1 {
        Emit([Lbl(ResIf(elseIfNum))]);
        fromIf := fromIf - 1;
      }
    }

    method EmitOp(e: Expr)
      requires e.Binary? || e.Unary?
      modifies this
      ensures IsNegation(e) ==>
        out == old(out) + [Op(M_NOT)] && Modes() == old(Modes()) && Labels() == old(Labels())
      ensures IsCalc(e) && old(fromMinus) == 0 ==>
        out == old(out) + CalcOpening(e) && Modes() == old(Modes()) && Labels() == old(Labels())
      ensures IsTest(e) && e.op != Assign && old(Modes()) == IDLE.(fromIf := 1) ==>
        out == old(out) + TestOpening(e, ResIf(elseIfNum)) && Modes() == IDLE && Labels() == old(Labels())
      ensures IsTest(e) && e.op == Eq && old(Modes()) == IDLE.(fromLoop := 1) ==>
        && out == old(out) + TestOpening(e, LoopLabel(old(loopNum)))
        && Modes() == IDLE && Labels() == old(Labels()).(loop := old(loopNum) - 1)
      decreases e, 1
    {
      hide Text, TypeCheck, TestOpening, Operand, IsAtom;
      if e.Unary? {
        if e.op == LNot { Emit([Op(M_NOT)]); }
        return;
      }
      match e.op {
        case Plus =>
          EmitTypeCheck(e);
          Emit([Op(M_CALC(ADD))]);
        case Minus =>
          EmitTypeCheck(e);
          Emit([Op(M_CALC(SUB))]);
        case Mul =>
          EmitTypeCheck(e);
          Emit([Op(M_CALC(MUL))]);
        case Eq => EmitComparison(e);
        case Neq => EmitComparison(e);
        case BitAnd => Emit([Op(M_CALC(AND))]);
        case BitOr => Emit([Op(M_CALC(OR))]);
        case _ =>
      }
    }

    /** The cases of `emit_op` for `==` and `<>`. */
    method EmitComparison(e: Expr)
      requires e.Binary? && (e.op == Eq || e.op == Neq)
      modifies this
      ensures IsTest(e) && old(Modes()) == IDLE.(fromIf := 1) ==>
        out == old(out) + TestOpening(e, ResIf(elseIfNum)) && Modes() == IDLE && Labels() == old(Labels())
      ensures IsTest(e) && e.op == Eq && old(Modes()) == IDLE.(fromLoop := 1) ==>
        && out == old(out) + TestOpening(e, LoopLabel(old(loopNum)))
        && Modes() == IDLE && Labels() == old(Labels()).(loop := old(loopNum) - 1)
      decreases e, 0, 2
    {
      hide Text, TypeCheck, Operand, IsAtom;
      EmitTypeCheck(e);
      if e.op == Neq {
        EmitBranch(M_JUMPIFNEQ);
        return;
      }
      EmitBranch(M_JUMPIFEQ);
      if fromLoop == 1 {
        Emit([Lbl(LoopLabel(loopNum))]);
        loopNum := loopNum - 1;
        fromLoop := fromLoop - 1;
      }
    }

    method VisitUnaryOp(e: Expr)
      requires e.Unary?
      modifies this
      ensures IsNegation(e) || IsNegated(e) ==> UnaryVisited(e, old(Modes()), old(out), old(Labels()))
      decreases e, 2
    {
      hide Text;
      if e.op == LNot {
        if not_ == 0 {
          not_ := not_ + 1;
          EmitOp(e);
        } else if not_ == 2 {
          VisitExpr(e.expr);
          not_ := 0;
        }
      } else if e.op == Minus {
        if not_ == 0 {
          not_ := not_ + 1;
          if fromDim != 1 {
            Emit([Op(M_MOVE)]);
          }
        } else if not_ == 2 {
          fromMinus := fromMinus + 1;
          VisitExpr(e.expr);
          not_ := 0;
        }
      }
    }

    method VisitBinaryOp(e: Expr)
      requires e.Binary?
      modifies this
      ensures IsCalc(e) ==> CalcVisited(e, old(Modes()), old(out), old(Labels()))
      ensures IsTest(e) ==> TestVisited(e, old(Modes()), old(out), old(Labels()))
      ensures IsAssignment(e) ==> AssignmentVisited(e, old(Modes()), old(out), old(Labels()))
      decreases e, 2, 1
    {
      hide Text, TestCode, AssignCode, CalcOpening, IsRhs;
      if e.op == Assign && !e.right.Binary? {
        VisitSimpleAssign(e);
        return;
      }
      if Arithmetic(e.op) || Logical(e.op) || e.op == Div {
        if binOp == 1 {
          EmitOp(e);
          return;
        } else if binOp == 2 {
          VisitOperands(e.left, e.right, e);
          binOp := binOp - 2;
          return;
        }
      } else if e.op == Eq || e.op == Neq {
        VisitComparison(e);
        return;
      } else if e.op == Gt || e.op == Lt {
        return;
      }
      VisitCalcAssign(e);
    }

    /** Both operands and the end of the line. */
    method VisitOperands(a: Expr, b: Expr, ghost e: Expr)
      requires a < e && b < e
      modifies this
      ensures IsAtom(a) && IsAtom(b) && old(fromMinus) == 0 ==>
        && out == old(out) + [Sym(Operand(a)), Sym(Operand(b)), EOL]
        && Modes() == old(Modes()) && Labels() == old(Labels())
      decreases e, 0
    {
      hide Text, Operand, IsCalc, IsTest, IsNegation, IsNegated, IsAssignment, IsDeclaration;
      VisitExpr(a);
      VisitExpr(b);
      Emit([EOL]);
    }

    method VisitComparison(e: Expr)
      requires e.Binary? && (e.op == Eq || e.op == Neq)
      modifies this
      ensures IsTest(e) ==> TestVisited(e, old(Modes()), old(out), old(Labels()))
      decreases e, 2, 0
    {
      hide Text, TestCode, TestOpening;
      ghost var l := if fromIf == 1 then ResIf(elseIfNum) else LoopLabel(loopNum);
      EmitOp(e);
      VisitOperands(e.left, e.right, e);
      TestText(e, l);
    }

    /** `x = a op b`: the right-hand side is visited before and after the target. */
    method VisitCalcAssign(e: Expr)
      requires e.Binary?
      modifies this
      ensures IsAssignment(e) && e.right.Binary? ==> AssignmentVisited(e, old(Modes()), old(out), old(Labels()))
      decreases e, 2, 0
    {
      hide Text, AssignCode, CalcOpening, IsDeclaration, IsTest;
      ghost var was := out;
      binOp := binOp + 1;
      VisitExpr(e.right);
      VisitExpr(e.left);
      binOp := binOp + 1;
      VisitExpr(e.right);
      if IsAssignment(e) && IsCalc(e.right) {
        CalcText(e.left.name, e.right);
        Regroup(was, CalcOpening(e.right), [Sym(Var(e.left.name))],
          [Sym(Operand(e.right.left)), Sym(Operand(e.right.right)), EOL]);
      }
    }

    /** `=` with a right-hand side that is no binary operation. */
    method VisitSimpleAssign(e: Expr)
      requires e.Binary? && e.op == Assign && !e.right.Binary?
      modifies this
      ensures IsTest(e) ==> TestVisited(e, old(Modes()), old(out), old(Labels()))
      ensures IsAssignment(e) ==> AssignmentVisited(e, old(Modes()), old(out), old(Labels()))
      decreases e, 2, 0
    {
      hide Text, AssignCode, TestCode, TestOpening;
      if e.right.Unary? {
        VisitUnaryAssign(e);
      } else if e.right.Call? {
        return;
      } else if fromIf == 1 {
        EmitTypeCheck(e);
        Emit([Op(M_JUMPIFEQ)]);
        Emit([Lbl(ResIf(elseIfNum))]);
        VisitOperands(e.right, e.left, e);
        fromIf := fromIf - 1;
        TestText(e, ResIf(elseIfNum));
        OpeningText(e, ResIf(elseIfNum));
      } else {
        Emit([Op(M_MOVE)]);
        VisitOperands(e.left, e.right, e);
        if IsAssignment(e) { MoveText(e.left.name, e.right); }
      }
    }

    method VisitUnaryAssign(e: Expr)
      requires e.Binary? && e.op == Assign && e.right.Unary?
      modifies this
      ensures IsAssignment(e) ==> AssignmentVisited(e, old(Modes()), old(out), old(Labels()))
      decreases e, 1
    {
      hide Text, AssignCode, IsTest, IsDeclaration;
      VisitExpr(e.right);
      not_ := not_ + 1;
      VisitExpr(e.left);
      VisitExpr(e.right);
      Emit([EOL]);
      if IsAssignment(e) { UnaryText(e.left.name, e.right); }
    }

    // ----- declarations

    method VisitDecl(decl: Decl)
      modifies this`out, this`fromMinus
      ensures fromMinus == old(fromMinus)
      ensures fromDim != 1 ==> out == old(out) + Text(DeclCode(decl.ids))
    {
      hide Text, Line;
      DeclEnds(decl.ids);
      for i := 0 to |decl.ids|
        invariant fromMinus == old(fromMinus)
        invariant fromDim != 1 ==> out == old(out) + Text(DeclCode(decl.ids[..i]))
      {
        if fromDim == 1 {
          VisitAtom(Id(decl.ids[i]));
        } else {
          Emit([Op(M_DEFVAR)]);
          VisitAtom(Id(decl.ids[i]));
          Emit([EOL]);
        }
        DeclStep(decl.ids, i);
      }
    }

    method VisitDim(e: Expr)
      requires e.Dim?
      modifies this
      ensures IsDeclaration(e) && old(Modes()) == IDLE ==>
        out == old(out) + Text(DimCode(e.items)) && Modes() == IDLE && Labels() == old(Labels())
      decreases e, 2
    {
      hide Text, Line;
      DimEnds(e.items);
      for i := 0 to |e.items|
        invariant IsDeclaration(e) && old(Modes()) == IDLE ==>
          out == old(out) + Text(DimCode(e.items[..i])) && Modes() == IDLE && Labels() == old(Labels())
      {
        var item := e.items[i];
        VisitDecl(item.decl);
        if item.init.Some? {
          fromDim := fromDim + 1;
          Emit([Op(M_MOVE)]);
          VisitDecl(item.decl);
          VisitExpr(item.init.value);
          not_ := not_ + 1;
          VisitExpr(item.init.value);
          fromDim := fromDim - 1;
        }
        DimStep(e.items, i);
      }
    }

    // ----- statements

    method EmitInstr(i: Instr)
      modifies this`out
      ensures out == old(out) + Text([i])
    {
      hide Text, Line;
      TextOne(i);
      Emit(Line(i));
    }

    /** `code` has been written since `was`, the labels moved on, and the generator is idle again. */
    ghost predicate Wrote(was: seq<Piece>, r: (seq<Instr>, Counters))
      reads this
    {
      out == was + Text(r.0) && Modes() == IDLE && Labels() == r.1
    }

    /** `print` and `input` have no callback, so nothing is printed for them. */
    method VisitStmt(s: Stmt)
      modifies this
      ensures Covered(s) && old(Modes()) == IDLE ==> Wrote(old(out), StmtCode(s, old(Labels())))
      decreases s, 1
    {
      hide Text, AssignCode, DimCode, IsRhs, BodyCode;
      match s {
        case Eval(e) => VisitExpr(e);
        case If(_, _, _, _) => VisitIf(s);
        case While(_, _) => VisitWhile(s);
        case Scope(body) => VisitScope(body);
        case _ =>
      }
    }

    method VisitBlock(body: seq<Stmt>)
      modifies this
      ensures CoveredBody(body) && old(Modes()) == IDLE ==> Wrote(old(out), BodyCode(body, old(Labels())))
      decreases body, 0
    {
      hide Text, StmtCode, Covered;
      ghost var ok := CoveredBody(body) && Modes() == IDLE;
      ghost var was, k := out, Labels();
      assert body[0..] == body;
      if ok { NoText(); }
      for i := 0 to |body|
        invariant ok ==> CoveredBody(body[i..]) && Modes() == IDLE
        invariant ok ==> out + Text(BodyCode(body[i..], Labels()).0) == was + Text(BodyCode(body, k).0)
        invariant ok ==> BodyCode(body[i..], Labels()).1 == BodyCode(body, k).1
      {
        assert body[i..][0] == body[i] && body[i..][1..] == body[i + 1..];
        if ok { BodyText(body[i..], Labels()); }
        VisitStmt(body[i]);
      }
    }

    method VisitCondition(e: Expr)
      modifies this
      ensures IsTest(e) && old(Modes()) == IDLE ==>
        Wrote(old(out), (TestCode(e, ResIf(old(elseIfNum))), old(Labels())))
    {
      hide Text, TestCode;
      fromIf := fromIf + 1;
      VisitExpr(e);
    }

    /** The tests of the `elseif`s. */
    method VisitTests(bs: seq<Branch>)
      modifies this
      ensures CoveredBranches(bs) && old(Modes()) == IDLE ==>
        Wrote(old(out), (TestsCode(bs, old(elseIfNum) + 1), old(Labels()).(elseIf := old(elseIfNum) + |bs|)))
    {
      hide Text, TestCode, CoveredBody, IsTest;
      ghost var ok := CoveredBranches(bs) && Modes() == IDLE;
      ghost var was, k := out, Labels();
      assert bs[0..] == bs;
      if ok { NoText(); }
      for i := 0 to |bs|
        invariant ok ==> CoveredBranches(bs[i..]) && Modes() == IDLE && Labels() == k.(elseIf := k.elseIf + i)
        invariant ok ==> out + Text(TestsCode(bs[i..], k.elseIf + i + 1)) == was + Text(TestsCode(bs, k.elseIf + 1))
      {
        assert bs[i..][0] == bs[i] && bs[i..][1..] == bs[i + 1..];
        if ok {
          assert CoveredBranch(bs[i..][0]);
          TestsText(bs[i..], k.elseIf + i + 1);
        }
        elseIfNum := elseIfNum + 1;
        VisitCondition(bs[i].cond);
      }
    }

    /** One arm of an `if`. */
    method VisitArm(l: Label, body: seq<Stmt>)
      modifies this
      ensures CoveredBody(body) && old(Modes()) == IDLE ==> Wrote(old(out), BranchCode(body, l, old(Labels())))
      decreases body, 1
    {
      hide Text, BodyCode, CoveredBody;
      ghost var k := Labels();
      EmitInstr(Mark(l));
      VisitBlock(body);
      EmitInstr(Jump(EndIf(endIfNum)));
      if CoveredBody(body) {
        var r := BodyCode(body, k);
        ThreeTexts([Mark(l)], r.0, [Jump(EndIf(r.1.endIf))]);
      }
    }

    method VisitArms(bs: seq<Branch>, n: nat)
      modifies this
      ensures CoveredBranches(bs) && old(Modes()) == IDLE ==> Wrote(old(out), BranchesCode(bs, n, old(Labels())))
      decreases bs
    {
      hide Text, BranchCode, CoveredBody;
      ghost var ok := CoveredBranches(bs) && Modes() == IDLE;
      ghost var was, k := out, Labels();
      assert bs[0..] == bs;
      if ok { NoText(); }
      for i := 0 to |bs|
        invariant ok ==> CoveredBranches(bs[i..]) && Modes() == IDLE
        invariant ok ==> out + Text(BranchesCode(bs[i..], n + i, Labels()).0) == was + Text(BranchesCode(bs, n, k).0)
        invariant ok ==> BranchesCode(bs[i..], n + i, Labels()).1 == BranchesCode(bs, n, k).1
      {
        assert bs[i..][0] == bs[i] && bs[i..][1..] == bs[i + 1..];
        if ok { ArmsText(bs[i..], n + i, Labels()); }
        VisitBranch(bs[i], n + i);
      }
    }

    method VisitBranch(b: Branch, n: nat)
      modifies this
      ensures CoveredBranch(b) && old(Modes()) == IDLE ==> Wrote(old(out), ArmCode(b, n, old(Labels())))
      decreases b
    {
      VisitArm(ResIf(n), b.body);
    }

    method VisitIf(s: Stmt)
      requires s.If?
      modifies this
      ensures Covered(s) && old(Modes()) == IDLE ==> Wrote(old(out), StmtCode(s, old(Labels())))
      decreases s, 0
    {
      hide Text, CoveredBody, CoveredBranches, IfTests, IfArms;
      ghost var k := Labels();
      var memElseIfNum := elseIfNum;
      VisitIfTests(s);
      VisitIfArms(s, memElseIfNum + 1);
      EmitInstr(Mark(EndIf(endIfNum)));
      if Covered(s) {
        var r := IfArms(s, k.elseIf + 1, IfCounted(s, k));
        ThreeTexts(IfTests(s, k), r.0, [Mark(EndIf(r.1.endIf))]);
      }
    }

    /** The first half of `visit_if`: counting, tests, and the jump for when none held. */
    method VisitIfTests(s: Stmt)
      requires s.If?
      modifies this
      ensures Covered(s) && old(Modes()) == IDLE ==> Wrote(old(out), (IfTests(s, old(Labels())), IfCounted(s, old(Labels()))))
    {
      hide Text, TestCode, TestsCode, CoveredBody, CoveredBranches, Fallback;
      ghost var k := Labels();
      elseIfNum := elseIfNum + 1;
      endIfNum := endIfNum + 1;
      VisitCondition(s.cond);
      VisitTests(s.elseIfs);
      EmitFallback(s);
      if Covered(s) {
        ThreeTexts(TestCode(s.cond, ResIf(k.elseIf + 1)), TestsCode(s.elseIfs, k.elseIf + 2),
          Fallback(s.elseIfs, s.otherwise, IfCounted(s, k)));
      }
    }

    /** The jump for when no test held. */
    method EmitFallback(s: Stmt)
      requires s.If?
      modifies this`out, this`elseNum
      ensures elseNum == old(elseNum) + if s.otherwise.Else? then 1 else 0
      ensures out == old(out) + Text(Fallback(s.elseIfs, s.otherwise, Labels()))
    {
      hide Text;
      NoText();
      if s.otherwise.Else? {
        elseNum := elseNum + 1;
        EmitInstr(Jump(ResElse(elseNum)));
      }
      if s.otherwise.NoElse? && |s.elseIfs| == 0 {
        EmitInstr(Jump(EndIf(endIfNum)));
      }
    }

    /** The second half of `visit_if`: the arms. */
    method VisitIfArms(s: Stmt, n: nat)
      requires s.If?
      modifies this
      ensures Covered(s) && old(Modes()) == IDLE ==> Wrote(old(out), IfArms(s, n, old(Labels())))
      decreases s, 0, 0
    {
      hide Text, BranchCode, BranchesCode, CoveredBody, CoveredBranches;
      ghost var k := Labels();
      VisitArm(ResIf(n), s.body);
      VisitArms(s.elseIfs, n + 1);
      match s.otherwise {
        case NoElse =>
        case Else(b) => VisitArm(ResElse(elseNum), b);
      }
      if Covered(s) {
        var (b, k1) := BranchCode(s.body, ResIf(n), k);
        var (bs, k2) := BranchesCode(s.elseIfs, n + 1, k1);
        TextAppend(b, bs);
        if s.otherwise.Else? { TextAppend(b + bs, BranchCode(s.otherwise.stmts, ResElse(k2.els), k2).0); }
      }
    }

    method VisitWhile(s: Stmt)
      requires s.While?
      modifies this
      ensures Covered(s) && old(Modes()) == IDLE ==> Wrote(old(out), StmtCode(s, old(Labels())))
      decreases s, 0
    {
      hide Text, TestCode, BodyCode, CoveredBody;
      ghost var k := Labels();
      loopNum := memLoopNum;
      loopNum := loopNum + 1;
      EmitInstr(Mark(LoopLabel(loopNum)));
      memLoopNum := memLoopNum + 1;
      VisitBlock(s.body);
      VisitLoopTest(s.cond);
      if Covered(s) {
        var r := BodyCode(s.body, LoopCounted(k));
        ThreeTexts([Mark(LoopLabel(k.memLoop + 1))], r.0, TestCode(s.cond, LoopLabel(r.1.loop)));
      }
    }

    method VisitLoopTest(e: Expr)
      modifies this
      ensures IsLoopTest(e) && old(Modes()) == IDLE ==>
        Wrote(old(out), (TestCode(e, LoopLabel(old(loopNum))), old(Labels()).(loop := old(loopNum) - 1)))
    {
      hide Text, TestCode;
      fromLoop := fromLoop + 1;
      VisitExpr(e);
    }

    method VisitScope(body: seq<Stmt>)
      modifies this
      ensures CoveredBody(body) && old(Modes()) == IDLE ==>
        && out == old(out) + Text(OPENING + BodyCode(body, old(Labels())).0 + [Mark(EndIf(0))])
        && Modes() == IDLE && Labels() == BodyCode(body, old(Labels())).1
      decreases body
    {
      hide Text, BodyCode, CoveredBody;
      ghost var k := Labels();
      EmitInstr(Mark(ScopeLabel));
      EmitInstr(CreateFrame);
      EmitInstr(DefTemp(true));
      EmitInstr(DefTemp(false));
      VisitBlock(body);
      EmitInstr(Mark(EndIf(0)));
      if CoveredBody(body) { ScopeText(BodyCode(body, k).0); }
    }

    /** `ifj17_gen` */
    method Gen(program: seq<Stmt>)
      modifies this
      ensures OneScope(program) && old(Modes()) == IDLE && old(Labels()) == START ==>
        out == old(out) + [Header, EOL] + Text(ProgramCode(program[0].body)) + [EOL] && Modes() == IDLE
    {
      hide Text, BodyCode, CoveredBody;
      ghost var ok := OneScope(program) && Modes() == IDLE && Labels() == START;
      ghost var start := out + [Header, EOL];
      Emit([Header, EOL]);
      EmitInstr(Jump(ScopeLabel));
      for i := 0 to |program|
        invariant ok && i == 0 ==> out == start + Text([Jump(ScopeLabel)]) && Modes() == IDLE && Labels() == START
        invariant ok && i == 1 ==> out == start + Text(ProgramCode(program[0].body)) && Modes() == IDLE
      {
        match program[i] {
          case Scope(body) =>
            VisitScope(body);
            if ok { ProgramText(body); }
          case _ => VisitStmt(program[i]);
        }
      }
      Emit([EOL]);
    }
  }

  predicate OneScope(program: seq<Stmt>) {
    |program| == 1 && program[0].Scope? && CoveredBody(program[0].body)
  }

  function CalcOpening(e: Expr): seq<Piece>
    requires IsCalc(e)
  {
    (if Arithmetic(e.op) then Text(TypeCheck(Operand(e.left), Operand(e.right))) else []) + [Op(M_CALC(AluOf(e.op)))]
  }

  function TestOpening(e: Expr, l: Label): seq<Piece>
    requires IsTest(e)
  {
    Text(TypeCheck(Operand(e.left), Operand(e.right))) + [Op(if e.op == Neq then M_JUMPIFNEQ else M_JUMPIFEQ), Lbl(l)]
  }

  lemma Regroup(a: seq<Piece>, b: seq<Piece>, c: seq<Piece>, d: seq<Piece>)
    ensures a + b + c + d == a + (b + c + d)
  {
  }

  lemma OpeningText(e: Expr, l: Label)
    ensures IsTest(e) ==>
      TestOpening(e, l) == Text(TypeCheck(Operand(e.left), Operand(e.right)))
        + [Op(if e.op == Neq then M_JUMPIFNEQ else M_JUMPIFEQ)] + [Lbl(l)]
  {
    hide Text;
  }

  lemma TypeCheckText(a: Symb, b: Symb)
    ensures Text(TypeCheck(a, b)) == [Op(M_TYPE), Temp(true), Sym(a), EOL, Op(M_TYPE), Temp(false), Sym(b), EOL,
                                      Op(M_JUMPIFNEQ), Lbl(EndIf(0)), Temp(true), Temp(false), EOL]
  {
    hide Text;
    var x, y, z := TypeOf(true, a), TypeOf(false, b), JumpIfTypesDiffer(EndIf(0));
    TextOne(x);
    TextNext([x], y);
    assert [x] + [y] == [x, y];
    TextNext([x, y], z);
    assert [x, y] + [z] == TypeCheck(a, b);
  }

  lemma TestText(e: Expr, l: Label)
    ensures IsTest(e) ==>
      Text(TestCode(e, l)) == TestOpening(e, l)
        + (if e.op == Assign then [Sym(Operand(e.right)), Sym(Operand(e.left))] else [Sym(Operand(e.left)), Sym(Operand(e.right))])
        + [EOL]
  {
    hide Text;
    if IsTest(e) { TextNext(TypeCheck(Operand(e.left), Operand(e.right)), Branching(e, l)); }
  }

  lemma CalcText(x: string, e: Expr)
    requires IsCalc(e)
    ensures Text(AssignCode(x, e)) ==
      CalcOpening(e) + [Sym(Var(x))] + [Sym(Operand(e.left)), Sym(Operand(e.right)), EOL]
  {
    var check := if Arithmetic(e.op) then TypeCheck(Operand(e.left), Operand(e.right)) else [];
    TextNext(check, Calc(AluOf(e.op), x, Operand(e.left), Operand(e.right)));
    assert Text([]) == [];
    hide Text;
  }

  lemma UnaryText(x: string, e: Expr)
    requires IsNegation(e) || IsNegated(e)
    ensures Text(AssignCode(x, e)) ==
      [Op(if IsNegation(e) then M_NOT else M_MOVE), Sym(Var(x)),
       Sym(if IsNegation(e) then Operand(e.expr) else Negative(e.expr)), EOL]
  {
    hide Text;
    TextOne(AssignCode(x, e)[0]);
  }

  lemma MoveText(x: string, e: Expr)
    requires IsAtom(e)
    ensures Text(AssignCode(x, e)) == [Op(M_MOVE), Sym(Var(x)), Sym(Operand(e)), EOL]
  {
    hide Text;
    TextOne(Move(x, Operand(e)));
  }

  lemma DeclEnds(ids: seq<string>)
    ensures ids[..0] == [] && ids[..|ids|] == ids && Text(DeclCode([])) == []
  {
  }

  lemma DeclStep(ids: seq<string>, i: nat)
    requires i < |ids|
    ensures Text(DeclCode(ids[..i + 1])) == Text(DeclCode(ids[..i])) + [Op(M_DEFVAR), Sym(Var(ids[i])), EOL]
  {
    hide Text;
    assert ids[..i + 1][..i] == ids[..i];
    TextNext(DeclCode(ids[..i]), DefVar(ids[i]));
  }

  lemma DimEnds(items: seq<Item>)
    ensures items[..0] == [] && items[..|items|] == items && Text(DimCode([])) == []
  {
  }

  lemma DimStep(items: seq<Item>, i: nat)
    requires i < |items|
    ensures Text(DimCode(items[..i + 1])) == Text(DimCode(items[..i])) + Text(DeclCode(items[i].decl.ids))
  {
    hide Text, DeclCode;
    assert items[..i + 1][..i] == items[..i];
    TextAppend(DimCode(items[..i]), DeclCode(items[i].decl.ids));
  }

  lemma NoText()
    ensures Text([]) == []
  {
  }

  lemma ThreeTexts(a: seq<Instr>, b: seq<Instr>, c: seq<Instr>)
    ensures Text(a + b + c) == Text(a) + Text(b) + Text(c)
  {
    hide Text;
    TextAppend(a + b, c);
    TextAppend(a, b);
  }

  lemma BodyText(body: seq<Stmt>, k: Counters)
    requires body != [] && CoveredBody(body)
    ensures Covered(body[0]) && CoveredBody(body[1..])
    ensures var (s, k1) := StmtCode(body[0], k);
      && Text(BodyCode(body, k).0) == Text(s) + Text(BodyCode(body[1..], k1).0)
      && BodyCode(body, k).1 == BodyCode(body[1..], k1).1
  {
    hide Text, StmtCode;
    var (s, k1) := StmtCode(body[0], k);
    TextAppend(s, BodyCode(body[1..], k1).0);
  }

  lemma TestsText(bs: seq<Branch>, n: nat)
    requires bs != [] && CoveredBranches(bs) && CoveredBranch(bs[0])
    ensures CoveredBranches(bs[1..])
    ensures Text(TestsCode(bs, n)) == Text(TestCode(bs[0].cond, ResIf(n))) + Text(TestsCode(bs[1..], n + 1))
  {
    hide Text, TestCode, IsTest, CoveredBody;
    TextAppend(TestCode(bs[0].cond, ResIf(n)), TestsCode(bs[1..], n + 1));
  }

  lemma ArmsText(bs: seq<Branch>, n: nat, k: Counters)
    requires bs != [] && CoveredBranches(bs)
    ensures CoveredBranch(bs[0]) && CoveredBranches(bs[1..])
    ensures var (b, k1) := ArmCode(bs[0], n, k);
      && Text(BranchesCode(bs, n, k).0) == Text(b) + Text(BranchesCode(bs[1..], n + 1, k1).0)
      && BranchesCode(bs, n, k).1 == BranchesCode(bs[1..], n + 1, k1).1
  {
    hide Text, ArmCode, CoveredBranch;
    var (b, k1) := ArmCode(bs[0], n, k);
    TextAppend(b, BranchesCode(bs[1..], n + 1, k1).0);
  }

  lemma ScopeText(code: seq<Instr>)
    ensures Text(OPENING + code + [Mark(EndIf(0))])
         == Text([Mark(ScopeLabel)]) + Text([CreateFrame]) + Text([DefTemp(true)]) + Text([DefTemp(false)])
            + Text(code) + Text([Mark(EndIf(0))])
  {
    hide Text;
    ThreeTexts(OPENING, code, [Mark(EndIf(0))]);
    var a, b, c, d := Mark(ScopeLabel), CreateFrame, DefTemp(true), DefTemp(false);
    TextAppend([a], [b]);
    TextAppend([a, b], [c]);
    TextAppend([a, b, c], [d]);
    assert [a] + [b] == [a, b] && [a, b] + [c] == [a, b, c] && [a, b, c] + [d] == OPENING;
  }

  lemma ProgramText(body: seq<Stmt>)
    requires CoveredBody(body)
    ensures Text(ProgramCode(body)) == Text([Jump(ScopeLabel)])
      + Text(OPENING + BodyCode(body, START).0 + [Mark(EndIf(0))])
  {
    hide Text, BodyCode;
    var code := BodyCode(body, START).0;
    TextAppend([Jump(ScopeLabel)], OPENING + code + [Mark(EndIf(0))]);
    assert [Jump(ScopeLabel)] + (OPENING + code + [Mark(EndIf(0))]) == ProgramCode(body);
  }
}
