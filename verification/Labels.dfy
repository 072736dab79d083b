/** The labels of the emitted code: which of them are unique, where jumps lead, and which loop a
    loop closes. Ifs take their numbers from counters that are read again after their arms, and
    all loops share one counter. */
module Labels {
  import opened Options
  import opened Ast
  import opened Ifjcode
  import opened CodegenSpec

  // ----- shapes of programs

  /** The ifs anywhere in a body. */
  function Ifs(body: seq<Stmt>): nat
    decreases body
  {
    if body == [] then 0
    else
      (match body[0]
       case If(_, b, bs, o) => 1 + Ifs(b) + BranchIfs(bs) + (match o case NoElse => 0 case Else(e) => Ifs(e))
       case While(_, b) => Ifs(b)
       case _ => 0) + Ifs(body[1..])
  }

  function BranchIfs(bs: seq<Branch>): nat
    decreases bs
  {
    if bs == [] then 0 else Ifs(bs[0].body) + BranchIfs(bs[1..])
  }

  /** No if stands inside another one. */
  predicate Flat(body: seq<Stmt>)
    decreases body
  {
    body == [] ||
    (&& (match body[0]
         case If(_, b, bs, o) => Ifs(b) == 0 && BranchIfs(bs) == 0 && (match o case NoElse => true case Else(e) => Ifs(e) == 0)
         case While(_, b) => Flat(b)
         case _ => true)
     && Flat(body[1..]))
  }

  /** The loops of a body that stand in no other loop of it. */
  function Direct(body: seq<Stmt>): nat
    decreases body
  {
    if body == [] then 0
    else
      (match body[0]
       case If(_, b, bs, o) => Direct(b) + BranchDirect(bs) + (match o case NoElse => 0 case Else(e) => Direct(e))
       case While(_, _) => 1
       case _ => 0) + Direct(body[1..])
  }

  function BranchDirect(bs: seq<Branch>): nat
    decreases bs
  {
    if bs == [] then 0 else Direct(bs[0].body) + BranchDirect(bs[1..])
  }

  /** No loop has two loops directly in its body. */
  predicate Slim(body: seq<Stmt>)
    decreases body
  {
    body == [] ||
    (&& (match body[0]
         case If(_, b, bs, o) => Slim(b) && SlimBranches(bs) && (match o case NoElse => true case Else(e) => Slim(e))
         case While(_, b) => Slim(b) && Direct(b) <= 1
         case _ => true)
     && Slim(body[1..]))
  }

  predicate SlimBranches(bs: seq<Branch>)
    decreases bs
  {
    bs == [] || (Slim(bs[0].body) && SlimBranches(bs[1..]))
  }

  // ----- labels in code

  /** How often a label is printed. */
  function Marks(code: seq<Instr>, l: Label): nat {
    if code == [] then 0 else (if code[0] == Mark(l) then 1 else 0) + Marks(code[1..], l)
  }

  ghost predicate UniqueLabels(code: seq<Instr>) {
    forall l :: Marks(code, l) <= 1
  }

  function Destination(i: Instr): Option<Label> {
    match i
    case JumpIfTypesDiffer(l) => Some(l)
    case Jump(l) => Some(l)
    case JumpIfEq(l, _, _) => Some(l)
    case JumpIfNeq(l, _, _) => Some(l)
    case _ => None
  }

  lemma {:induction false} MarksAppend(a: seq<Instr>, b: seq<Instr>, l: Label)
    ensures Marks(a + b, l) == Marks(a, l) + Marks(b, l)
  {
    if a == [] {
      assert a + b == b;
    } else {
      MarksAppend(a[1..], b, l);
      assert (a + b)[1..] == a[1..] + b;
    }
  }

  lemma {:induction false} MarkedOnce(code: seq<Instr>, l: Label, i: nat, j: nat)
    requires i < j < |code| && code[i] == code[j] == Mark(l)
    ensures Marks(code, l) >= 2
  {
    MarksAppend(code[..j], code[j..], l);
    MarksAppend(code[..i], code[i..j], l);
    assert code[..j] + code[j..] == code && code[..i] + code[i..j] == code[..j];
  }

  lemma {:induction false} Unmarked(code: seq<Instr>, l: Label)
    requires forall i :: i in code ==> !i.Mark?
    ensures Marks(code, l) == 0
  {
    if code != [] { Unmarked(code[1..], l); }
  }

  lemma MarksThree(a: seq<Instr>, b: seq<Instr>, c: seq<Instr>, l: Label)
    ensures Marks(a + b + c, l) == Marks(a, l) + Marks(b, l) + Marks(c, l)
  {
    hide Marks;
    MarksAppend(a + b, c, l);
    MarksAppend(a, b, l);
  }

  lemma MarksOne(i: Instr, l: Label)
    ensures Marks([i], l) == if i == Mark(l) then 1 else 0
  {
    assert [i][1..] == [];
  }

  // ----- counters

  /** The labels handed out between two states of the counters. */
  predicate Between(l: Label, a: Counters, b: Counters) {
    match l
    case ScopeLabel => false
    case ResIf(n) => a.elseIf < n <= b.elseIf
    case ResElse(n) => a.els < n <= b.els
    case EndIf(n) => a.endIf < n <= b.endIf
    case LoopLabel(i) => a.memLoop < i <= b.memLoop
  }

  predicate NoLater(a: Counters, b: Counters) {
    a.elseIf <= b.elseIf && a.els <= b.els && a.endIf <= b.endIf && a.memLoop <= b.memLoop
  }

  /** Only loops in between. */
  predicate OnlyLoops(a: Counters, b: Counters) {
    a.elseIf == b.elseIf && a.els == b.els && a.endIf == b.endIf && a.memLoop <= b.memLoop
  }

  function Once(b: bool): nat { if b then 1 else 0 }

  // ----- every label once, when no if is nested

  lemma {:induction false} BodyMarks(body: seq<Stmt>, k: Counters, l: Label)
    requires CoveredBody(body) && Flat(body)
    ensures var (code, k1) := BodyCode(body, k);
      && NoLater(k, k1) && (Ifs(body) == 0 ==> OnlyLoops(k, k1))
      && Marks(code, l) == Once(Between(l, k, k1))
    decreases body, 1
  {
    hide Marks, StmtCode, Covered;
    if body == [] {
      Unmarked([], l);
    } else {
      var (s, k1) := StmtCode(body[0], k);
      StmtMarks(body, k, l);
      BodyMarks(body[1..], k1, l);
      MarksAppend(s, BodyCode(body[1..], k1).0, l);
    }
  }

  lemma {:induction false} StmtMarks(body: seq<Stmt>, k: Counters, l: Label)
    requires body != [] && CoveredBody(body) && Flat(body)
    ensures var (code, k1) := StmtCode(body[0], k);
      && NoLater(k, k1) && (Ifs(body) == 0 ==> OnlyLoops(k, k1))
      && Marks(code, l) == Once(Between(l, k, k1))
    decreases body, 0
  {
    hide Marks, BodyCode, IfTests, IfArms, TestCode, AssignCode, DimCode, IsAssignment, IsDeclaration;
    var s := body[0];
    match s {
      case Eval(e) =>
        EvalUnmarked(s, k);
        Unmarked(StmtCode(s, k).0, l);
      case If(_, _, _, _) =>
        var (arms, k1) := IfArms(s, k.elseIf + 1, IfCounted(s, k));
        IfTestsUnmarked(s, k);
        Unmarked(IfTests(s, k), l);
        ArmsMarks(body, k.elseIf + 1, IfCounted(s, k), l);
        MarksOne(Mark(EndIf(k1.endIf)), l);
        MarksThree(IfTests(s, k), arms, [Mark(EndIf(k1.endIf))], l);
      case While(c, b) =>
        var (code, k2) := BodyCode(b, LoopCounted(k));
        BodyMarks(b, LoopCounted(k), l);
        Unmarked(TestCode(c, LoopLabel(k2.loop)), l) by { TestUnmarked(c, LoopLabel(k2.loop)); }
        MarksOne(Mark(LoopLabel(k.memLoop + 1)), l);
        MarksThree([Mark(LoopLabel(k.memLoop + 1))], code, TestCode(c, LoopLabel(k2.loop)), l);
    }
  }

  /** The arms of a flat if print their own labels and those of the loops in them. */
  lemma {:induction false} ArmsMarks(body: seq<Stmt>, n: nat, k: Counters, l: Label)
    requires body != [] && CoveredBody(body) && Flat(body) && body[0].If?
    ensures var s := body[0]; var (code, k1) := IfArms(s, n, k);
      && OnlyLoops(k, k1)
      && Marks(code, l) == Once(Between(l, k, k1)) + Once(l.ResIf? && n <= l.n <= n + |s.elseIfs|)
                           + Once(s.otherwise.Else? && l == ResElse(k.els))
    decreases body, 0, 0
  {
    hide Marks, BranchCode, BranchesCode, CoveredBranches;
    var s := body[0];
    var (b, k1) := BranchCode(s.body, ResIf(n), k);
    var (bs, k2) := BranchesCode(s.elseIfs, n + 1, k1);
    BranchMarks(s.body, ResIf(n), k, l);
    BranchesMarks(s.elseIfs, n + 1, k1, l);
    MarksAppend(b, bs, l);
    match s.otherwise {
      case NoElse =>
      case Else(eb) =>
        BranchMarks(eb, ResElse(k2.els), k2, l);
        MarksAppend(b + bs, BranchCode(eb, ResElse(k2.els), k2).0, l);
    }
  }

  lemma {:induction false} BranchMarks(body: seq<Stmt>, own: Label, k: Counters, l: Label)
    requires CoveredBody(body) && Ifs(body) == 0
    ensures var (code, k1) := BranchCode(body, own, k);
      && OnlyLoops(k, k1)
      && Marks(code, l) == Once(Between(l, k, k1)) + Once(l == own)
    decreases body, 2
  {
    hide Marks, BodyCode;
    NoIfsFlat(body);
    BodyMarks(body, k, l);
    var (code, k1) := BodyCode(body, k);
    MarksOne(Mark(own), l);
    MarksOne(Jump(EndIf(k1.endIf)), l);
    MarksThree([Mark(own)], code, [Jump(EndIf(k1.endIf))], l);
  }

  lemma {:induction false} BranchesMarks(bs: seq<Branch>, n: nat, k: Counters, l: Label)
    requires CoveredBranches(bs) && BranchIfs(bs) == 0
    ensures var (code, k1) := BranchesCode(bs, n, k);
      && OnlyLoops(k, k1)
      && Marks(code, l) == Once(Between(l, k, k1)) + Once(l.ResIf? && n <= l.n < n + |bs|)
    decreases bs
  {
    hide Marks, BranchCode;
    if bs == [] {
      Unmarked([], l);
    } else {
      assert CoveredBranch(bs[0]);
      var (b, k1) := ArmCode(bs[0], n, k);
      BranchMarks(bs[0].body, ResIf(n), k, l);
      BranchesMarks(bs[1..], n + 1, k1, l);
      MarksAppend(b, BranchesCode(bs[1..], n + 1, k1).0, l);
    }
  }

  lemma {:induction false} NoIfsFlat(body: seq<Stmt>)
    requires Ifs(body) == 0
    ensures Flat(body)
    decreases body
  {
    if body != [] {
      if body[0].While? { NoIfsFlat(body[0].body); }
      NoIfsFlat(body[1..]);
    }
  }

  lemma TestUnmarked(e: Expr, l: Label)
    requires IsTest(e)
    ensures forall i :: i in TestCode(e, l) ==> !i.Mark?
  {
  }

  lemma {:induction false} TestsUnmarked(bs: seq<Branch>, n: nat)
    requires CoveredBranches(bs)
    ensures forall i :: i in TestsCode(bs, n) ==> !i.Mark?
  {
    hide TestCode;
    if bs != [] {
      assert CoveredBranch(bs[0]);
      TestUnmarked(bs[0].cond, ResIf(n));
      TestsUnmarked(bs[1..], n + 1);
    }
  }

  lemma IfTestsUnmarked(s: Stmt, k: Counters)
    requires s.If? && Covered(s)
    ensures forall i :: i in IfTests(s, k) ==> !i.Mark?
  {
    hide TestCode, TestsCode, CoveredBranches, CoveredBody;
    TestUnmarked(s.cond, ResIf(k.elseIf + 1));
    TestsUnmarked(s.elseIfs, k.elseIf + 2);
  }

  /** Declarations and assignments print no label, and their only jump leaves the program. */
  lemma EvalUnmarked(s: Stmt, k: Counters)
    requires s.Eval? && Covered(s)
    ensures forall i :: i in StmtCode(s, k).0 ==> !i.Mark? && (Destination(i) == None || Destination(i) == Some(EndIf(0)))
  {
    if IsAssignment(s.expr) {
    } else {
      DimUnmarked(s.expr.items);
    }
  }

  lemma {:induction false} DimUnmarked(items: seq<Item>)
    ensures forall i :: i in DimCode(items) ==> i.DefVar?
  {
    hide DeclCode;
    if items != [] {
      DimUnmarked(items[..|items| - 1]);
      DeclUnmarked(items[|items| - 1].decl.ids);
    }
  }

  lemma {:induction false} DeclUnmarked(ids: seq<string>)
    ensures forall i :: i in DeclCode(ids) ==> i.DefVar?
  {
    if ids != [] { DeclUnmarked(ids[..|ids| - 1]); }
  }
}
