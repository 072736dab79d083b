/** The main results about labels: they are unique exactly when no if is nested, every jump then has
    somewhere to go, and every loop closes itself exactly when none has two loops directly inside. */
module LabelSound {
  import opened Options
  import opened Ast
  import opened Ifjcode
  import opened CodegenSpec
  import opened Labels

  // ----- nested ifs print an END_IF label twice

  /** The last if of a body prints the number the counter is left at. */
  lemma {:induction false} LastEnd(body: seq<Stmt>, k: Counters)
    requires CoveredBody(body)
    ensures var (code, k1) := BodyCode(body, k);
      && k.endIf <= k1.endIf && (Ifs(body) > 0 ==> Marks(code, EndIf(k1.endIf)) > 0)
      && (k1.endIf == k.endIf <==> Ifs(body) == 0)
    decreases body, 2
  {
    hide Marks, StmtCode, Covered;
    if body != [] {
      var (s, k1) := StmtCode(body[0], k);
      var (more, k2) := BodyCode(body[1..], k1);
      LastEndStmt(body, k);
      LastEnd(body[1..], k1);
      MarksAppend(s, more, EndIf(k2.endIf));
    }
  }

  lemma {:induction false} LastEndStmt(body: seq<Stmt>, k: Counters)
    requires body != [] && CoveredBody(body)
    ensures var (code, k1) := StmtCode(body[0], k); var n := Ifs(body) - Ifs(body[1..]);
      && n >= 0 && k.endIf <= k1.endIf && (n > 0 ==> Marks(code, EndIf(k1.endIf)) > 0)
      && (k1.endIf == k.endIf <==> n == 0)
    decreases body, 1
  {
    hide Marks, BodyCode, IfTests, IfArms, TestCode;
    var s := body[0];
    match s {
      case Eval(e) =>
      case If(_, _, _, _) =>
        var (arms, k1) := IfArms(s, k.elseIf + 1, IfCounted(s, k));
        LastEndArms(s, k.elseIf + 1, IfCounted(s, k));
        MarksOne(Mark(EndIf(k1.endIf)), EndIf(k1.endIf));
        MarksThree(IfTests(s, k), arms, [Mark(EndIf(k1.endIf))], EndIf(k1.endIf));
      case While(c, b) =>
        var (code, k2) := BodyCode(b, LoopCounted(k));
        LastEnd(b, LoopCounted(k));
        MarksThree([Mark(LoopLabel(k.memLoop + 1))], code, TestCode(c, LoopLabel(k2.loop)), EndIf(k2.endIf));
    }
  }

  function ArmIfs(s: Stmt): nat
    requires s.If?
  {
    Ifs(s.body) + BranchIfs(s.elseIfs) + (match s.otherwise case NoElse => 0 case Else(e) => Ifs(e))
  }

  lemma {:induction false} LastEndArms(s: Stmt, n: nat, k: Counters)
    requires s.If? && Covered(s)
    ensures var (code, k1) := IfArms(s, n, k);
      && k.endIf <= k1.endIf && (ArmIfs(s) > 0 ==> Marks(code, EndIf(k1.endIf)) > 0)
    decreases s, 0
  {
    hide Marks, BranchCode, BranchesCode, CoveredBody, CoveredBranches, Ifs, BranchIfs;
    var (b, k1) := BranchCode(s.body, ResIf(n), k);
    var (bs, k2) := BranchesCode(s.elseIfs, n + 1, k1);
    LastEndBranch(s.body, ResIf(n), k);
    LastEndBranches(s.elseIfs, n + 1, k1);
    MarksAppend(b, bs, EndIf(k2.endIf));
    match s.otherwise {
      case NoElse =>
      case Else(eb) =>
        var (e, k3) := BranchCode(eb, ResElse(k2.els), k2);
        LastEndBranch(eb, ResElse(k2.els), k2);
        MarksThree(b, bs, e, EndIf(k3.endIf));
    }
  }

  lemma {:induction false} LastEndBranch(body: seq<Stmt>, own: Label, k: Counters)
    requires CoveredBody(body)
    ensures var (code, k1) := BranchCode(body, own, k);
      && k.endIf <= k1.endIf && (Ifs(body) > 0 ==> Marks(code, EndIf(k1.endIf)) > 0)
      && (k1.endIf == k.endIf <==> Ifs(body) == 0)
    decreases body, 3
  {
    hide Marks, BodyCode, CoveredBody, Ifs;
    LastEnd(body, k);
    var (code, k1) := BodyCode(body, k);
    MarksThree([Mark(own)], code, [Jump(EndIf(k1.endIf))], EndIf(k1.endIf));
  }

  lemma {:induction false} LastEndBranches(bs: seq<Branch>, n: nat, k: Counters)
    requires CoveredBranches(bs)
    ensures var (code, k1) := BranchesCode(bs, n, k);
      && k.endIf <= k1.endIf && (BranchIfs(bs) > 0 ==> Marks(code, EndIf(k1.endIf)) > 0)
      && (k1.endIf == k.endIf <==> BranchIfs(bs) == 0)
    decreases bs
  {
    hide Marks, BranchCode, CoveredBody, Ifs;
    if bs != [] {
      assert CoveredBranch(bs[0]);
      var (b, k1) := ArmCode(bs[0], n, k);
      var (more, k2) := BranchesCode(bs[1..], n + 1, k1);
      LastEndBranch(bs[0].body, ResIf(n), k);
      LastEndBranches(bs[1..], n + 1, k1);
      MarksAppend(b, more, EndIf(k2.endIf));
    }
  }

  lemma {:induction false} NestedTwice(body: seq<Stmt>, k: Counters) returns (l: Label)
    requires CoveredBody(body) && !Flat(body)
    ensures Marks(BodyCode(body, k).0, l) >= 2
    decreases body
  {
    hide Marks, StmtCode;
    var s := body[0];
    var (code, k1) := StmtCode(s, k);
    var more := BodyCode(body[1..], k1).0;
    if !Flat(body[1..]) {
      l := NestedTwice(body[1..], k1);
    } else if s.If? {
      l := EndIf(k1.endIf);
      NestedEnd(s, k);
    } else {
      l := NestedTwice(s.body, LoopCounted(k));
      LoopText(s, k, l);
    }
    MarksAppend(code, more, l);
  }

  lemma NestedEnd(s: Stmt, k: Counters)
    requires s.If? && Covered(s) && ArmIfs(s) > 0
    ensures var (code, k1) := StmtCode(s, k); Marks(code, EndIf(k1.endIf)) >= 2
  {
    hide Marks, IfTests, IfArms, ArmIfs;
    var (arms, k1) := IfArms(s, k.elseIf + 1, IfCounted(s, k));
    LastEndArms(s, k.elseIf + 1, IfCounted(s, k));
    MarksOne(Mark(EndIf(k1.endIf)), EndIf(k1.endIf));
    MarksThree(IfTests(s, k), arms, [Mark(EndIf(k1.endIf))], EndIf(k1.endIf));
  }

  lemma LoopText(s: Stmt, k: Counters, l: Label)
    requires s.While? && Covered(s)
    ensures Marks(StmtCode(s, k).0, l) >= Marks(BodyCode(s.body, LoopCounted(k)).0, l)
  {
    hide Marks, BodyCode, TestCode;
    var (code, k2) := BodyCode(s.body, LoopCounted(k));
    MarksThree([Mark(LoopLabel(k.memLoop + 1))], code, TestCode(s.cond, LoopLabel(k2.loop)), l);
  }

  lemma ProgramMarks(body: seq<Stmt>, l: Label)
    requires CoveredBody(body)
    ensures Marks(ProgramCode(body), l) == Once(l == ScopeLabel) + Marks(BodyCode(body, START).0, l) + Once(l == EndIf(0))
  {
    hide Marks, BodyCode;
    var head := [Jump(ScopeLabel)] + OPENING;
    var frame := [CreateFrame, DefTemp(true), DefTemp(false)];
    assert head == [Jump(ScopeLabel)] + [Mark(ScopeLabel)] + frame;
    MarksOne(Jump(ScopeLabel), l);
    MarksOne(Mark(ScopeLabel), l);
    Unmarked(frame, l);
    MarksThree([Jump(ScopeLabel)], [Mark(ScopeLabel)], frame, l);
    MarksOne(Mark(EndIf(0)), l);
    MarksThree(head, BodyCode(body, START).0, [Mark(EndIf(0))], l);
  }

  lemma {:induction false} UniqueIffFlat(body: seq<Stmt>)
    requires CoveredBody(body)
    ensures UniqueLabels(ProgramCode(body)) <==> Flat(body)
  {
    hide Marks, BodyCode;
    if Flat(body) {
      forall l ensures Marks(ProgramCode(body), l) <= 1 {
        ProgramMarks(body, l);
        BodyMarks(body, START, l);
      }
    } else {
      var l := NestedTwice(body, START);
      ProgramMarks(body, l);
    }
  }

  // ----- the loop counter

  /** Where the shared counter stands after a body: a lone loop puts it back to the number of the
      loop around it, several leave it too high. */
  lemma {:induction false} LoopCounter(body: seq<Stmt>, k: Counters)
    requires CoveredBody(body)
    ensures CounterAfter(Direct(body), Slim(body), k, BodyCode(body, k).1)
    decreases body, 2
  {
    hide StmtCode, Covered;
    if body != [] {
      LoopCounterStmt(body, k);
      LoopCounter(body[1..], StmtCode(body[0], k).1);
    }
  }

  predicate CounterAfter(loops: nat, slim: bool, k: Counters, k1: Counters) {
    && (loops == 0 ==> k1.memLoop == k.memLoop && k1.loop == k.loop)
    && (loops > 0 ==> k.memLoop <= k1.loop < k1.memLoop)
    && (slim && loops == 1 ==> k1.loop == k.memLoop)
    && (slim && loops > 1 ==> k1.loop > k.memLoop)
  }

  lemma {:induction false} LoopCounterStmt(body: seq<Stmt>, k: Counters)
    requires body != [] && CoveredBody(body)
    ensures Direct(body) >= Direct(body[1..])
    ensures CounterAfter(Direct(body) - Direct(body[1..]), Slim(body), k, StmtCode(body[0], k).1)
    decreases body, 1
  {
    hide BodyCode, IfTests, IfArms, TestCode;
    var s := body[0];
    match s {
      case Eval(e) =>
      case If(_, _, _, _) => LoopCounterArms(s, k.elseIf + 1, IfCounted(s, k));
      case While(c, b) => LoopCounter(b, LoopCounted(k));
    }
  }

  function ArmDirect(s: Stmt): nat
    requires s.If?
  {
    Direct(s.body) + BranchDirect(s.elseIfs) + (match s.otherwise case NoElse => 0 case Else(e) => Direct(e))
  }

  predicate ArmSlim(s: Stmt)
    requires s.If?
  {
    Slim(s.body) && SlimBranches(s.elseIfs) && (match s.otherwise case NoElse => true case Else(e) => Slim(e))
  }

  lemma {:induction false} LoopCounterArms(s: Stmt, n: nat, k: Counters)
    requires s.If? && Covered(s)
    ensures CounterAfter(ArmDirect(s), ArmSlim(s), k, IfArms(s, n, k).1)
    decreases s, 0
  {
    hide BodyCode, BranchesCode, CoveredBody, CoveredBranches, Direct, BranchDirect, Slim, SlimBranches;
    var (b, k1) := BranchCode(s.body, ResIf(n), k);
    var (bs, k2) := BranchesCode(s.elseIfs, n + 1, k1);
    LoopCounter(s.body, k);
    LoopCounterBranches(s.elseIfs, n + 1, k1);
    match s.otherwise {
      case NoElse =>
      case Else(eb) => LoopCounter(eb, k2);
    }
  }

  lemma {:induction false} LoopCounterBranches(bs: seq<Branch>, n: nat, k: Counters)
    requires CoveredBranches(bs)
    ensures CounterAfter(BranchDirect(bs), SlimBranches(bs), k, BranchesCode(bs, n, k).1)
    decreases bs
  {
    hide BodyCode, CoveredBody, Direct, Slim;
    if bs != [] {
      assert CoveredBranch(bs[0]);
      LoopCounter(bs[0].body, k);
      assert ArmCode(bs[0], n, k).1 == BodyCode(bs[0].body, k).1;
      LoopCounterBranches(bs[1..], n + 1, ArmCode(bs[0], n, k).1);
    }
  }

  // ----- every jump has somewhere to go

  predicate Inside(i: Instr, k: Counters, k1: Counters) {
    match Destination(i)
    case None => true
    case Some(l) => l == EndIf(0) || Between(l, k, k1)
  }

  lemma {:induction false} BodyJumps(body: seq<Stmt>, k: Counters)
    requires CoveredBody(body) && Flat(body)
    ensures forall i :: i in BodyCode(body, k).0 ==> Inside(i, k, BodyCode(body, k).1)
    decreases body, 1
  {
    hide StmtCode, Covered;
    if body != [] {
      var (s, k1) := StmtCode(body[0], k);
      var (more, k2) := BodyCode(body[1..], k1);
      StmtMarks(body, k, EndIf(0));
      BodyMarks(body[1..], k1, EndIf(0));
      StmtJumps(body, k);
      BodyJumps(body[1..], k1);
    }
  }

  lemma {:induction false} StmtJumps(body: seq<Stmt>, k: Counters)
    requires body != [] && CoveredBody(body) && Flat(body)
    ensures forall i :: i in StmtCode(body[0], k).0 ==> Inside(i, k, StmtCode(body[0], k).1)
    decreases body, 0
  {
    hide BodyCode, IfTests, IfArms, TestCode;
    var s := body[0];
    match s {
      case Eval(e) => EvalUnmarked(s, k);
      case If(_, _, _, _) =>
        ArmsMarks(body, k.elseIf + 1, IfCounted(s, k), EndIf(0));
        IfTestsJumps(s, k);
        ArmsJumps(body, k.elseIf + 1, IfCounted(s, k));
      case While(c, b) =>
        BodyJumps(b, LoopCounted(k));
        BodyMarks(b, LoopCounted(k), EndIf(0));
        LoopCounter(b, LoopCounted(k));
        TestJumps(c, LoopLabel(BodyCode(b, LoopCounted(k)).1.loop));
    }
  }

  lemma TestJumps(e: Expr, l: Label)
    requires IsTest(e)
    ensures forall i :: i in TestCode(e, l) ==> Destination(i) == None || Destination(i) == Some(EndIf(0)) || Destination(i) == Some(l)
  {
  }

  lemma {:induction false} TestsJumps(bs: seq<Branch>, n: nat)
    requires CoveredBranches(bs)
    ensures forall i :: i in TestsCode(bs, n) ==>
      match Destination(i) case None => true case Some(l) => l == EndIf(0) || (l.ResIf? && n <= l.n < n + |bs|)
  {
    hide TestCode;
    if bs != [] {
      assert CoveredBranch(bs[0]);
      TestJumps(bs[0].cond, ResIf(n));
      TestsJumps(bs[1..], n + 1);
    }
  }

  lemma IfTestsJumps(s: Stmt, k: Counters)
    requires s.If? && Covered(s)
    ensures forall i :: i in IfTests(s, k) ==> Inside(i, k, IfCounted(s, k))
  {
    hide TestCode, TestsCode, CoveredBranches, CoveredBody;
    TestJumps(s.cond, ResIf(k.elseIf + 1));
    TestsJumps(s.elseIfs, k.elseIf + 2);
  }

  predicate InArm(i: Instr, k: Counters, k1: Counters) {
    Inside(i, k, k1) || Destination(i) == Some(EndIf(k.endIf))
  }

  lemma {:induction false} ArmsJumps(body: seq<Stmt>, n: nat, k: Counters)
    requires body != [] && CoveredBody(body) && Flat(body) && body[0].If?
    ensures var (code, k1) := IfArms(body[0], n, k); forall i :: i in code ==> InArm(i, k, k1)
    decreases body, 0, 0
  {
    hide BranchCode, BranchesCode, CoveredBranches;
    var s := body[0];
    var (b, k1) := BranchCode(s.body, ResIf(n), k);
    var (bs, k2) := BranchesCode(s.elseIfs, n + 1, k1);
    BranchJumps(s.body, ResIf(n), k);
    BranchesJumps(s.elseIfs, n + 1, k1);
    match s.otherwise {
      case NoElse =>
      case Else(eb) => BranchJumps(eb, ResElse(k2.els), k2);
    }
  }

  lemma {:induction false} BranchJumps(body: seq<Stmt>, own: Label, k: Counters)
    requires CoveredBody(body) && Ifs(body) == 0
    ensures var (code, k1) := BranchCode(body, own, k);
      OnlyLoops(k, k1) && forall i :: i in code ==> InArm(i, k, k1)
    decreases body, 2
  {
    hide BodyCode;
    NoIfsFlat(body);
    BodyMarks(body, k, own);
    BodyJumps(body, k);
  }

  lemma {:induction false} BranchesJumps(bs: seq<Branch>, n: nat, k: Counters)
    requires CoveredBranches(bs) && BranchIfs(bs) == 0
    ensures var (code, k1) := BranchesCode(bs, n, k);
      OnlyLoops(k, k1) && forall i :: i in code ==> InArm(i, k, k1)
    decreases bs
  {
    hide BranchCode;
    if bs != [] {
      assert CoveredBranch(bs[0]);
      var (b, k1) := ArmCode(bs[0], n, k);
      BranchJumps(bs[0].body, ResIf(n), k);
      BranchesJumps(bs[1..], n + 1, k1);
    }
  }

  /** Every jump of a program with flat ifs goes to a label that is printed exactly once. */
  lemma {:induction false} JumpsLand(body: seq<Stmt>, i: Instr)
    requires CoveredBody(body) && Flat(body) && i in ProgramCode(body) && Destination(i).Some?
    ensures Marks(ProgramCode(body), Destination(i).value) == 1
  {
    hide Marks, BodyCode;
    var l := Destination(i).value;
    ProgramMarks(body, l);
    BodyMarks(body, START, l);
    BodyJumps(body, START);
  }

  // ----- loops close themselves

  /** The loops left open by a stretch of code: a loop label opens, a jump back must close the loop
      opened last. */
  function Scan(code: seq<Instr>, open: seq<int>): Option<seq<int>> {
    if code == [] then Some(open)
    else
      match code[0]
      case Mark(LoopLabel(i)) => Scan(code[1..], open + [i])
      case JumpIfEq(LoopLabel(i), _, _) =>
        if open != [] && open[|open| - 1] == i then Scan(code[1..], open[..|open| - 1]) else None
      case _ => Scan(code[1..], open)
  }

  /** Every jump back goes to the label of the loop it closes. */
  predicate Bracketed(code: seq<Instr>) { Scan(code, []) == Some([]) }

  function Then(a: Option<seq<int>>, code: seq<Instr>): Option<seq<int>> {
    match a
    case None => None
    case Some(open) => Scan(code, open)
  }

  lemma {:induction false} ScanAppend(a: seq<Instr>, b: seq<Instr>, open: seq<int>)
    ensures Scan(a + b, open) == Then(Scan(a, open), b)
  {
    if a == [] {
      assert a + b == b;
    } else {
      assert (a + b)[1..] == a[1..] + b;
      match a[0] {
        case Mark(LoopLabel(i)) => ScanAppend(a[1..], b, open + [i]);
        case JumpIfEq(LoopLabel(i), _, _) => if open != [] { ScanAppend(a[1..], b, open[..|open| - 1]); }
        case _ => ScanAppend(a[1..], b, open);
      }
    }
  }

  predicate NoLoop(i: Instr) {
    match i
    case Mark(l) => !l.LoopLabel?
    case JumpIfEq(l, _, _) => !l.LoopLabel?
    case _ => true
  }

  lemma {:induction false} ScanSame(code: seq<Instr>, open: seq<int>)
    requires forall i :: i in code ==> NoLoop(i)
    ensures Scan(code, open) == Some(open)
  {
    if code != [] {
      assert NoLoop(code[0]);
      ScanSame(code[1..], open);
    }
  }

  function Clean(slim: bool, open: seq<int>): Option<seq<int>> { if slim then Some(open) else None }

  lemma {:induction false} BodyScan(body: seq<Stmt>, k: Counters, open: seq<int>)
    requires CoveredBody(body)
    ensures Scan(BodyCode(body, k).0, open) == Clean(Slim(body), open)
    decreases body, 2
  {
    hide StmtCode, Covered;
    if body != [] {
      hide Scan;
      var (s, k1) := StmtCode(body[0], k);
      StmtScan(body, k, open);
      BodyScan(body[1..], k1, open);
      ScanAppend(s, BodyCode(body[1..], k1).0, open);
    }
  }

  predicate StmtSlim(s: Stmt) {
    match s
    case If(_, _, _, _) => ArmSlim(s)
    case While(_, b) => Slim(b) && Direct(b) <= 1
    case _ => true
  }

  lemma {:induction false} StmtScan(body: seq<Stmt>, k: Counters, open: seq<int>)
    requires body != [] && CoveredBody(body)
    ensures Scan(StmtCode(body[0], k).0, open) == Clean(StmtSlim(body[0]), open)
    decreases body, 1
  {
    hide Scan, BodyCode, IfTests, IfArms, TestCode, ArmSlim;
    var s := body[0];
    match s {
      case Eval(e) => ScanSame(StmtCode(s, k).0, open) by { EvalUnmarked(s, k); }
      case If(_, _, _, _) =>
        var (arms, k1) := IfArms(s, k.elseIf + 1, IfCounted(s, k));
        IfTestsUnmarked(s, k);
        IfTestsJumps(s, k);
        ScanSame(IfTests(s, k), open);
        ArmsScan(s, k.elseIf + 1, IfCounted(s, k), open);
        ScanSame([Mark(EndIf(k1.endIf))], open);
        ScanAppend(IfTests(s, k), arms, open);
        ScanAppend(IfTests(s, k) + arms, [Mark(EndIf(k1.endIf))], open);
      case While(c, b) => LoopScan(s, k, open);
    }
  }

  lemma {:induction false} LoopScan(s: Stmt, k: Counters, open: seq<int>)
    requires s.While? && Covered(s)
    ensures Scan(StmtCode(s, k).0, open) == Clean(Slim(s.body) && Direct(s.body) <= 1, open)
    decreases s.body, 3
  {
    hide Scan, BodyCode, TestCode;
    var own := k.memLoop + 1;
    var (code, k2) := BodyCode(s.body, LoopCounted(k));
    var head := [Mark(LoopLabel(own))];
    ScanMark(own, open);
    BodyScan(s.body, LoopCounted(k), open + [own]);
    LoopCounter(s.body, LoopCounted(k));
    ScanAppend(head, code, open);
    ScanAppend(head + code, TestCode(s.cond, LoopLabel(k2.loop)), open);
    ScanTest(s.cond, k2.loop, open + [own]);
  }

  lemma ScanMark(own: int, open: seq<int>)
    ensures Scan([Mark(LoopLabel(own))], open) == Some(open + [own])
  {
    assert [Mark(LoopLabel(own))][1..] == [];
  }

  lemma ScanTest(e: Expr, l: int, open: seq<int>)
    requires IsLoopTest(e) && open != []
    ensures Scan(TestCode(e, LoopLabel(l)), open) == Clean(open[|open| - 1] == l, open[..|open| - 1])
  {
    var check := TypeCheck(Operand(e.left), Operand(e.right));
    var jump := [Branching(e, LoopLabel(l))];
    ScanSame(check, open);
    ScanAppend(check, jump, open);
    assert jump[0] == JumpIfEq(LoopLabel(l), Operand(e.left), Operand(e.right));
    assert jump[1..] == [];
    assert Scan(jump[1..], open[..|open| - 1]) == Some(open[..|open| - 1]);
  }

  lemma {:induction false} ArmsScan(s: Stmt, n: nat, k: Counters, open: seq<int>)
    requires s.If? && Covered(s)
    ensures Scan(IfArms(s, n, k).0, open) == Clean(ArmSlim(s), open)
    decreases s, 0
  {
    hide Scan, BranchCode, BranchesCode, CoveredBody, CoveredBranches, Slim, SlimBranches;
    var (b, k1) := BranchCode(s.body, ResIf(n), k);
    var (bs, k2) := BranchesCode(s.elseIfs, n + 1, k1);
    BranchScan(s.body, ResIf(n), k, open);
    BranchesScan(s.elseIfs, n + 1, k1, open);
    ScanAppend(b, bs, open);
    match s.otherwise {
      case NoElse =>
      case Else(eb) =>
        BranchScan(eb, ResElse(k2.els), k2, open);
        ScanAppend(b + bs, BranchCode(eb, ResElse(k2.els), k2).0, open);
    }
  }

  lemma {:induction false} BranchScan(body: seq<Stmt>, own: Label, k: Counters, open: seq<int>)
    requires CoveredBody(body) && !own.LoopLabel?
    ensures Scan(BranchCode(body, own, k).0, open) == Clean(Slim(body), open)
    decreases body, 3
  {
    hide Scan, BodyCode, Slim, CoveredBody;
    var (code, k1) := BodyCode(body, k);
    ScanSame([Mark(own)], open);
    BodyScan(body, k, open);
    ScanSame([Jump(EndIf(k1.endIf))], open);
    ScanAppend([Mark(own)], code, open);
    ScanAppend([Mark(own)] + code, [Jump(EndIf(k1.endIf))], open);
  }

  lemma {:induction false} BranchesScan(bs: seq<Branch>, n: nat, k: Counters, open: seq<int>)
    requires CoveredBranches(bs)
    ensures Scan(BranchesCode(bs, n, k).0, open) == Clean(SlimBranches(bs), open)
    decreases bs
  {
    hide BranchCode, Slim, CoveredBody;
    if bs != [] {
      hide Scan;
      assert CoveredBranch(bs[0]);
      var (b, k1) := ArmCode(bs[0], n, k);
      BranchScan(bs[0].body, ResIf(n), k, open);
      BranchesScan(bs[1..], n + 1, k1, open);
      ScanAppend(b, BranchesCode(bs[1..], n + 1, k1).0, open);
    }
  }

  lemma {:induction false} BracketedIffSlim(body: seq<Stmt>)
    requires CoveredBody(body)
    ensures Bracketed(ProgramCode(body)) <==> Slim(body)
  {
    hide Scan, BodyCode;
    var head := [Jump(ScopeLabel)] + OPENING;
    var code := BodyCode(body, START).0;
    ScanSame(head, []);
    BodyScan(body, START, []);
    ScanSame([Mark(EndIf(0))], []);
    ScanAppend(head, code, []);
    ScanAppend(head + code, [Mark(EndIf(0))], []);
  }
}
