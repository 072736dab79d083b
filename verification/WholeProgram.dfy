/** The compiler theorems for whole programs. */
module WholeProgram {
  import opened Options
  import opened Tokens
  import opened Ast
  import opened Ifjcode
  import opened CodegenSpec
  import opened Labels
  import opened LabelSound
  import opened Meaning
  import opened Simulation
  import opened CompilerCorrect

  const BEGIN := Running(0, map[], NoFrame)

  /** What the program means when loops may go round `fuel` times. */
  function Result(body: seq<Stmt>, fuel: nat, fall: bool): Outcome
    requires CoveredBody(body)
  {
    ExecBody(body, map[], fuel, fall)
  }

  /** The machine has stopped with the store the source ends in. */
  predicate Agrees(code: seq<Instr>, c: Config, r: Outcome) {
    match r
    case Done(st) => Here(c, |code|, st)
    case Left(st) => Here(c, |code|, st)
    case Wrong(st) => c == Failed(st)
    case Unfinished(_) => false
  }

  lemma Prologue(code: seq<Instr>)
    requires UniqueLabels(code) && At(code, 0, [Jump(ScopeLabel)] + OPENING)
    ensures Here(Steps(code, BEGIN, 5), 5, map[])
  {
    hide Target, Marks, UniqueLabels, Step, Steps, At;
    Opened(code);
    MarkAt(code, 1, ScopeLabel);
    Enters(code);
    Opens(code);
    FiveSteps(code, BEGIN);
  }

  lemma Opened(code: seq<Instr>)
    requires At(code, 0, [Jump(ScopeLabel)] + OPENING)
    ensures At(code, 1, [Mark(ScopeLabel)]) && code[0] == Jump(ScopeLabel) && code[2] == CreateFrame
    ensures |code| >= 5 && code[3] == DefTemp(true) && code[4] == DefTemp(false)
  {
    var head := [Jump(ScopeLabel)] + OPENING;
    assert forall k :: 0 <= k < 5 ==> code[..5][k] == head[k];
  }

  lemma Enters(code: seq<Instr>)
    requires |code| >= 5 && code[0] == Jump(ScopeLabel) && code[1] == Mark(ScopeLabel) && Target(code, ScopeLabel) == 1
    ensures Step(code, Step(code, BEGIN)) == Running(2, map[], NoFrame)
  {
    hide Target;
  }

  lemma Opens(code: seq<Instr>)
    requires |code| >= 5 && code[2] == CreateFrame && code[3] == DefTemp(true) && code[4] == DefTemp(false)
    ensures Step(code, Step(code, Step(code, Running(2, map[], NoFrame)))) == Running(5, map[], Frame(Unset, Unset))
  {
    hide Target;
    assert Step(code, Running(2, map[], NoFrame)) == Running(3, map[], Frame(Undeclared, Undeclared));
    assert Step(code, Running(3, map[], Frame(Undeclared, Undeclared))) == Running(4, map[], Frame(Unset, Undeclared));
  }

  lemma FiveSteps(code: seq<Instr>, c: Config)
    ensures Steps(code, c, 5) == Step(code, Step(code, Step(code, Step(code, Step(code, c)))))
  {
    hide Step;
    ThreeSteps(code, Step(code, Step(code, c)));
    assert Steps(code, c, 5) == Steps(code, Step(code, c), 4);
    assert Steps(code, Step(code, c), 4) == Steps(code, Step(code, Step(code, c)), 3);
  }

  /** Running the code gives what the source means: it ends when the source does, in the same
      store, fails when the source goes wrong, and is still running when the rounds run out. */
  lemma {:induction false} Correct(body: seq<Stmt>, fuel: nat) returns (n: nat)
    requires Served(body)
    ensures var code := ProgramCode(body); var c := Steps(code, BEGIN, n); var r := Result(body, fuel, true);
      if r.Unfinished? then n >= fuel && !Stopped(code, c) else Stopped(code, c) && Agrees(code, c, r)
  {
    hide At, Steps, Target, Marks, BodyCode, ExecBody, CoveredBody, Flat, Slim;
    var code, seg := ProgramCode(body), BodyCode(body, START).0;
    var head, tail := [Jump(ScopeLabel)] + OPENING, [Mark(EndIf(0))];
    UniqueIffFlat(body);
    AtStart(code);
    AtThree(code, 0, head, seg, tail);
    MarkAt(code, 5 + |seg|, EndIf(0));
    Prologue(code);
    var c1 := Steps(code, BEGIN, 5);
    n := BodySim(code, c1, 5, body, START, fuel);
    StepsAdd(code, BEGIN, 5, n);
    n := 5 + n;
    var c := Steps(code, BEGIN, n);
    var r := ExecBody(body, map[], fuel, true);
    if r.Done? || r.Left? {
      MarkSim(code, c, EndIf(0));
      OneStep(code, c);
      StepsAdd(code, BEGIN, n, 1);
      n := n + 1;
    }
  }

  lemma AtStart(code: seq<Instr>)
    ensures At(code, 0, code)
  {
  }

  /** Whatever the machine stops with is what the source means. */
  lemma {:induction false} StopsAsMeant(body: seq<Stmt>, n: nat)
    requires Served(body) && Stopped(ProgramCode(body), Steps(ProgramCode(body), BEGIN, n))
    ensures Agrees(ProgramCode(body), Steps(ProgramCode(body), BEGIN, n), Result(body, n + 1, true))
  {
    hide At, Steps, Step, Target, ProgramCode, ExecBody, CoveredBody, Flat, Slim, Agrees;
    var code := ProgramCode(body);
    var m := Correct(body, n + 1);
    if Result(body, n + 1, true).Unfinished? {
      StepsAdd(code, BEGIN, n, m - n);
      StaysStopped(code, Steps(code, BEGIN, n), m - n);
    } else {
      OneStop(code, BEGIN, n, m);
    }
  }

  lemma {:induction false} OneStop(code: seq<Instr>, c: Config, m: nat, n: nat)
    requires Stopped(code, Steps(code, c, m)) && Stopped(code, Steps(code, c, n))
    ensures Steps(code, c, m) == Steps(code, c, n)
    decreases if m <= n then 0 else 1
  {
    hide Step, Steps;
    if m <= n {
      StepsAdd(code, c, m, n - m);
      StaysStopped(code, Steps(code, c, m), n - m);
    } else {
      OneStop(code, c, n, m);
    }
  }

  /** The machine stops exactly when the source ends. */
  lemma {:induction false} StopsIffEnds(body: seq<Stmt>)
    requires Served(body)
    ensures (exists n: nat :: Stopped(ProgramCode(body), Steps(ProgramCode(body), BEGIN, n)))
       <==> (exists fuel: nat :: !Result(body, fuel, true).Unfinished?)
  {
    hide Steps, Stopped, ProgramCode, Result, CoveredBody, Flat, Slim;
    if n: nat :| Stopped(ProgramCode(body), Steps(ProgramCode(body), BEGIN, n)) {
      StopsAsMeant(body, n);
      assert !Result(body, n + 1, true).Unfinished?;
    }
    if fuel: nat :| !Result(body, fuel, true).Unfinished? {
      var n := Correct(body, fuel);
      assert Stopped(ProgramCode(body), Steps(ProgramCode(body), BEGIN, n));
    }
  }

  // ----- elseif without else

  /** Every if with an `elseif` has an `else`. */
  predicate Closed(body: seq<Stmt>)
    decreases body
  {
    body == [] ||
    (&& (match body[0]
         case If(_, b, bs, o) =>
           Closed(b) && ClosedBranches(bs) && (match o case NoElse => bs == [] case Else(e) => Closed(e))
         case While(_, b) => Closed(b)
         case _ => true)
     && Closed(body[1..]))
  }

  predicate ClosedBranches(bs: seq<Branch>)
    decreases bs
  {
    bs == [] || (Closed(bs[0].body) && ClosedBranches(bs[1..]))
  }

  lemma {:induction false} ClosedArm(bs: seq<Branch>, i: nat)
    requires ClosedBranches(bs) && i < |bs|
    ensures Closed(bs[i].body)
  {
    if i > 0 { ClosedArm(bs[1..], i - 1); }
  }

  /** Then falling into the first arm never happens, and an if without `else` is skipped. */
  lemma {:induction false} SameMeaning(body: seq<Stmt>, store: Store, fuel: nat)
    requires CoveredBody(body) && Closed(body)
    ensures ExecBody(body, store, fuel, true) == ExecBody(body, store, fuel, false)
    decreases fuel, body, 1
  {
    hide Exec, Covered;
    if body != [] {
      SameStmt(body, store, fuel);
      var r := Exec(body[0], store, fuel, true);
      if r.Done? { SameMeaning(body[1..], r.store, fuel); }
    }
  }

  lemma {:induction false} SameStmt(body: seq<Stmt>, store: Store, fuel: nat)
    requires body != [] && CoveredBody(body) && Closed(body)
    ensures Exec(body[0], store, fuel, true) == Exec(body[0], store, fuel, false)
    decreases fuel, body, 0
  {
    hide ExecBody, Pick, SetTo, DeclareItems, Loop;
    HeadWhole(body);
    var s := body[0];
    match s {
      case Eval(e) =>
      case If(_, _, _, _) =>
        TestedCovered(s);
        PickInRange(Tested(s), store);
        match Pick(Tested(s), store) {
          case Arm(i) =>
            if i == 0 {
              SameMeaning(s.body, store, fuel);
            } else {
              ClosedArm(s.elseIfs, i - 1);
              BranchCovered(s.elseIfs, i - 1);
              SameMeaning(s.elseIfs[i - 1].body, store, fuel);
            }
          case NoArm => if s.otherwise.Else? { SameMeaning(s.otherwise.stmts, store, fuel); }
          case Stop(_) =>
        }
      case While(c, b) => SameLoop(c, b, store, fuel);
    }
  }

  lemma {:induction false} SameLoop(c: Expr, b: seq<Stmt>, store: Store, fuel: nat)
    requires IsLoopTest(c) && CoveredBody(b) && Closed(b)
    ensures Loop(c, b, store, fuel, true) == Loop(c, b, store, fuel, false)
    decreases fuel, b, 2
  {
    hide ExecBody, Test, CoveredBody, Closed;
    if fuel > 0 {
      SameMeaning(b, store, fuel - 1);
      var r := ExecBody(b, store, fuel - 1, true);
      if r.Done? { SameLoop(c, b, r.store, fuel - 1); }
    }
  }

  /** A single if with closed arms is skipped properly exactly when it has an `else`, no `elseif`, a
      test that holds, or a first arm that changes nothing. */
  lemma {:induction false} SkippedIff(s: Stmt, store: Store, fuel: nat)
    requires s.If? && Covered(s) && Closed(s.body) && ClosedBranches(s.elseIfs)
    requires s.otherwise.Else? ==> Closed(s.otherwise.stmts)
    ensures Exec(s, store, fuel, true) == Exec(s, store, fuel, false) <==>
      (TestedCovered(s);
       || s.otherwise.Else? || s.elseIfs == [] || Pick(Tested(s), store) != NoArm
       || ExecBody(s.body, store, fuel, false) == Done(store))
  {
    hide ExecBody, Pick;
    TestedCovered(s);
    PickInRange(Tested(s), store);
    SameMeaning(s.body, store, fuel);
    if s.otherwise.Else? { SameMeaning(s.otherwise.stmts, store, fuel); }
    match Pick(Tested(s), store) {
      case Arm(i) =>
        if i > 0 {
          ClosedArm(s.elseIfs, i - 1);
          BranchCovered(s.elseIfs, i - 1);
          SameMeaning(s.elseIfs[i - 1].body, store, fuel);
        }
      case NoArm =>
      case Stop(_) =>
    }
  }

  /** What the emitted code and the source agree on for closed programs: skipping included. */
  lemma {:induction false} CorrectWhenClosed(body: seq<Stmt>, fuel: nat) returns (n: nat)
    requires Served(body) && Closed(body)
    ensures var code := ProgramCode(body); var c := Steps(code, BEGIN, n); var r := Result(body, fuel, false);
      if r.Unfinished? then n >= fuel && !Stopped(code, c) else Stopped(code, c) && Agrees(code, c, r)
  {
    hide Steps, Stopped, ProgramCode, ExecBody, Agrees, Flat, Slim, Closed;
    n := Correct(body, fuel);
    SameMeaning(body, map[], fuel);
  }

  /** `if 1 == 2 then a = 10 elseif 1 == 3 then end if` assigns 10. */
  lemma FallsIntoFirstArm(store: Store)
    requires "a" in store
    ensures var s := If(Binary(Eq, Int(1), Int(2)), [Eval(Binary(Assign, Id("a"), Int(10)))],
                        [Branch(Binary(Eq, Int(1), Int(3)), [])], NoElse);
      && Covered(s)
      && Exec(s, store, 0, false) == Done(store)
      && Exec(s, store, 0, true) == Done(store["a" := Some(IntV(10))])
  {
    var first := Eval(Binary(Assign, Id("a"), Int(10)));
    var bs := [Branch(Binary(Eq, Int(1), Int(3)), [])];
    var s := If(Binary(Eq, Int(1), Int(2)), [first], bs, NoElse);
    hide SetTo, ExecBody;
    Ten(first, store);
    OneStmt(first, store, store["a" := Some(IntV(10))]);
    NoneHolds(store, bs);
    TestedCovered(s);
    assert Pick(Tested(s), store) == NoArm;
  }

  lemma Ten(first: Stmt, store: Store)
    requires "a" in store && first == Eval(Binary(Assign, Id("a"), Int(10)))
    ensures Covered(first) && Exec(first, store, 0, true) == Done(store["a" := Some(IntV(10))])
  {
  }

  lemma OneStmt(s: Stmt, store: Store, after: Store)
    requires Covered(s) && s.Eval? && Exec(s, store, 0, true) == Done(after)
    ensures CoveredBody([s]) && ExecBody([s], store, 0, true) == Done(after)
  {
    assert [s][1..] == [] && CoveredBody([s]);
    assert ExecBody([], after, 0, true) == Done(after);
  }

  lemma NoneHolds(store: Store, bs: seq<Branch>)
    requires bs == [Branch(Binary(Eq, Int(1), Int(3)), [])]
    ensures CoveredBranches(bs) && Pick(bs, store) == NoArm
  {
    assert bs[1..] == [] && CoveredBranch(bs[0]);
    assert Pick([], store) == NoArm;
  }
}
