/** Compiler correctness for programs whose ifs are not nested and whose loops close themselves. */
module CompilerCorrect {
  import opened Ast
  import opened Ifjcode
  import opened CodegenSpec
  import opened Labels
  import opened LabelSound
  import opened Meaning
  import opened Simulation

  // ----- the if, as a list of tested branches

  lemma TestsAsList(s: Stmt, k: Counters)
    requires s.If? && Covered(s)
    ensures CoveredBranches(Tested(s))
    ensures IfTests(s, k) == TestsCode(Tested(s), k.elseIf + 1) + Fallback(s.elseIfs, s.otherwise, IfCounted(s, k))
  {
    hide TestCode, Fallback, CoveredBody;
    TestedCovered(s);
  }

  lemma ArmsAsList(s: Stmt, n: nat, k: Counters)
    requires s.If? && Covered(s)
    ensures CoveredBranches(Tested(s))
    ensures var (b, k1) := BranchesCode(Tested(s), n, k);
      IfArms(s, n, k) ==
        match s.otherwise
        case NoElse => (b, k1)
        case Else(eb) => (b + BranchCode(eb, ResElse(k1.els), k1).0, BranchCode(eb, ResElse(k1.els), k1).1)
  {
    hide BranchCode, CoveredBody;
    TestedCovered(s);
    assert ArmCode(Tested(s)[0], n, k) == BranchCode(s.body, ResIf(n), k);
  }

  /** A program part the generator serves. */
  predicate Served(body: seq<Stmt>) { CoveredBody(body) && Flat(body) && Slim(body) }

  predicate Bare(body: seq<Stmt>) { CoveredBody(body) && Ifs(body) == 0 && Slim(body) }

  predicate BareBranches(bs: seq<Branch>) { CoveredBranches(bs) && BranchIfs(bs) == 0 && SlimBranches(bs) }

  lemma {:induction false} BareBranch(bs: seq<Branch>, i: nat)
    requires BareBranches(bs) && i < |bs|
    ensures Bare(bs[i].body)
  {
    if i == 0 { assert CoveredBranch(bs[0]); } else { BareBranch(bs[1..], i - 1); }
  }

  lemma BareTested(body: seq<Stmt>)
    requires body != [] && Served(body) && body[0].If?
    ensures BareBranches(Tested(body[0])) && Bare(body[0].body)
    ensures body[0].otherwise.Else? ==> Bare(body[0].otherwise.stmts)
  {
    var s := body[0];
    TestedCovered(s);
    assert Tested(s)[0].body == s.body;
  }

  lemma BareServed(body: seq<Stmt>)
    requires Bare(body)
    ensures Served(body)
  {
    NoIfsFlat(body);
  }

  lemma {:induction false} FindArm(code: seq<Instr>, q: nat, bs: seq<Branch>, n: nat, k: Counters, i: nat)
      returns (qi: nat, ki: Counters)
    requires BareBranches(bs) && i < |bs| && At(code, q, BranchesCode(bs, n, k).0)
    ensures CoveredBody(bs[i].body) && At(code, qi, BranchCode(bs[i].body, ResIf(n + i), ki).0) && ki.endIf == k.endIf
    ensures i == 0 ==> qi == q
    decreases bs
  {
    hide At, BranchCode;
    assert CoveredBranch(bs[0]);
    var (b, k1) := ArmCode(bs[0], n, k);
    BranchMarks(bs[0].body, ResIf(n), k, ScopeLabel);
    AtSplit(code, q, b, BranchesCode(bs[1..], n + 1, k1).0);
    if i == 0 {
      qi, ki := q, k;
    } else {
      qi, ki := FindArm(code, q + |b|, bs[1..], n + 1, k1, i - 1);
    }
  }

  // ----- simulation

  lemma {:induction false} BodySim(code: seq<Instr>, c: Config, p: nat, body: seq<Stmt>, k: Counters, fuel: nat) returns (n: nat)
    requires UniqueLabels(code) && Served(body) && Ready(c) && c.pc == p
    requires At(code, p, BodyCode(body, k).0)
    ensures Meets(code, Steps(code, c, n), n, ExecBody(body, c.store, fuel, true), p + |BodyCode(body, k).0|, fuel)
    decreases fuel, body, 2
  {
    hide At, Step, Target, Marks, StmtCode, Exec, Covered;
    n := 0;
    if body != [] {
      hide Steps;
      var (s, k1) := StmtCode(body[0], k);
      AtSplit(code, p, s, BodyCode(body[1..], k1).0);
      n := StmtSim(code, c, p, body, k, fuel);
      if Exec(body[0], c.store, fuel, true).Done? {
        var c1 := Steps(code, c, n);
        var m := BodySim(code, c1, p + |s|, body[1..], k1, fuel);
        StepsAdd(code, c, n, m);
        n := n + m;
      }
    }
  }

  lemma {:induction false} StmtSim(code: seq<Instr>, c: Config, p: nat, body: seq<Stmt>, k: Counters, fuel: nat) returns (n: nat)
    requires UniqueLabels(code) && body != [] && Served(body) && Ready(c) && c.pc == p
    requires At(code, p, StmtCode(body[0], k).0)
    ensures Meets(code, Steps(code, c, n), n, Exec(body[0], c.store, fuel, true), p + |StmtCode(body[0], k).0|, fuel)
    decreases fuel, body, 1
  {
    hide At, Step, Steps, Target, Marks, StmtCode, Exec, Flat, Slim, IsTest, IsAssignment, IsDeclaration, CoveredBranches;
    HeadCovered(body);
    var s := body[0];
    match s {
      case Eval(e) => n := EvalSim(code, c, p, s, k, fuel);
      case If(_, _, _, _) => n := IfSim(code, c, p, body, k, fuel);
      case While(_, _) => n := WhileSim(code, c, p, body, k, fuel);
    }
  }

  lemma {:induction false} WhileSim(code: seq<Instr>, c: Config, p: nat, body: seq<Stmt>, k: Counters, fuel: nat) returns (n: nat)
    requires UniqueLabels(code) && body != [] && Served(body) && body[0].While? && Ready(c) && c.pc == p
    requires At(code, p, StmtCode(body[0], k).0)
    ensures Meets(code, Steps(code, c, n), n, Exec(body[0], c.store, fuel, true), p + |StmtCode(body[0], k).0|, fuel)
    decreases fuel, body, 0
  {
    hide At, Steps, Target, Marks, BodyCode, TestCode, Loop;
    HeadCovered(body);
    var b := body[0].body;
    LoopCounter(b, LoopCounted(k));
    n := LoopSim(code, c, p, body[0].cond, b, k, fuel);
  }

  lemma EvalSim(code: seq<Instr>, c: Config, p: nat, s: Stmt, k: Counters, fuel: nat) returns (n: nat)
    requires s.Eval? && Covered(s) && Ready(c) && c.pc == p && At(code, p, StmtCode(s, k).0)
    ensures Meets(code, Steps(code, c, n), n, Exec(s, c.store, fuel, true), p + |StmtCode(s, k).0|, fuel)
  {
    hide At, Steps, Target, AssignCode, DimCode, SetTo, DeclareItems;
    var e := s.expr;
    if IsAssignment(e) {
      n := AssignSim(code, c, p, e.left.name, e.right);
      AssignEnds(e.left.name, e.right, c.store);
    } else {
      n := DimSim(code, c, p, e.items);
    }
  }

  lemma AssignEnds(x: string, e: Expr, store: Store)
    requires IsRhs(e)
    ensures !SetTo(x, e, store).Unfinished?
  {
    hide Apply, KindOf, ValueOf;
  }

  function LoopSeg(e: Expr, b: seq<Stmt>, k: Counters): seq<Instr>
    requires IsLoopTest(e) && CoveredBody(b)
  {
    [Mark(LoopLabel(k.memLoop + 1))] + BodyCode(b, LoopCounted(k)).0 + TestCode(e, LoopLabel(k.memLoop + 1))
  }

  lemma {:induction false} LoopSim(code: seq<Instr>, c: Config, p: nat, e: Expr, b: seq<Stmt>, k: Counters, fuel: nat) returns (n: nat)
    requires UniqueLabels(code) && IsLoopTest(e) && Served(b) && Ready(c) && c.pc == p
    requires At(code, p, LoopSeg(e, b, k))
    ensures Meets(code, Steps(code, c, n), n, Loop(e, b, c.store, fuel, true), p + |LoopSeg(e, b, k)|, fuel)
    decreases fuel, b, 3
  {
    hide At, Step, Target, Marks, BodyCode, TestCode, ExecBody, Test, CoveredBody, Flat, Slim;
    var own := LoopLabel(k.memLoop + 1);
    var (seg, k2) := BodyCode(b, LoopCounted(k));
    AtThree(code, p, [Mark(own)], seg, TestCode(e, own));
    MarkAt(code, p, own);
    n := 0;
    if fuel > 0 {
      MarkSim(code, c, own);
      OneStep(code, c);
      n := LoopRound(code, Step(code, c), p, e, b, k, fuel);
      StepsAdd(code, c, 1, n);
      n := 1 + n;
    }
  }

  /** The body and the test, and the rounds after them. */
  lemma {:induction false} LoopRound(code: seq<Instr>, c: Config, p: nat, e: Expr, b: seq<Stmt>, k: Counters, fuel: nat) returns (n: nat)
    requires UniqueLabels(code) && IsLoopTest(e) && Served(b) && Ready(c) && c.pc == p + 1 && fuel > 0
    requires At(code, p, LoopSeg(e, b, k)) && Target(code, LoopLabel(k.memLoop + 1)) == p
    ensures Meets(code, Steps(code, c, n), n, Loop(e, b, c.store, fuel, true), p + |LoopSeg(e, b, k)|, fuel - 1)
    decreases fuel, b, 2
  {
    hide At, Step, Steps, Target, Marks, BodyCode, TestCode, ExecBody, Test, CoveredBody, Flat, Slim;
    var own := LoopLabel(k.memLoop + 1);
    var (seg, k2) := BodyCode(b, LoopCounted(k));
    AtThree(code, p, [Mark(own)], seg, TestCode(e, own));
    n := BodySim(code, c, p + 1, b, LoopCounted(k), fuel - 1);
    if ExecBody(b, c.store, fuel - 1, true).Done? {
      var c1 := Steps(code, c, n);
      var m := TestSim(code, c1, p + 1 + |seg|, e, own);
      StepsAdd(code, c, n, m);
      n := n + m;
      if Test(e, c1.store) == Yes {
        var c2 := Steps(code, c, n);
        m := LoopSim(code, c2, p, e, b, k, fuel - 1);
        StepsAdd(code, c, n, m);
        n := n + m;
      }
    }
  }

  /** One arm, up to the end of its if. */
  lemma {:induction false} ArmSim(code: seq<Instr>, c: Config, q: nat, body: seq<Stmt>, l: Label, k: Counters, fuel: nat) returns (n: nat)
    requires UniqueLabels(code) && Bare(body) && Ready(c) && c.pc == Target(code, l)
    requires At(code, q, BranchCode(body, l, k).0)
    ensures Meets(code, Steps(code, c, n), n, ExecBody(body, c.store, fuel, true), Target(code, EndIf(k.endIf)), fuel)
    decreases fuel, body, 3
  {
    hide At, Step, Steps, Target, Marks, BodyCode, ExecBody, CoveredBody, Flat, Slim, Ifs;
    var (seg, k1) := BodyCode(body, k);
    AtThree(code, q, [Mark(l)], seg, [Jump(EndIf(k1.endIf))]);
    MarkAt(code, q, l);
    MarkSim(code, c, l);
    OneStep(code, c);
    BareServed(body);
    BodyMarks(body, k, l);
    n := BodySim(code, Step(code, c), q + 1, body, k, fuel);
    StepsAdd(code, c, 1, n);
    n := 1 + n;
    if ExecBody(body, c.store, fuel, true).Done? {
      var c1 := Steps(code, c, n);
      JumpSim(code, c1, q + 1 + |seg|, EndIf(k1.endIf));
      OneStep(code, c1);
      StepsAdd(code, c, n, 1);
      n := n + 1;
    }
  }

  lemma {:induction false} IfSim(code: seq<Instr>, c: Config, p: nat, body: seq<Stmt>, k: Counters, fuel: nat) returns (n: nat)
    requires UniqueLabels(code) && body != [] && Served(body) && body[0].If? && Ready(c) && c.pc == p
    requires At(code, p, StmtCode(body[0], k).0)
    ensures Meets(code, Steps(code, c, n), n, Exec(body[0], c.store, fuel, true), p + |StmtCode(body[0], k).0|, fuel)
    decreases fuel, body, 0, 3
  {
    hide At, Step, Steps, Target, Marks, IfTests, IfArms, Exec, CoveredBody, Flat, Slim, CoveredBranches;
    HeadCovered(body);
    var s := body[0];
    var (arms, k1) := IfArms(s, k.elseIf + 1, IfCounted(s, k));
    var q := p + |IfTests(s, k)| + |arms|;
    AtThree(code, p, IfTests(s, k), arms, [Mark(EndIf(k1.endIf))]);
    ArmsEnd(body, k);
    n := IfInside(code, c, p, body, k, fuel);
    if Exec(s, c.store, fuel, true).Done? {
      var c1 := Steps(code, c, n);
      MarkAt(code, q, EndIf(k1.endIf));
      MarkSim(code, c1, EndIf(k1.endIf));
      OneStep(code, c1);
      StepsAdd(code, c, n, 1);
      n := n + 1;
    }
  }

  lemma HeadCovered(body: seq<Stmt>)
    requires body != [] && Served(body)
    ensures Covered(body[0]) && (body[0].While? ==> Served(body[0].body) && Direct(body[0].body) <= 1)
  {
    HeadWhole(body);
  }

  lemma HeadWhole(body: seq<Stmt>)
    requires body != [] && CoveredBody(body)
    ensures Covered(body[0])
  {
  }

  lemma ArmsEnd(body: seq<Stmt>, k: Counters)
    requires body != [] && Served(body) && body[0].If?
    ensures IfArms(body[0], k.elseIf + 1, IfCounted(body[0], k)).1.endIf == k.endIf + 1
  {
    hide IfArms, Marks;
    ArmsMarks(body, k.elseIf + 1, IfCounted(body[0], k), ScopeLabel);
  }

  /** Tests and arm: everything up to the label that ends the if. */
  lemma {:induction false} IfInside(code: seq<Instr>, c: Config, p: nat, body: seq<Stmt>, k: Counters, fuel: nat) returns (n: nat)
    requires UniqueLabels(code) && body != [] && Served(body) && body[0].If? && Ready(c) && c.pc == p
    requires At(code, p, IfTests(body[0], k)) && At(code, p + |IfTests(body[0], k)|, IfArms(body[0], k.elseIf + 1, IfCounted(body[0], k)).0)
    ensures Meets(code, Steps(code, c, n), n, Exec(body[0], c.store, fuel, true), Target(code, EndIf(k.endIf + 1)), fuel)
    decreases fuel, body, 0, 2
  {
    hide At, Step, Steps, Target, Marks, IfTests, IfArms, TestsCode, Fallback, Pick, Flat, Slim, CoveredBody, CoveredBranches;
    HeadCovered(body);
    var s := body[0];
    var bs := Tested(s);
    TestsAsList(s, k);
    BareTested(body);
    AtSplit(code, p, TestsCode(bs, k.elseIf + 1), Fallback(s.elseIfs, s.otherwise, IfCounted(s, k)));
    n := TestsSim(code, c, p, bs, k.elseIf + 1);
    PickInRange(bs, c.store);
    var r := Pick(bs, c.store);
    if !r.Stop? {
      var c1 := Steps(code, c, n);
      var m;
      if r.Arm? {
        m := TakeArm(code, c1, p + |IfTests(s, k)|, body, k, r.i, fuel);
      } else {
        m := TakeNone(code, c1, p + |TestsCode(bs, k.elseIf + 1)|, body, k, fuel);
      }
      StepsAdd(code, c, n, m);
      n := n + m;
    }
  }

  lemma {:induction false} TakeArm(code: seq<Instr>, c: Config, q: nat, body: seq<Stmt>, k: Counters, i: nat, fuel: nat) returns (n: nat)
    requires UniqueLabels(code) && body != [] && Served(body) && body[0].If? && Ready(c) && i <= |body[0].elseIfs|
    requires At(code, q, IfArms(body[0], k.elseIf + 1, IfCounted(body[0], k)).0)
    requires c.pc == Target(code, ResIf(k.elseIf + 1 + i)) || (c.pc == q && i == 0)
    ensures Meets(code, Steps(code, c, n), n, ExecArm(body[0], i, c.store, fuel, true), Target(code, EndIf(k.endIf + 1)), fuel)
    decreases fuel, body, 0, 0
  {
    hide At, Step, Steps, Target, Marks, IfArms, BranchesCode, BranchCode, ExecBody, Flat, Slim, CoveredBody, CoveredBranches, Ifs;
    HeadCovered(body);
    var s := body[0];
    var bs := Tested(s);
    var k0 := IfCounted(s, k);
    BareTested(body);
    ArmsAsList(s, k.elseIf + 1, k0);
    FirstPart(code, q, s, k.elseIf + 1, k0);
    var qi, ki := FindArm(code, q, bs, k.elseIf + 1, k0, i);
    BareBranch(bs, i);
    if c.pc == q && i == 0 { FirstLabel(code, q, s.body, ResIf(k.elseIf + 1), ki); }
    n := ArmSim(code, c, qi, bs[i].body, ResIf(k.elseIf + 1 + i), ki, fuel);
  }

  lemma FirstPart(code: seq<Instr>, q: nat, s: Stmt, n: nat, k: Counters)
    requires s.If? && Covered(s) && At(code, q, IfArms(s, n, k).0)
    ensures CoveredBranches(Tested(s)) && At(code, q, BranchesCode(Tested(s), n, k).0)
    ensures s.otherwise.Else? ==>
      var (b, k1) := BranchesCode(Tested(s), n, k);
      At(code, q + |b|, BranchCode(s.otherwise.stmts, ResElse(k1.els), k1).0)
  {
    hide At, BranchesCode, BranchCode, IfArms, CoveredBranches, CoveredBody;
    ArmsAsList(s, n, k);
    match s.otherwise {
      case NoElse =>
      case Else(eb) =>
        var (b, k1) := BranchesCode(Tested(s), n, k);
        AtSplit(code, q, b, BranchCode(eb, ResElse(k1.els), k1).0);
    }
  }

  lemma FirstLabel(code: seq<Instr>, q: nat, body: seq<Stmt>, l: Label, k: Counters)
    requires UniqueLabels(code) && CoveredBody(body) && At(code, q, BranchCode(body, l, k).0)
    ensures Target(code, l) == q
  {
    hide At, Target, Marks, BodyCode;
    var (b, k1) := BodyCode(body, k);
    AtThree(code, q, [Mark(l)], b, [Jump(EndIf(k1.endIf))]);
    MarkAt(code, q, l);
  }

  /** No test held: the `else`, the end of the if, or, for want of a jump, the first arm. */
  lemma {:induction false} TakeNone(code: seq<Instr>, c: Config, p: nat, body: seq<Stmt>, k: Counters, fuel: nat) returns (n: nat)
    requires UniqueLabels(code) && body != [] && Served(body) && body[0].If? && Ready(c) && c.pc == p
    requires var s := body[0]; var f := Fallback(s.elseIfs, s.otherwise, IfCounted(s, k));
      At(code, p, f) && At(code, p + |f|, IfArms(s, k.elseIf + 1, IfCounted(s, k)).0)
    requires CoveredBranches(Tested(body[0])) && Pick(Tested(body[0]), c.store) == NoArm
    ensures Meets(code, Steps(code, c, n), n, Exec(body[0], c.store, fuel, true), Target(code, EndIf(k.endIf + 1)), fuel)
    decreases fuel, body, 0, 1
  {
    hide At, Step, Target, Marks, IfArms, BranchesCode, BranchCode, ExecBody, Pick, Flat, Slim, CoveredBody, CoveredBranches, Ifs, BranchIfs;
    HeadCovered(body);
    var s := body[0];
    var k0 := IfCounted(s, k);
    match s.otherwise {
      case Else(eb) =>
        var (b, k1) := BranchesCode(Tested(s), k.elseIf + 1, k0);
        JumpSim(code, c, p, ResElse(k0.els));
        OneStep(code, c);
        FirstPart(code, p + 1, s, k.elseIf + 1, k0);
        BareTested(body);
        BranchesMarks(Tested(s), k.elseIf + 1, k0, ScopeLabel);
        n := ArmSim(code, Step(code, c), p + 1 + |b|, eb, ResElse(k1.els), k1, fuel);
        StepsAdd(code, c, 1, n);
        n := 1 + n;
      case NoElse =>
        if s.elseIfs == [] {
          JumpSim(code, c, p, EndIf(k0.endIf));
          OneStep(code, c);
          n := 1;
        } else {
          n := TakeArm(code, c, p, body, k, 0, fuel);
        }
    }
  }
}
