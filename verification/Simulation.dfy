/** The emitted code, run by the machine, does what the source means. */
module Simulation {
  import opened Options
  import opened Tokens
  import opened Ast
  import opened Ifjcode
  import opened CodegenSpec
  import opened Labels
  import opened Meaning

  /** `seg` stands at `p` in the code. */
  predicate At(code: seq<Instr>, p: nat, seg: seq<Instr>) {
    p + |seg| <= |code| && code[p..p + |seg|] == seg
  }

  lemma AtSplit(code: seq<Instr>, p: nat, a: seq<Instr>, b: seq<Instr>)
    requires At(code, p, a + b)
    ensures At(code, p, a) && At(code, p + |a|, b)
  {
    var whole := code[p..p + |a + b|];
    assert (a + b)[..|a|] == a && (a + b)[|a|..] == b;
    assert whole[..|a|] == code[p..p + |a|] && whole[|a|..] == code[p + |a|..p + |a| + |b|];
  }

  lemma AtThree(code: seq<Instr>, p: nat, a: seq<Instr>, b: seq<Instr>, c: seq<Instr>)
    requires At(code, p, a + b + c)
    ensures At(code, p, a) && At(code, p + |a|, b) && At(code, p + |a| + |b|, c)
  {
    hide At;
    AtSplit(code, p, a + b, c);
    AtSplit(code, p, a, b);
  }

  lemma AtOne(code: seq<Instr>, p: nat, i: Instr)
    requires At(code, p, [i])
    ensures p < |code| && code[p] == i
  {
    assert code[p..p + 1][0] == i;
  }

  lemma {:induction false} TargetAt(code: seq<Instr>, p: nat, l: Label)
    requires p < |code| && code[p] == Mark(l) && Marks(code, l) <= 1
    ensures Target(code, l) == p
  {
    if p > 0 { TargetAt(code[1..], p - 1, l); }
    if code[0] == Mark(l) && p > 0 { MarkedOnce(code, l, 0, p); }
  }

  lemma MarkAt(code: seq<Instr>, p: nat, l: Label)
    requires UniqueLabels(code) && At(code, p, [Mark(l)])
    ensures p < |code| && code[p] == Mark(l) && Target(code, l) == p
  {
    hide Marks, Target;
    AtOne(code, p, Mark(l));
    assert Marks(code, l) <= 1;
    TargetAt(code, p, l);
  }

  /** The machine is at `pc` and its variables are `store`. */
  predicate Here(c: Config, pc: nat, store: Store) { Ready(c) && c.pc == pc && c.store == store }

  /** Both temporaries are declared. */
  predicate Ready(c: Config) { c.Running? && GetTemp(c.temps, true) != Undeclared && GetTemp(c.temps, false) != Undeclared }

  /** What the machine has come to after `n` steps, for each outcome of the source. */
  predicate Meets(code: seq<Instr>, c: Config, n: nat, r: Outcome, end: nat, fuel: nat) {
    match r
    case Done(st) => Here(c, end, st)
    case Left(st) => Here(c, Target(code, EndIf(0)), st)
    case Wrong(st) => c == Failed(st)
    case Unfinished(_) => c.Running? && c.pc < |code| && n >= fuel
  }

  lemma OneStep(code: seq<Instr>, c: Config)
    ensures Steps(code, c, 1) == Step(code, c)
  {
    hide Step;
    assert Steps(code, Step(code, c), 0) == Step(code, c);
  }

  lemma JumpSim(code: seq<Instr>, c: Config, p: nat, l: Label)
    requires At(code, p, [Jump(l)]) && Ready(c) && c.pc == p
    ensures Here(Step(code, c), Target(code, l), c.store)
  {
    hide Target;
    AtOne(code, p, Jump(l));
  }

  lemma MarkSim(code: seq<Instr>, c: Config, l: Label)
    requires Ready(c) && c.pc < |code| && code[c.pc] == Mark(l)
    ensures Here(Step(code, c), c.pc + 1, c.store)
  {
    hide Target;
  }

  // ----- operands and type checks

  lemma Operands(e: Expr, store: Store)
    requires IsAtom(e)
    ensures Declared(Operand(e), store) <==> Known(e, store)
    ensures Known(e, store) ==> Look(Operand(e), store) == ValueOf(e, store)
    ensures Read(Operand(e), store) == if Known(e, store) then ValueOf(e, store) else None
  {
  }

  lemma Kinds(a: Option<Value>, b: Option<Value>)
    ensures TypeName(a) == TypeName(b) <==> KindOf(a) == KindOf(b)
  {
    FirstLetter(a);
    FirstLetter(b);
  }

  lemma FirstLetter(a: Option<Value>)
    ensures match KindOf(a)
      case KNone => TypeName(a) == ""
      case KInt => TypeName(a) != "" && TypeName(a)[0] == 'i'
      case KFloat => TypeName(a) != "" && TypeName(a)[0] == 'f'
      case KString => TypeName(a) != "" && TypeName(a)[0] == 's'
      case KBool => TypeName(a) != "" && TypeName(a)[0] == 'b'
    ensures match KindOf(a)
      case KNone => TypeName(a) == ""
      case KInt => TypeName(a) == "int"
      case KFloat => TypeName(a) == "float"
      case KString => TypeName(a) == "string"
      case KBool => TypeName(a) == "bool"
  {
  }

  datatype Fit = Fits | Differs | Unknown

  function Fitting(a: Expr, b: Expr, store: Store): Fit {
    if !Known(a, store) || !Known(b, store) then Unknown
    else if KindOf(ValueOf(a, store)) != KindOf(ValueOf(b, store)) then Differs
    else Fits
  }

  predicate Checked(code: seq<Instr>, c: Config, fit: Fit, end: nat, store: Store) {
    match fit
    case Fits => Here(c, end, store)
    case Differs => Here(c, Target(code, EndIf(0)), store)
    case Unknown => c == Failed(store)
  }

  lemma TypeOfSim(code: seq<Instr>, c: Config, p: nat, first: bool, a: Expr)
    requires At(code, p, [TypeOf(first, Operand(a))]) && IsAtom(a) && Ready(c) && c.pc == p
    ensures Step(code, c) ==
      if !Known(a, c.store) then Failed(c.store)
      else c.(pc := p + 1, temps := SetTemp(c.temps, first, Holds(TypeName(ValueOf(a, c.store)))))
  {
    hide Target, TypeName, Operand;
    AtOne(code, p, TypeOf(first, Operand(a)));
    Operands(a, c.store);
  }

  lemma CheckJumpSim(code: seq<Instr>, c: Config, p: nat)
    requires At(code, p, [JumpIfTypesDiffer(EndIf(0))]) && Ready(c) && c.pc == p
    requires GetTemp(c.temps, true).Holds? && GetTemp(c.temps, false).Holds?
    ensures Here(Step(code, c), if GetTemp(c.temps, true) == GetTemp(c.temps, false) then p + 1 else Target(code, EndIf(0)), c.store)
  {
    hide Target;
    AtOne(code, p, JumpIfTypesDiffer(EndIf(0)));
  }

  lemma ThreeSteps(code: seq<Instr>, c: Config)
    ensures Steps(code, c, 3) == Step(code, Step(code, Step(code, c)))
  {
    hide Step;
    assert Steps(code, c, 3) == Steps(code, Step(code, c), 2);
    assert Steps(code, Step(code, c), 2) == Steps(code, Step(code, Step(code, c)), 1);
    OneStep(code, Step(code, Step(code, c)));
  }

  lemma {:induction false} TypeCheckSim(code: seq<Instr>, c: Config, p: nat, a: Expr, b: Expr)
    requires At(code, p, TypeCheck(Operand(a), Operand(b))) && IsAtom(a) && IsAtom(b) && Ready(c) && c.pc == p
    ensures Checked(code, Steps(code, c, 3), Fitting(a, b, c.store), p + 3, c.store)
  {
    hide At, Step, Steps, Target, Operand, TypeName, Known, ValueOf, KindOf;
    var x, y, z := TypeOf(true, Operand(a)), TypeOf(false, Operand(b)), JumpIfTypesDiffer(EndIf(0));
    assert TypeCheck(Operand(a), Operand(b)) == [x] + [y] + [z];
    AtThree(code, p, [x], [y], [z]);
    ThreeSteps(code, c);
    TypeOfSim(code, c, p, true, a);
    var c1 := Step(code, c);
    if c1.Failed? {
      FailedStays(code, c1);
    } else {
      TypeOfSim(code, c1, p + 1, false, b);
      var c2 := Step(code, c1);
      if c2.Failed? {
        FailedStays(code, c2);
      } else {
        CheckJumpSim(code, c2, p + 2);
        Kinds(ValueOf(a, c.store), ValueOf(b, c.store));
      }
    }
  }

  lemma FailedStays(code: seq<Instr>, c: Config)
    requires c.Failed?
    ensures Step(code, c) == c && Step(code, Step(code, c)) == c
  {
    hide Target;
  }

  // ----- tests

  predicate Decided(code: seq<Instr>, c: Config, v: Verdict, l: Label, end: nat, store: Store) {
    match v
    case Yes => Here(c, Target(code, l), store)
    case No => Here(c, end, store)
    case Mismatch => Here(c, Target(code, EndIf(0)), store)
    case Undefined => c == Failed(store)
  }

  lemma Comparing(a: Option<Value>, b: Option<Value>)
    requires KindOf(a) == KindOf(b)
    ensures Compare(a, b) == Compare(b, a) == if a.None? then None else Some(a == b)
  {
    Kinds(a, b);
    hide TypeName;
  }

  lemma BranchingSim(code: seq<Instr>, c: Config, p: nat, e: Expr, l: Label)
    requires IsTest(e) && At(code, p, [Branching(e, l)]) && Ready(c) && c.pc == p
    requires Fitting(e.left, e.right, c.store).Fits?
    ensures Decided(code, Step(code, c), Test(e, c.store), l, p + 1, c.store)
  {
    hide Target, Operand, Compare, KindOf, Read, ValueOf, Known;
    AtOne(code, p, Branching(e, l));
    Operands(e.left, c.store);
    Operands(e.right, c.store);
    Comparing(ValueOf(e.left, c.store), ValueOf(e.right, c.store));
  }

  lemma {:induction false} TestSim(code: seq<Instr>, c: Config, p: nat, e: Expr, l: Label) returns (n: nat)
    requires IsTest(e) && At(code, p, TestCode(e, l)) && Ready(c) && c.pc == p
    ensures n > 0 && |TestCode(e, l)| == 4
    ensures Decided(code, Steps(code, c, n), Test(e, c.store), l, p + 4, c.store)
  {
    hide At, Step, Steps, Target, Operand, KindOf, ValueOf, Known, Branching;
    AtSplit(code, p, TypeCheck(Operand(e.left), Operand(e.right)), [Branching(e, l)]);
    TypeCheckSim(code, c, p, e.left, e.right);
    n := 3;
    if Fitting(e.left, e.right, c.store).Fits? {
      var c1 := Steps(code, c, 3);
      BranchingSim(code, c1, p + 3, e, l);
      OneStep(code, c1);
      StepsAdd(code, c, 3, 1);
      n := 4;
    }
  }

  predicate Picked(code: seq<Instr>, c: Config, r: Choice, n0: nat, end: nat, store: Store) {
    match r
    case Arm(i) => Here(c, Target(code, ResIf(n0 + i)), store)
    case NoArm => Here(c, end, store)
    case Stop(why) => if why == Mismatch then Here(c, Target(code, EndIf(0)), store) else c == Failed(store)
  }

  lemma {:induction false} TestsSim(code: seq<Instr>, c: Config, p: nat, bs: seq<Branch>, n0: nat) returns (n: nat)
    requires CoveredBranches(bs) && At(code, p, TestsCode(bs, n0)) && Ready(c) && c.pc == p
    ensures Picked(code, Steps(code, c, n), Pick(bs, c.store), n0, p + |TestsCode(bs, n0)|, c.store)
    decreases bs
  {
    hide At, Step, Target, TestCode, Test, CoveredBody;
    n := 0;
    if bs != [] {
      assert CoveredBranch(bs[0]);
      AtSplit(code, p, TestCode(bs[0].cond, ResIf(n0)), TestsCode(bs[1..], n0 + 1));
      n := TestSim(code, c, p, bs[0].cond, ResIf(n0));
      if Test(bs[0].cond, c.store) == No {
        hide Steps;
        var c1 := Steps(code, c, n);
        var m := TestsSim(code, c1, p + 4, bs[1..], n0 + 1);
        StepsAdd(code, c, n, m);
        n := n + m;
      }
    }
  }

  // ----- assignments and declarations

  lemma CalcSim(code: seq<Instr>, c: Config, p: nat, x: string, e: Expr)
    requires IsCalc(e) && At(code, p, [Calc(AluOf(e.op), x, Operand(e.left), Operand(e.right))]) && Ready(c) && c.pc == p
    requires Arithmetic(e.op) ==> Fitting(e.left, e.right, c.store).Fits?
    ensures Meets(code, Step(code, c), 1, SetTo(x, e, c.store), p + 1, 0)
  {
    hide Target, Operand, Read, ValueOf, Known, Compute, Apply, KindOf;
    AtOne(code, p, Calc(AluOf(e.op), x, Operand(e.left), Operand(e.right)));
    Operands(e.left, c.store);
    Operands(e.right, c.store);
    Computes(e.op, Read(Operand(e.left), c.store), Read(Operand(e.right), c.store));
  }

  lemma Computes(op: Op, a: Option<Value>, b: Option<Value>)
    requires Arithmetic(op) || Logical(op)
    ensures Compute(AluOf(op), a, b) == if a.None? || b.None? then None else Apply(op, a.value, b.value)
  {
    if a.Some? && b.Some? { ComputesValues(op, a.value, b.value); }
  }

  lemma ComputesValues(op: Op, a: Value, b: Value)
    requires Arithmetic(op) || Logical(op)
    ensures Compute(AluOf(op), Some(a), Some(b)) == Apply(op, a, b)
  {
    hide Times;
    match op {
      case Plus =>
      case Minus =>
      case Mul =>
      case BitAnd =>
      case BitOr =>
    }
  }

  lemma {:induction false} AssignSim(code: seq<Instr>, c: Config, p: nat, x: string, e: Expr) returns (n: nat)
    requires IsRhs(e) && At(code, p, AssignCode(x, e)) && Ready(c) && c.pc == p
    ensures Meets(code, Steps(code, c, n), n, SetTo(x, e, c.store), p + |AssignCode(x, e)|, 0)
  {
    if IsCalc(e) {
      n := CheckedCalc(code, c, p, x, e);
    } else {
      n := 1;
      OneStep(code, c);
      MoveSim(code, c, p, x, e);
    }
  }

  lemma {:induction false} CheckedCalc(code: seq<Instr>, c: Config, p: nat, x: string, e: Expr) returns (n: nat)
    requires IsCalc(e) && At(code, p, AssignCode(x, e)) && Ready(c) && c.pc == p
    ensures Meets(code, Steps(code, c, n), n, SetTo(x, e, c.store), p + |AssignCode(x, e)|, 0)
  {
    hide At, Step, Steps, Target, Operand, ValueOf, Known, KindOf, Apply;
    var op := Calc(AluOf(e.op), x, Operand(e.left), Operand(e.right));
    if Arithmetic(e.op) {
      AtSplit(code, p, TypeCheck(Operand(e.left), Operand(e.right)), [op]);
      TypeCheckSim(code, c, p, e.left, e.right);
      n := 3;
      if Fitting(e.left, e.right, c.store).Fits? {
        var c1 := Steps(code, c, 3);
        CalcSim(code, c1, p + 3, x, e);
        OneStep(code, c1);
        StepsAdd(code, c, 3, 1);
        n := 4;
      }
    } else {
      assert AssignCode(x, e) == [op];
      n := 1;
      OneStep(code, c);
      CalcSim(code, c, p, x, e);
    }
  }

  lemma MoveSim(code: seq<Instr>, c: Config, p: nat, x: string, e: Expr)
    requires IsRhs(e) && !IsCalc(e) && At(code, p, AssignCode(x, e)) && Ready(c) && c.pc == p
    ensures Meets(code, Step(code, c), 1, SetTo(x, e, c.store), p + |AssignCode(x, e)|, 0)
  {
    hide Target, Operand, Read, ValueOf, Known;
    AtOne(code, p, AssignCode(x, e)[0]);
    var operand := if IsNegation(e) then e.expr else e;
    if IsAtom(operand) { Operands(operand, c.store); }
    if IsNegated(e) { Literal(e, c.store); }
  }

  lemma Literal(e: Expr, store: Store)
    requires IsNegated(e)
    ensures Read(Negative(e.expr), store) ==
      Some(if e.expr.Int? then IntV(-e.expr.number) else FloatV(-e.expr.float))
  {
  }

  lemma {:induction false} DeclCodeFront(ids: seq<string>)
    requires ids != []
    ensures DeclCode(ids) == [DefVar(ids[0])] + DeclCode(ids[1..])
  {
    var m := |ids| - 1;
    if m > 0 {
      DeclCodeFront(ids[..m]);
      assert ids[..m][1..] == ids[1..][..m - 1];
    }
  }

  lemma {:induction false} DimCodeFront(items: seq<Item>)
    requires items != []
    ensures DimCode(items) == DeclCode(items[0].decl.ids) + DimCode(items[1..])
  {
    hide DeclCode;
    var m := |items| - 1;
    if m > 0 {
      DimCodeFront(items[..m]);
      assert items[..m][1..] == items[1..][..m - 1];
    }
  }

  lemma DefVarSim(code: seq<Instr>, c: Config, p: nat, x: string)
    requires At(code, p, [DefVar(x)]) && Ready(c) && c.pc == p
    ensures if x in c.store then Step(code, c) == Failed(c.store) else Here(Step(code, c), p + 1, c.store[x := None])
  {
    hide Target;
    AtOne(code, p, DefVar(x));
  }

  lemma {:induction false} DeclSim(code: seq<Instr>, c: Config, p: nat, ids: seq<string>) returns (n: nat)
    requires At(code, p, DeclCode(ids)) && Ready(c) && c.pc == p
    ensures !DeclareAll(ids, c.store).Unfinished?
    ensures Meets(code, Steps(code, c, n), n, DeclareAll(ids, c.store), p + |DeclCode(ids)|, 0)
    decreases |ids|
  {
    hide At, Step, Target;
    n := 0;
    if ids != [] {
      DeclCodeFront(ids);
      hide DeclCode;
      AtSplit(code, p, [DefVar(ids[0])], DeclCode(ids[1..]));
      DefVarSim(code, c, p, ids[0]);
      OneStep(code, c);
      n := 1;
      if ids[0] !in c.store {
        var m := DeclSim(code, Step(code, c), p + 1, ids[1..]);
        StepsAdd(code, c, 1, m);
        n := 1 + m;
      }
    }
  }

  lemma {:induction false} DimSim(code: seq<Instr>, c: Config, p: nat, items: seq<Item>) returns (n: nat)
    requires At(code, p, DimCode(items)) && Ready(c) && c.pc == p
    ensures !DeclareItems(items, c.store).Unfinished?
    ensures Meets(code, Steps(code, c, n), n, DeclareItems(items, c.store), p + |DimCode(items)|, 0)
    decreases |items|
  {
    hide At, Step, Target, DeclCode;
    n := 0;
    if items != [] {
      var ids := items[0].decl.ids;
      DimCodeFront(items);
      AtSplit(code, p, DeclCode(ids), DimCode(items[1..]));
      n := DeclSim(code, c, p, ids);
      if DeclareAll(ids, c.store).Done? {
        var c1 := Steps(code, c, n);
        var m := DimSim(code, c1, p + |DeclCode(ids)|, items[1..]);
        StepsAdd(code, c, n, m);
        n := n + m;
      }
    }
  }
}
