/** What the generator emits for the statements it supports, as a function of its label counters. */
module CodegenSpec {
  import opened Tokens
  import opened Ast
  import opened Ifjcode

  /** The static counters that survive from statement to statement. */
  datatype Counters = Counters(elseIf: nat, els: nat, endIf: nat, loop: int, memLoop: int)

  // ----- the statements in question

  predicate IsAtom(e: Expr) { e.Id? || e.Int? || e.Double? || e.Str? }

  predicate Arithmetic(op: Op) { op == Plus || op == Minus || op == Mul }

  predicate Logical(op: Op) { op == BitAnd || op == BitOr }

  predicate IsCalc(e: Expr) {
    e.Binary? && (Arithmetic(e.op) || Logical(e.op)) && IsAtom(e.left) && IsAtom(e.right)
  }

  /** A literal with a minus sign; the lexer delivers no negative numbers. */
  predicate IsNegated(e: Expr) {
    e.Unary? && e.op == Minus && !e.postfix && (e.expr.Int? || e.expr.Double?)
  }

  predicate IsNegation(e: Expr) { e.Unary? && e.op == LNot && !e.postfix && IsAtom(e.expr) }

  predicate IsRhs(e: Expr) { IsAtom(e) || IsCalc(e) || IsNegated(e) || IsNegation(e) }

  predicate IsAssignment(e: Expr) { e.Binary? && e.op == Assign && e.left.Id? && IsRhs(e.right) }

  /** A condition of `if`: `=` compares here. */
  predicate IsTest(e: Expr) {
    e.Binary? && (e.op == Eq || e.op == Neq || e.op == Assign) && IsAtom(e.left) && IsAtom(e.right)
  }

  predicate IsLoopTest(e: Expr) { IsTest(e) && e.op == Eq }

  predicate IsDeclaration(e: Expr) { e.Dim? && forall i :: i in e.items ==> i.init.None? }

  predicate Covered(s: Stmt)
    decreases s
  {
    match s
    case Eval(e) => IsAssignment(e) || IsDeclaration(e)
    case If(c, body, elseIfs, otherwise) =>
      && IsTest(c) && CoveredBody(body) && CoveredBranches(elseIfs)
      && (match otherwise case NoElse => true case Else(b) => CoveredBody(b))
    case While(c, body) => IsLoopTest(c) && CoveredBody(body)
    case _ => false
  }

  predicate CoveredBody(body: seq<Stmt>)
    decreases body
  {
    body == [] || (Covered(body[0]) && CoveredBody(body[1..]))
  }

  predicate CoveredBranches(bs: seq<Branch>)
    decreases bs
  {
    bs == [] || (CoveredBranch(bs[0]) && CoveredBranches(bs[1..]))
  }

  predicate CoveredBranch(b: Branch)
    decreases b
  {
    IsTest(b.cond) && CoveredBody(b.body)
  }

  // ----- the instructions

  function Operand(e: Expr): Symb {
    match e
    case Id(x) => Var(x)
    case Int(n) => Const(IntV(n))
    case Double(d) => Const(FloatV(d))
    case Str(t) => Const(StrV(t))
    case _ => Const(StrV(""))
  }

  function Negative(e: Expr): Symb {
    match e
    case Int(n) => Neg(IntV(n))
    case Double(d) => Neg(FloatV(d))
    case _ => Operand(e)
  }

  function AluOf(op: Op): Alu {
    match op
    case Plus => ADD
    case Minus => SUB
    case Mul => MUL
    case BitAnd => AND
    case _ => OR
  }

  /** Leave for the end of the program when the operand types differ. */
  function TypeCheck(a: Symb, b: Symb): seq<Instr> {
    [TypeOf(true, a), TypeOf(false, b), JumpIfTypesDiffer(EndIf(0))]
  }

  function AssignCode(x: string, e: Expr): seq<Instr> {
    if IsCalc(e) then
      (if Arithmetic(e.op) then TypeCheck(Operand(e.left), Operand(e.right)) else [])
      + [Calc(AluOf(e.op), x, Operand(e.left), Operand(e.right))]
    else if IsNegated(e) then [Move(x, Negative(e.expr))]
    else if IsNegation(e) then [NotI(x, Operand(e.expr))]
    else [Move(x, Operand(e))]
  }

  /** The comparison itself; `=` hands over its operands the other way round. */
  function Branching(e: Expr, l: Label): Instr
    requires IsTest(e)
  {
    if e.op == Eq then JumpIfEq(l, Operand(e.left), Operand(e.right))
    else if e.op == Neq then JumpIfNeq(l, Operand(e.left), Operand(e.right))
    else JumpIfEq(l, Operand(e.right), Operand(e.left))
  }

  function TestCode(e: Expr, l: Label): seq<Instr>
    requires IsTest(e)
  {
    TypeCheck(Operand(e.left), Operand(e.right)) + [Branching(e, l)]
  }

  /** The tests of the `elseif`s; the first jumps to RES_IF_n. */
  function TestsCode(bs: seq<Branch>, n: nat): seq<Instr>
    requires CoveredBranches(bs)
  {
    if bs == [] then []
    else
      assert CoveredBranch(bs[0]);
      TestCode(bs[0].cond, ResIf(n)) + TestsCode(bs[1..], n + 1)
  }

  function DeclCode(ids: seq<string>): seq<Instr> {
    if ids == [] then [] else DeclCode(ids[..|ids| - 1]) + [DefVar(ids[|ids| - 1])]
  }

  function DimCode(items: seq<Item>): seq<Instr> {
    if items == [] then [] else DimCode(items[..|items| - 1]) + DeclCode(items[|items| - 1].decl.ids)
  }

  function StmtCode(s: Stmt, k: Counters): (r: (seq<Instr>, Counters))
    requires Covered(s)
    decreases s, 1
  {
    match s
    case Eval(e) => (if IsAssignment(e) then AssignCode(e.left.name, e.right) else DimCode(e.items), k)
    case If(_, _, _, _) =>
      var (a, k1) := IfArms(s, k.elseIf + 1, IfCounted(s, k));
      (IfTests(s, k) + a + [Mark(EndIf(k1.endIf))], k1)
    case While(c, body) =>
      var k1 := LoopCounted(k);
      var (b, k2) := BodyCode(body, k1);
      ([Mark(LoopLabel(k.memLoop + 1))] + b + TestCode(c, LoopLabel(k2.loop)), k2.(loop := k2.loop - 1))
  }

  /** `loop_num = mem_loop_num`, then both go up by one. */
  function LoopCounted(k: Counters): Counters {
    k.(loop := k.memLoop + 1, memLoop := k.memLoop + 1)
  }

  /** The counters after the tests of an `if`. */
  function IfCounted(s: Stmt, k: Counters): Counters
    requires s.If?
  {
    k.(elseIf := k.elseIf + 1 + |s.elseIfs|, endIf := k.endIf + 1, els := k.els + if s.otherwise.Else? then 1 else 0)
  }

  /** All the tests, then the jump for when none held. */
  function IfTests(s: Stmt, k: Counters): seq<Instr>
    requires s.If? && Covered(s)
  {
    TestCode(s.cond, ResIf(k.elseIf + 1)) + TestsCode(s.elseIfs, k.elseIf + 2)
      + Fallback(s.elseIfs, s.otherwise, IfCounted(s, k))
  }

  /** All the arms, labelled from RES_IF_n. */
  function IfArms(s: Stmt, n: nat, k: Counters): (seq<Instr>, Counters)
    requires s.If? && Covered(s)
    decreases s, 0
  {
    var (b, k1) := BranchCode(s.body, ResIf(n), k);
    var (bs, k2) := BranchesCode(s.elseIfs, n + 1, k1);
    match s.otherwise
    case NoElse => (b + bs, k2)
    case Else(eb) =>
      var (e, k3) := BranchCode(eb, ResElse(k2.els), k2);
      (b + bs + e, k3)
  }

  /** Where control goes when no test held; with `elseif` but no `else`, nothing is emitted. */
  function Fallback(elseIfs: seq<Branch>, otherwise: Else, k: Counters): seq<Instr> {
    if otherwise.Else? then [Jump(ResElse(k.els))]
    else if elseIfs == [] then [Jump(EndIf(k.endIf))]
    else []
  }

  /** One arm: its label, its block, the jump to the end of the `if`. */
  function BranchCode(body: seq<Stmt>, l: Label, k: Counters): (seq<Instr>, Counters)
    requires CoveredBody(body)
    decreases body, 1
  {
    var (b, k1) := BodyCode(body, k);
    ([Mark(l)] + b + [Jump(EndIf(k1.endIf))], k1)
  }

  function BranchesCode(bs: seq<Branch>, n: nat, k: Counters): (seq<Instr>, Counters)
    requires CoveredBranches(bs)
    decreases bs
  {
    if bs == [] then ([], k)
    else
      var (b, k1) := ArmCode(bs[0], n, k);
      var (more, k2) := BranchesCode(bs[1..], n + 1, k1);
      (b + more, k2)
  }

  function ArmCode(b: Branch, n: nat, k: Counters): (seq<Instr>, Counters)
    requires CoveredBranch(b)
    decreases b
  {
    BranchCode(b.body, ResIf(n), k)
  }

  function BodyCode(body: seq<Stmt>, k: Counters): (seq<Instr>, Counters)
    requires CoveredBody(body)
    decreases body, 0
  {
    if body == [] then ([], k)
    else
      var (s, k1) := StmtCode(body[0], k);
      var (more, k2) := BodyCode(body[1..], k1);
      (s + more, k2)
  }

  /** What a scope opens with. */
  const OPENING := [Mark(ScopeLabel), CreateFrame, DefTemp(true), DefTemp(false)]

  const START := Counters(0, 0, 0, 0, 0)

  /** A whole program: one scope. */
  function ProgramCode(body: seq<Stmt>): seq<Instr>
    requires CoveredBody(body)
  {
    [Jump(ScopeLabel)] + OPENING + BodyCode(body, START).0 + [Mark(EndIf(0))]
  }
}
