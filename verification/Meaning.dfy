/** What the supported statements mean, told on the syntax tree alone. */
module Meaning {
  import opened Options
  import opened Tokens
  import opened Ast
  import opened Ifjcode
  import opened CodegenSpec

  /** `Left`: the operands of an operation differed in type, which ends the program. `Wrong`: a
      variable unknown, declared twice or without a value, or operands no operation is for.
      `Unfinished`: the rounds ran out. */
  datatype Outcome = Done(store: Store) | Left(store: Store) | Wrong(store: Store) | Unfinished(store: Store)

  datatype Kind = KNone | KInt | KFloat | KString | KBool

  datatype Verdict = Yes | No | Mismatch | Undefined

  predicate Known(e: Expr, store: Store) { e.Id? ==> e.name in store }

  function ValueOf(e: Expr, store: Store): Option<Value>
    requires Known(e, store)
  {
    match e
    case Id(x) => store[x]
    case Int(n) => Some(IntV(n))
    case Double(d) => Some(FloatV(d))
    case Str(t) => Some(StrV(t))
    case _ => None
  }

  function KindOf(v: Option<Value>): Kind {
    if v.None? then KNone
    else match v.value
      case IntV(_) => KInt
      case FloatV(_) => KFloat
      case StrV(_) => KString
      case BoolV(_) => KBool
  }

  function Apply(op: Op, a: Value, b: Value): Option<Value> {
    if a.IntV? && b.IntV? then
      match op
      case Plus => Some(IntV(a.number + b.number))
      case Minus => Some(IntV(a.number - b.number))
      case Mul => Some(IntV(a.number * b.number))
      case _ => None
    else if a.FloatV? && b.FloatV? then
      match op
      case Plus => Some(FloatV(a.float + b.float))
      case Minus => Some(FloatV(a.float - b.float))
      case Mul => Some(FloatV(Times(a.float, b.float)))
      case _ => None
    else if a.BoolV? && b.BoolV? then
      match op
      case BitAnd => Some(BoolV(a.truth && b.truth))
      case BitOr => Some(BoolV(a.truth || b.truth))
      case _ => None
    else None
  }

  function Put(x: string, v: Value, store: Store): Outcome {
    if x in store then Done(store[x := Some(v)]) else Wrong(store)
  }

  /** `x = e` */
  function SetTo(x: string, e: Expr, store: Store): Outcome
    requires IsRhs(e)
  {
    if IsCalc(e) then
      if !Known(e.left, store) || !Known(e.right, store) then Wrong(store)
      else
        var a, b := ValueOf(e.left, store), ValueOf(e.right, store);
        if Arithmetic(e.op) && KindOf(a) != KindOf(b) then Left(store)
        else if a.None? || b.None? then Wrong(store)
        else
          var r := Apply(e.op, a.value, b.value);
          if r.None? then Wrong(store) else Put(x, r.value, store)
    else if IsNegated(e) then
      Put(x, if e.expr.Int? then IntV(-e.expr.number) else FloatV(-e.expr.float), store)
    else
      var operand := if IsNegation(e) then e.expr else e;
      if !Known(operand, store) || ValueOf(operand, store).None? then Wrong(store)
      else
        var v := ValueOf(operand, store).value;
        if IsAtom(e) then Put(x, v, store)
        else if v.BoolV? then Put(x, BoolV(!v.truth), store)
        else Wrong(store)
  }

  function DeclareAll(ids: seq<string>, store: Store): Outcome {
    if ids == [] then Done(store)
    else if ids[0] in store then Wrong(store)
    else DeclareAll(ids[1..], store[ids[0] := None])
  }

  function DeclareItems(items: seq<Item>, store: Store): Outcome {
    if items == [] then Done(store)
    else
      match DeclareAll(items[0].decl.ids, store)
      case Done(store1) => DeclareItems(items[1..], store1)
      case r => r
  }

  function Test(e: Expr, store: Store): Verdict
    requires IsTest(e)
  {
    if !Known(e.left, store) || !Known(e.right, store) then Undefined
    else
      var a, b := ValueOf(e.left, store), ValueOf(e.right, store);
      if KindOf(a) != KindOf(b) then Mismatch
      else if a.None? then Undefined
      else if (a == b) == (e.op != Neq) then Yes
      else No
  }

  datatype Choice = Arm(i: nat) | NoArm | Stop(why: Verdict)

  /** The first branch whose test holds. */
  function Pick(bs: seq<Branch>, store: Store): Choice
    requires CoveredBranches(bs)
  {
    if bs == [] then NoArm
    else
      assert CoveredBranch(bs[0]);
      match Test(bs[0].cond, store)
      case Yes => Arm(0)
      case No => (match Pick(bs[1..], store) case Arm(i) => Arm(i + 1) case r => r)
      case why => Stop(why)
  }

  /** The tested branches of an if, the `then` branch first. */
  function Tested(s: Stmt): (bs: seq<Branch>)
    requires s.If?
  {
    [Branch(s.cond, s.body)] + s.elseIfs
  }

  lemma TestedCovered(s: Stmt)
    requires s.If? && Covered(s)
    ensures CoveredBranches(Tested(s)) && Tested(s)[1..] == s.elseIfs
  {
    assert Tested(s)[1..] == s.elseIfs;
    assert CoveredBranch(Tested(s)[0]);
  }

  lemma {:induction false} BranchCovered(bs: seq<Branch>, i: nat)
    requires CoveredBranches(bs) && i < |bs|
    ensures CoveredBody(bs[i].body)
  {
    if i == 0 { assert CoveredBranch(bs[0]); } else { BranchCovered(bs[1..], i - 1); }
  }

  lemma {:induction false} PickInRange(bs: seq<Branch>, store: Store)
    requires CoveredBranches(bs)
    ensures Pick(bs, store).Arm? ==> Pick(bs, store).i < |bs|
    ensures Pick(bs, store).Stop? ==> Pick(bs, store).why == Mismatch || Pick(bs, store).why == Undefined
  {
    if bs != [] { PickInRange(bs[1..], store); }
  }

  /** With `fall`, an if that has `elseif` but no `else` takes its first arm when no test holds. */
  function Exec(s: Stmt, store: Store, fuel: nat, fall: bool): Outcome
    requires Covered(s)
    decreases fuel, s, 1
  {
    match s
    case Eval(e) => if IsAssignment(e) then SetTo(e.left.name, e.right, store) else DeclareItems(e.items, store)
    case If(_, _, _, _) =>
      TestedCovered(s);
      PickInRange(Tested(s), store);
      (match Pick(Tested(s), store)
       case Arm(i) => ExecArm(s, i, store, fuel, fall)
       case NoArm =>
         (match s.otherwise
          case Else(e) => ExecBody(e, store, fuel, fall)
          case NoElse => if fall && s.elseIfs != [] then ExecBody(s.body, store, fuel, fall) else Done(store))
       case Stop(why) => if why == Mismatch then Left(store) else Wrong(store))
    case While(c, body) => Loop(c, body, store, fuel, fall)
  }

  function ExecArm(s: Stmt, i: nat, store: Store, fuel: nat, fall: bool): Outcome
    requires s.If? && Covered(s) && i <= |s.elseIfs|
    decreases fuel, s, 0
  {
    if i == 0 then ExecBody(s.body, store, fuel, fall)
    else
      BranchCovered(s.elseIfs, i - 1);
      ExecBody(s.elseIfs[i - 1].body, store, fuel, fall)
  }

  function ExecBody(body: seq<Stmt>, store: Store, fuel: nat, fall: bool): Outcome
    requires CoveredBody(body)
    decreases fuel, body
  {
    if body == [] then Done(store)
    else
      match Exec(body[0], store, fuel, fall)
      case Done(store1) => ExecBody(body[1..], store1, fuel, fall)
      case r => r
  }

  /** The body, then the test; again while it holds. */
  function Loop(c: Expr, body: seq<Stmt>, store: Store, fuel: nat, fall: bool): Outcome
    requires IsLoopTest(c) && CoveredBody(body)
    decreases fuel, body
  {
    if fuel == 0 then Unfinished(store)
    else
      match ExecBody(body, store, fuel - 1, fall)
      case Done(store1) =>
        (match Test(c, store1)
         case Yes => Loop(c, body, store1, fuel - 1, fall)
         case No => Done(store1)
         case Mismatch => Left(store1)
         case Undefined => Wrong(store1))
      case r => r
  }
}
