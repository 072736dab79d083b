/** The part of the IFJcode17 target language the generator emits here: instructions, the text
    lines that spell them, and the machine that runs them. */
module Ifjcode {
  import opened Options

  datatype Value = IntV(number: int) | FloatV(float: real) | StrV(text: string) | BoolV(truth: bool)

  /** A global variable, a literal, or a literal printed behind a minus sign. */
  datatype Symb = Var(name: string) | Const(val: Value) | Neg(val: Value)

  datatype Label = ScopeLabel | ResIf(n: nat) | ResElse(n: nat) | EndIf(n: nat) | LoopLabel(k: int)

  datatype Alu = ADD | SUB | MUL | AND | OR

  /** `TypeOf` writes one of the two temporaries of the frame, which only `JumpIfTypesDiffer` reads. */
  datatype Instr =
    | DefVar(x: string)
    | Move(x: string, a: Symb)
    | Calc(op: Alu, x: string, a: Symb, b: Symb)
    | NotI(x: string, a: Symb)
    | TypeOf(first: bool, a: Symb)
    | JumpIfTypesDiffer(l: Label)
    | Jump(l: Label)
    | JumpIfEq(l: Label, a: Symb, b: Symb)
    | JumpIfNeq(l: Label, a: Symb, b: Symb)
    | Mark(l: Label)
    | CreateFrame
    | DefTemp(first: bool)

  // ----- text

  datatype Mnemonic =
    | M_DEFVAR | M_MOVE | M_CALC(op: Alu) | M_NOT | M_TYPE | M_JUMP | M_JUMPIFEQ | M_JUMPIFNEQ | M_LABEL | M_CREATEFRAME

  /** The words of the output, and its line ends. */
  datatype Piece = Header | Op(m: Mnemonic) | Sym(s: Symb) | Temp(first: bool) | Lbl(l: Label) | EOL

  function Line(i: Instr): seq<Piece> {
    match i
    case DefVar(x) => [Op(M_DEFVAR), Sym(Var(x)), EOL]
    case Move(x, a) => [Op(M_MOVE), Sym(Var(x)), Sym(a), EOL]
    case Calc(op, x, a, b) => [Op(M_CALC(op)), Sym(Var(x)), Sym(a), Sym(b), EOL]
    case NotI(x, a) => [Op(M_NOT), Sym(Var(x)), Sym(a), EOL]
    case TypeOf(first, a) => [Op(M_TYPE), Temp(first), Sym(a), EOL]
    case JumpIfTypesDiffer(l) => [Op(M_JUMPIFNEQ), Lbl(l), Temp(true), Temp(false), EOL]
    case Jump(l) => [Op(M_JUMP), Lbl(l), EOL]
    case JumpIfEq(l, a, b) => [Op(M_JUMPIFEQ), Lbl(l), Sym(a), Sym(b), EOL]
    case JumpIfNeq(l, a, b) => [Op(M_JUMPIFNEQ), Lbl(l), Sym(a), Sym(b), EOL]
    case Mark(l) => [Op(M_LABEL), Lbl(l), EOL]
    case CreateFrame => [Op(M_CREATEFRAME), EOL]
    case DefTemp(first) => [Op(M_DEFVAR), Temp(first), EOL]
  }

  function Text(code: seq<Instr>): seq<Piece> {
    if code == [] then [] else Text(code[..|code| - 1]) + Line(code[|code| - 1])
  }

  lemma {:induction false} TextAppend(a: seq<Instr>, b: seq<Instr>)
    ensures Text(a + b) == Text(a) + Text(b)
    decreases |b|
  {
    hide Line;
    if b == [] {
      assert a + b == a;
    } else {
      var m := |b| - 1;
      TextAppend(a, b[..m]);
      assert (a + b)[..|a + b| - 1] == a + b[..m];
      assert Text(a) + Text(b[..m]) + Line(b[m]) == Text(a) + (Text(b[..m]) + Line(b[m]));
    }
  }

  lemma TextOne(i: Instr)
    ensures Text([i]) == Line(i)
  {
    hide Line;
    assert [i][..0] == [] && Text([]) + Line(i) == Line(i);
  }

  lemma TextNext(code: seq<Instr>, i: Instr)
    ensures Text(code + [i]) == Text(code) + Line(i)
  {
    hide Line;
    assert (code + [i])[..|code|] == code;
  }

  lemma {:induction false} TextFront(code: seq<Instr>)
    requires code != []
    ensures Text(code) == Line(code[0]) + Text(code[1..])
  {
    hide Line;
    TextAppend([code[0]], code[1..]);
    assert [code[0]] + code[1..] == code;
    assert [code[0]][..0] == [];
    assert Text([code[0]]) == [] + Line(code[0]);
  }

  /** Where the first line ends. */
  function LineEnd(ps: seq<Piece>): (n: nat)
    ensures n <= |ps|
  {
    if ps == [] || ps[0] == EOL then 0 else 1 + LineEnd(ps[1..])
  }

  /** One line as the target language defines its instructions: an opcode and its operands. */
  function Parse(ws: seq<Piece>): Option<Instr> {
    if |ws| == 1 && ws[0] == Op(M_CREATEFRAME) then Some(CreateFrame)
    else if |ws| == 2 && ws[0].Op? then ParseOne(ws[0].m, ws[1])
    else if |ws| == 3 && ws[0].Op? then ParseTwo(ws[0].m, ws[1], ws[2])
    else if |ws| == 4 && ws[0].Op? then ParseThree(ws[0].m, ws[1], ws[2], ws[3])
    else None
  }

  function ParseOne(m: Mnemonic, p: Piece): Option<Instr> {
    match m
    case M_DEFVAR =>
      if p.Temp? then Some(DefTemp(p.first)) else if p.Sym? && p.s.Var? then Some(DefVar(p.s.name)) else None
    case M_JUMP => if p.Lbl? then Some(Jump(p.l)) else None
    case M_LABEL => if p.Lbl? then Some(Mark(p.l)) else None
    case _ => None
  }

  function ParseTwo(m: Mnemonic, p: Piece, q: Piece): Option<Instr> {
    match m
    case M_MOVE => if p.Sym? && p.s.Var? && q.Sym? then Some(Move(p.s.name, q.s)) else None
    case M_NOT => if p.Sym? && p.s.Var? && q.Sym? then Some(NotI(p.s.name, q.s)) else None
    case M_TYPE => if p.Temp? && q.Sym? then Some(TypeOf(p.first, q.s)) else None
    case _ => None
  }

  /** The only comparison of temporaries there is compares the first with the second. */
  function ParseThree(m: Mnemonic, p: Piece, q: Piece, r: Piece): Option<Instr> {
    match m
    case M_CALC(op) =>
      if p.Sym? && p.s.Var? && q.Sym? && r.Sym? then Some(Calc(op, p.s.name, q.s, r.s)) else None
    case M_JUMPIFEQ => if p.Lbl? && q.Sym? && r.Sym? then Some(JumpIfEq(p.l, q.s, r.s)) else None
    case M_JUMPIFNEQ =>
      if !p.Lbl? then None
      else if q.Sym? && r.Sym? then Some(JumpIfNeq(p.l, q.s, r.s))
      else if q == Temp(true) && r == Temp(false) then Some(JumpIfTypesDiffer(p.l))
      else None
    case _ => None
  }

  /** Read the lines back; blank lines are skipped. */
  function Assemble(ps: seq<Piece>): Option<seq<Instr>>
    decreases |ps|
  {
    var n := LineEnd(ps);
    if ps == [] then Some([])
    else if n == |ps| then None
    else if n == 0 then Assemble(ps[1..])
    else
      match Parse(ps[..n])
      case None => None
      case Some(i) => Ahead(i, Assemble(ps[n + 1..]))
  }

  function Ahead(i: Instr, r: Option<seq<Instr>>): Option<seq<Instr>> {
    match r
    case None => None
    case Some(code) => Some([i] + code)
  }

  /** A printed line is read as its instruction. */
  lemma ParseLine(i: Instr)
    ensures var n := |Line(i)| - 1;
      n > 0 && Line(i)[n] == EOL && EOL !in Line(i)[..n] && Parse(Line(i)[..n]) == Some(i)
  {
  }

  /** Whatever is read as an instruction is its line. */
  lemma ParsedLine(ws: seq<Piece>)
    requires Parse(ws).Some?
    ensures Line(Parse(ws).value) == ws + [EOL]
  {
  }

  lemma {:induction false} LineEndIs(ws: seq<Piece>, rest: seq<Piece>)
    requires EOL !in ws
    ensures LineEnd(ws + [EOL] + rest) == |ws|
  {
    var ps := ws + [EOL] + rest;
    if ws != [] {
      assert ws[0] in ws && ps[1..] == ws[1..] + [EOL] + rest;
      LineEndIs(ws[1..], rest);
    }
  }

  lemma AssembleLine(i: Instr, rest: seq<Piece>)
    ensures Assemble(Line(i) + rest) == Ahead(i, Assemble(rest)) && Line(i) != []
  {
    hide Line, Parse;
    ParseLine(i);
    var n := |Line(i)| - 1;
    var ws, ps := Line(i)[..n], Line(i) + rest;
    assert ps == ws + [EOL] + rest;
    LineEndIs(ws, rest);
    assert ps[..n] == ws && ps[n + 1..] == rest;
  }

  /** The printed lines read back as the instructions they were printed from. */
  lemma {:induction false} TextDecodes(code: seq<Instr>, rest: seq<Piece>)
    requires Assemble(rest) == Some([])
    ensures Assemble(Text(code) + rest) == Some(code)
  {
    hide Line, Assemble, Parse;
    if code == [] {
      assert Text(code) + rest == rest;
    } else {
      TextFront(code);
      hide Text;
      TextDecodes(code[1..], rest);
      assert Text(code) + rest == Line(code[0]) + (Text(code[1..]) + rest);
      AssembleLine(code[0], Text(code[1..]) + rest);
      assert [code[0]] + code[1..] == code;
    }
  }

  // ----- the machine

  /** Declared variables; one that was never assigned has no value. */
  type Store = map<string, Option<Value>>

  /** A temporary: not declared, declared only, or the name of a type. */
  datatype TempVar = Undeclared | Unset | Holds(name: string)

  /** The temporary frame, once there is one. */
  datatype TempFrame = NoFrame | Frame(first: TempVar, second: TempVar)

  datatype Config =
    | Running(pc: nat, store: Store, temps: TempFrame)
    | Failed(store: Store)

  /** What `TYPE` writes: the empty string for a variable without a value. */
  function TypeName(v: Option<Value>): string {
    match v
    case None => ""
    case Some(IntV(_)) => "int"
    case Some(FloatV(_)) => "float"
    case Some(StrV(_)) => "string"
    case Some(BoolV(_)) => "bool"
  }

  predicate Declared(a: Symb, store: Store) { a.Var? ==> a.name in store }

  function Look(a: Symb, store: Store): Option<Value>
    requires Declared(a, store)
  {
    match a
    case Var(x) => store[x]
    case Const(v) => Some(v)
    case Neg(v) => Some(Opposite(v))
  }

  /** The number a literal with a minus sign stands for. */
  function Opposite(v: Value): Value {
    match v
    case IntV(n) => IntV(-n)
    case FloatV(r) => FloatV(-r)
    case _ => v
  }

  /** The value of an operand; none when the variable is undeclared or unassigned. */
  function Read(a: Symb, store: Store): Option<Value> {
    if Declared(a, store) then Look(a, store) else None
  }

  function Times(x: real, y: real): (r: real)
    ensures r == x * y
  {
    x * y
  }

  function Compute(op: Alu, a: Option<Value>, b: Option<Value>): Option<Value> {
    match (op, a, b)
    case (ADD, Some(IntV(x)), Some(IntV(y))) => Some(IntV(x + y))
    case (SUB, Some(IntV(x)), Some(IntV(y))) => Some(IntV(x - y))
    case (MUL, Some(IntV(x)), Some(IntV(y))) => Some(IntV(x * y))
    case (ADD, Some(FloatV(x)), Some(FloatV(y))) => Some(FloatV(x + y))
    case (SUB, Some(FloatV(x)), Some(FloatV(y))) => Some(FloatV(x - y))
    case (MUL, Some(FloatV(x)), Some(FloatV(y))) => Some(FloatV(Times(x, y)))
    case (AND, Some(BoolV(x)), Some(BoolV(y))) => Some(BoolV(x && y))
    case (OR, Some(BoolV(x)), Some(BoolV(y))) => Some(BoolV(x || y))
    case _ => None
  }

  function Negate(a: Option<Value>): Option<Value> {
    match a
    case Some(BoolV(x)) => Some(BoolV(!x))
    case _ => None
  }

  /** Whether two operands are equal; none when they cannot be compared. */
  function Compare(a: Option<Value>, b: Option<Value>): Option<bool> {
    if a.Some? && b.Some? && TypeName(a) == TypeName(b) then Some(a == b) else None
  }

  /** Where a label stands; the end of the code when it is nowhere. */
  function Target(code: seq<Instr>, l: Label): (t: nat)
    ensures t <= |code|
  {
    if code == [] then 0 else if code[0] == Mark(l) then 0 else 1 + Target(code[1..], l)
  }

  function Assigned(c: Config, x: string, v: Option<Value>): Config
    requires c.Running?
  {
    if x in c.store && v.Some? then c.(pc := c.pc + 1, store := c.store[x := v]) else Failed(c.store)
  }

  function GetTemp(t: TempFrame, first: bool): TempVar {
    if t.NoFrame? then Undeclared else if first then t.first else t.second
  }

  function SetTemp(t: TempFrame, first: bool, v: TempVar): TempFrame {
    if t.NoFrame? then t else if first then t.(first := v) else t.(second := v)
  }

  function Branched(code: seq<Instr>, c: Config, l: Label, taken: Option<bool>): Config
    requires c.Running?
  {
    if taken.None? then Failed(c.store)
    else c.(pc := if taken.value then Target(code, l) else c.pc + 1)
  }

  /** One instruction. A configuration past the code, and a failed one, stay as they are. */
  function Step(code: seq<Instr>, c: Config): Config {
    if c.Failed? || c.pc >= |code| then c
    else match code[c.pc]
      case DefVar(x) =>
        if x in c.store then Failed(c.store) else c.(pc := c.pc + 1, store := c.store[x := None])
      case Move(x, a) => Assigned(c, x, Read(a, c.store))
      case Calc(op, x, a, b) => Assigned(c, x, Compute(op, Read(a, c.store), Read(b, c.store)))
      case NotI(x, a) => Assigned(c, x, Negate(Read(a, c.store)))
      case TypeOf(first, a) =>
        if !Declared(a, c.store) || GetTemp(c.temps, first) == Undeclared then Failed(c.store)
        else c.(pc := c.pc + 1, temps := SetTemp(c.temps, first, Holds(TypeName(Look(a, c.store)))))
      case JumpIfTypesDiffer(l) =>
        var x, y := GetTemp(c.temps, true), GetTemp(c.temps, false);
        Branched(code, c, l, if x.Holds? && y.Holds? then Some(x.name != y.name) else None)
      case Jump(l) => Branched(code, c, l, Some(true))
      case JumpIfEq(l, a, b) => Branched(code, c, l, Compare(Read(a, c.store), Read(b, c.store)))
      case JumpIfNeq(l, a, b) =>
        var r := Compare(Read(a, c.store), Read(b, c.store));
        Branched(code, c, l, if r.None? then None else Some(!r.value))
      case Mark(_) => c.(pc := c.pc + 1)
      case CreateFrame => c.(pc := c.pc + 1, temps := Frame(Undeclared, Undeclared))
      case DefTemp(first) =>
        if c.temps.NoFrame? || GetTemp(c.temps, first) != Undeclared then Failed(c.store)
        else c.(pc := c.pc + 1, temps := SetTemp(c.temps, first, Unset))
  }

  function Steps(code: seq<Instr>, c: Config, n: nat): Config
    decreases n
  {
    if n == 0 then c else Steps(code, Step(code, c), n - 1)
  }

  predicate Stopped(code: seq<Instr>, c: Config) { c.Failed? || c.pc >= |code| }

  lemma {:induction false} StepsAdd(code: seq<Instr>, c: Config, m: nat, n: nat)
    ensures Steps(code, c, m + n) == Steps(code, Steps(code, c, m), n)
    decreases m
  {
    if m > 0 { StepsAdd(code, Step(code, c), m - 1, n); }
  }

  lemma {:induction false} StaysStopped(code: seq<Instr>, c: Config, n: nat)
    requires Stopped(code, c)
    ensures Steps(code, c, n) == c
    decreases n
  {
    if n > 0 { StaysStopped(code, c, n - 1); }
  }
}
