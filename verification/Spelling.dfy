/** The characters of the output, and a reader of the target language that takes them apart again. */
module Spelling {
  import opened Options
  import opened Ifjcode

  /** How the C library prints a number with `%g`, and how the reader of the text takes it. */
  datatype Floats = Floats(show: real -> string, read: string -> Option<real>)

  /** Neither blank nor control character, and neither comment nor escape sequence begins with it. */
  predicate Visible(c: char) { c > ' ' && c != '#' && c != '\\' }

  predicate Word(w: string) { forall c :: c in w ==> Visible(c) }

  ghost predicate Wordy(f: Floats) { forall r :: Word(f.show(r)) }

  // ----- numbers

  function Digit(d: nat): char
    requires d < 10
  {
    (48 + d) as char
  }

  function Digits(n: nat): string {
    if n < 10 then [Digit(n)] else Digits(n / 10) + [Digit(n % 10)]
  }

  /** `%d` */
  function Decimal(n: int): string { if n < 0 then "-" + Digits(-n) else Digits(n) }

  function Worth(c: char): nat
    requires '0' <= c <= '9'
  {
    c as int - 48
  }

  function Number(s: string): Option<nat> {
    if s == "" then None
    else
      var n := |s| - 1;
      if !('0' <= s[n] <= '9') then None
      else if n == 0 then Some(Worth(s[n]))
      else
        match Number(s[..n])
        case None => None
        case Some(k) => Some(10 * k + Worth(s[n]))
  }

  predicate Minus(s: string) { s != "" && s[0] == '-' }

  function Whole(s: string): Option<int> {
    match Number(if Minus(s) then s[1..] else s)
    case None => None
    case Some(n) => var k: int := n; Some(if Minus(s) then -k else k)
  }

  // ----- words

  function Name(m: Mnemonic): string {
    match m
    case M_DEFVAR => "DEFVAR"
    case M_MOVE => "MOVE"
    case M_CALC(ADD) => "ADD"
    case M_CALC(SUB) => "SUB"
    case M_CALC(MUL) => "MUL"
    case M_CALC(AND) => "AND"
    case M_CALC(OR) => "OR"
    case M_NOT => "NOT"
    case M_TYPE => "TYPE"
    case M_JUMP => "JUMP"
    case M_JUMPIFEQ => "JUMPIFEQ"
    case M_JUMPIFNEQ => "JUMPIFNEQ"
    case M_LABEL => "LABEL"
    case M_CREATEFRAME => "CREATEFRAME"
  }

  function LabelName(l: Label): string {
    match l
    case ScopeLabel => "Scope"
    case ResIf(n) => "RES_IF_" + Digits(n)
    case ResElse(n) => "RES_ELSE_" + Digits(n)
    case EndIf(n) => "END_IF_" + Digits(n)
    case LoopLabel(k) => "LOOP_" + Decimal(k)
  }

  function Literal(v: Value, sign: string, f: Floats): string {
    match v
    case IntV(n) => "int@" + sign + Decimal(n)
    case FloatV(r) => "float@" + sign + f.show(r)
    case StrV(t) => "string@" + sign + t
    case BoolV(b) => "bool@" + sign + if b then "true" else "false"
  }

  function Operand(s: Symb, f: Floats): string {
    match s
    case Var(x) => "GF@" + x
    case Const(v) => Literal(v, "", f)
    case Neg(v) => Literal(v, "-", f)
  }

  function Spell(p: Piece, f: Floats): string {
    match p
    case Header => ".IFJcode17"
    case Op(m) => Name(m)
    case Sym(s) => Operand(s, f)
    case Temp(first) => if first then "TF@temp_bool_1" else "TF@temp_bool_2"
    case Lbl(l) => LabelName(l)
    case EOL => "\n"
  }

  /** Words of a line stand one blank apart. */
  function Chars(ps: seq<Piece>, f: Floats): string {
    if ps == [] then ""
    else Spell(ps[0], f) + Gap(ps) + Chars(ps[1..], f)
  }

  function Gap(ps: seq<Piece>): string
    requires ps != []
  {
    if ps[0] != EOL && |ps| > 1 && ps[1] != EOL then " " else ""
  }

  /** What the generator prints for these instructions. */
  function Output(code: seq<Instr>): seq<Piece> { [Header, EOL] + Text(code) + [EOL] }

  // ----- the reader

  /** What follows `p` in `w`. */
  function After(p: string, w: string): Option<string> {
    if p != "" && w != "" && w[0] == p[0] && p <= w then Some(w[|p|..]) else None
  }

  function ReadName(w: string): Option<Mnemonic> {
    if w == "DEFVAR" then Some(M_DEFVAR)
    else if w == "MOVE" then Some(M_MOVE)
    else if w == "ADD" then Some(M_CALC(ADD))
    else if w == "SUB" then Some(M_CALC(SUB))
    else if w == "MUL" then Some(M_CALC(MUL))
    else if w == "AND" then Some(M_CALC(AND))
    else if w == "OR" then Some(M_CALC(OR))
    else if w == "NOT" then Some(M_NOT)
    else if w == "TYPE" then Some(M_TYPE)
    else if w == "JUMP" then Some(M_JUMP)
    else if w == "JUMPIFEQ" then Some(M_JUMPIFEQ)
    else if w == "JUMPIFNEQ" then Some(M_JUMPIFNEQ)
    else if w == "LABEL" then Some(M_LABEL)
    else if w == "CREATEFRAME" then Some(M_CREATEFRAME)
    else None
  }

  function ReadLabel(w: string): Option<Label> {
    if w == "Scope" then Some(ScopeLabel)
    else if After("RES_IF_", w).Some? then Labelled(Number(After("RES_IF_", w).value), n => ResIf(n))
    else if After("RES_ELSE_", w).Some? then Labelled(Number(After("RES_ELSE_", w).value), n => ResElse(n))
    else if After("END_IF_", w).Some? then Labelled(Number(After("END_IF_", w).value), n => EndIf(n))
    else if After("LOOP_", w).Some? then Labelled(Whole(After("LOOP_", w).value), n => LoopLabel(n))
    else None
  }

  function Labelled<N>(n: Option<N>, l: N -> Label): Option<Label> {
    match n
    case None => None
    case Some(k) => Some(l(k))
  }

  function Unsigned(t: string): string { if Minus(t) then t[1..] else t }

  function Signed(minus: bool, v: Option<Value>): Option<Symb> {
    match v
    case None => None
    case Some(x) => Some(if minus then Neg(x) else Const(x))
  }

  function ReadInt(t: string): Option<Value> {
    match Number(t)
    case None => None
    case Some(n) => Some(IntV(n))
  }

  function ReadFloat(t: string, f: Floats): Option<Value> {
    if Minus(t) then None
    else
      match f.read(t)
      case None => None
      case Some(r) => Some(FloatV(r))
  }

  function ReadSymb(w: string, f: Floats): Option<Symb> {
    if After("GF@", w).Some? then
      if Word(w) then Some(Var(After("GF@", w).value)) else None
    else if After("int@", w).Some? then Signed(Minus(After("int@", w).value), ReadInt(Unsigned(After("int@", w).value)))
    else if After("float@", w).Some? then Signed(Minus(After("float@", w).value), ReadFloat(Unsigned(After("float@", w).value), f))
    else if After("string@", w).Some? then
      if Word(w) then Some(Const(StrV(After("string@", w).value))) else None
    else if w == "bool@true" then Some(Const(BoolV(true)))
    else if w == "bool@false" then Some(Const(BoolV(false)))
    else None
  }

  function ReadWord(w: string, f: Floats): Option<Piece> {
    if ReadSymb(w, f).Some? then Some(Sym(ReadSymb(w, f).value))
    else if ReadLabel(w).Some? then Some(Lbl(ReadLabel(w).value))
    else if ReadName(w).Some? then Some(Op(ReadName(w).value))
    else if w == ".IFJcode17" then Some(Header)
    else if w == "TF@temp_bool_1" then Some(Temp(true))
    else if w == "TF@temp_bool_2" then Some(Temp(false))
    else None
  }

  function Both(a: Option<seq<Piece>>, b: Option<seq<Piece>>): Option<seq<Piece>> {
    if a.Some? && b.Some? then Some(a.value + b.value) else None
  }

  function Ended(w: string, f: Floats): Option<seq<Piece>> {
    if w == "" then Some([])
    else
      match ReadWord(w, f)
      case None => None
      case Some(p) => Some([p])
  }

  /** Past a comment. */
  function Skip(s: string): (r: string)
    ensures |r| <= |s|
  {
    if s == "" || s[0] == '\n' then s else Skip(s[1..])
  }

  /** Words end at blanks, at the end of the line and where a comment begins; `w` is the word so far. */
  function Scan(s: string, w: string, f: Floats): Option<seq<Piece>>
    decreases |s|
  {
    if s == "" then Ended(w, f)
    else if s[0] == '\n' then Both(Both(Ended(w, f), Some([EOL])), Scan(s[1..], "", f))
    else if s[0] == ' ' || s[0] == '\t' then Both(Ended(w, f), Scan(s[1..], "", f))
    else if s[0] == '#' then Both(Ended(w, f), Scan(Skip(s[1..]), "", f))
    else Scan(s[1..], w + [s[0]], f)
  }

  function Load(s: string, f: Floats): Option<seq<Instr>> {
    match Scan(s, "", f)
    case None => None
    case Some(ps) => if |ps| >= 2 && ps[0] == Header && ps[1] == EOL then Assemble(ps[2..]) else None
  }

  // ----- exactly the operands that come back

  predicate PlainValue(v: Value, f: Floats) {
    match v
    case IntV(n) => n >= 0
    case FloatV(r) => !Minus(f.show(r)) && f.read(f.show(r)) == Some(r)
    case StrV(t) => Word(t)
    case BoolV(_) => true
  }

  /** A name or string without blanks, comment and escape characters, or a number without a sign of
      its own whose printed form reads back. */
  predicate PlainSymb(s: Symb, f: Floats) {
    match s
    case Var(x) => Word(x)
    case Const(v) => PlainValue(v, f)
    case Neg(v) => (v.IntV? || v.FloatV?) && PlainValue(v, f)
  }

  predicate Plain(p: Piece, f: Floats) { p.Sym? ==> PlainSymb(p.s, f) }

  predicate PlainCode(code: seq<Instr>, f: Floats) {
    forall i, p :: i in code && p in Line(i) ==> Plain(p, f)
  }

  lemma {:induction false} DigitsBack(n: nat)
    ensures Digits(n) != "" && Word(Digits(n)) && !Minus(Digits(n)) && Number(Digits(n)) == Some(n)
  {
    if n >= 10 {
      DigitsBack(n / 10);
      assert Digits(n)[..|Digits(n)| - 1] == Digits(n / 10);
      assert Digits(n)[0] == Digits(n / 10)[0];
    }
  }

  lemma DecimalBack(n: int)
    ensures Word(Decimal(n)) && Whole(Decimal(n)) == Some(n) && (Minus(Decimal(n)) <==> n < 0)
    ensures Number(Decimal(n)) == if n < 0 then None else Some(n)
  {
    DigitsBack(if n < 0 then -n else n);
    if n < 0 {
      assert Decimal(n)[1..] == Digits(-n);
      NoSign(Digits(-n));
    }
  }

  lemma {:induction false} NoSign(t: string)
    requires t != ""
    ensures Number("-" + t) == None
  {
    var s := "-" + t;
    if |t| == 1 {
      assert s[..1] == "-";
    } else {
      NoSign(t[..|t| - 1]);
      assert s[..|t|] == "-" + t[..|t| - 1];
    }
  }

  lemma {:induction false} NameBack(m: Mnemonic)
    ensures ReadName(Name(m)) == Some(m) && Name(m) != "" && Word(Name(m))
  {
  }
}
