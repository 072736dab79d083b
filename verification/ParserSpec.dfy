/** The recursive descent as functions from the tokens ahead to a tree and the tokens left.
    A failed parse leaves the tokens where it stopped: some callers carry on from there. The parser
    itself is what the functions say without `keep`. With `keep` they say what was read: a keyword
    argument given again is listed again, where the parser overwrites the earlier one. */
module ParserSpec {
  import opened Options
  import opened Tokens
  import opened Ast
  import opened Productions

  datatype Res<+T> = Res(node: Option<T>, rest: seq<Token>)

  /** The level whose loop takes an operator, 0 for one no loop takes. */
  function BinaryLevel(op: Op): (l: nat)
    ensures l == Rank(op)
  {
    match op
    case Or => 3
    case And => 4
    case BitOr => 5
    case BitXor => 6
    case BitAnd => 7
    case Eq | Neq => 8
    case Lt | Lte | Gt | Gte => 9
    case BitShl | BitShr => 10
    case Plus | Minus => 11
    case Mul | Div | Mod => 12
    case _ => 0
  }

  predicate AtLevel(t: Token, l: nat) { t.OP? && l > 0 && BinaryLevel(t.op) == l }

  predicate IsAssign(t: Token): (b: bool)
    ensures b == AssignToken(t)
  {
    t.OP? && (t.op == Assign || t.op == PlusAssign || t.op == MinusAssign || t.op == MulAssign
           || t.op == DivAssign || t.op == AndAssign || t.op == OrAssign)
  }

  predicate IsPrefix(t: Token): (b: bool)
    ensures b == PrefixToken(t)
  {
    t.OP? && (t.op == Incr || t.op == Decr || t.op == BitNot || t.op == Plus || t.op == Minus || t.op == Not)
  }

  predicate IsPostfix(t: Token): (b: bool)
    ensures b == PostfixToken(t)
  {
    t.OP? && (t.op == Incr || t.op == Decr)
  }

  function OrMissing(e: Option<Expr>): Expr { if e.Some? then e.value else Missing }

  function After(ts: seq<Token>, t: Token): seq<Token> {
    if ts != [] && ts[0] == t then ts[1..] else ts
  }

  // ----- expressions

  function NotExpr(ts: seq<Token>, keep: bool := true): (r: Res<Expr>)
    ensures |r.rest| <= |ts| && (r.node.Some? ==> |r.rest| < |ts|)
    decreases |ts|, 20
  {
    if Peek(ts) == OP(LNot) then
      var r := NotExpr(ts[1..], keep);
      if r.node.None? then r else Res(Some(Unary(LNot, r.node.value, false)), r.rest)
    else AssignExpr(ts, keep)
  }

  function AssignExpr(ts: seq<Token>, keep: bool := true): (r: Res<Expr>)
    ensures |r.rest| <= |ts| && (r.node.Some? ==> |r.rest| < |ts|)
    decreases |ts|, 19
  {
    if Peek(ts) == DIM then DimExpr(ts[1..], keep)
    else
      var l := ForkExpr(ts, keep);
      if l.node.None? || !IsAssign(Peek(l.rest)) then l
      else
        var r := NotExpr(l.rest[1..], keep);
        if r.node.None? then r else Res(Some(Binary(l.rest[0].op, l.node.value, r.node.value)), r.rest)
  }

  function ForkExpr(ts: seq<Token>, keep: bool := true): (r: Res<Expr>)
    ensures |r.rest| <= |ts| && (r.node.Some? ==> |r.rest| < |ts|)
    decreases |ts|, 18
  {
    var r := BinaryExpr(LOGICAL_OR, ts, keep);
    if r.node.Some? && Peek(r.rest) == OP(Fork)
    then Res(Some(Call(Id("fork"), Args([r.node.value], []))), r.rest[1..])
    else r
  }

  function BinaryExpr(l: nat, ts: seq<Token>, keep: bool := true): (r: Res<Expr>)
    requires LOGICAL_OR <= l <= UNARY
    ensures |r.rest| <= |ts| && (r.node.Some? ==> |r.rest| < |ts|)
    decreases |ts|, 20 - l
  {
    if l == UNARY then UnaryExpr(ts, keep)
    else
      var r := BinaryExpr(l + 1, ts, keep);
      if r.node.None? then r else BinaryLoop(l, r.node.value, r.rest, keep)
  }

  /** `while (is(op)) node = node op operand` */
  function BinaryLoop(l: nat, node: Expr, ts: seq<Token>, keep: bool := true): (r: Res<Expr>)
    requires LOGICAL_OR <= l < UNARY
    ensures |r.rest| <= |ts|
    decreases |ts|, 0
  {
    if !AtLevel(Peek(ts), l) then Res(Some(node), ts)
    else
      var r := BinaryExpr(l + 1, ts[1..], keep);
      if r.node.None? then r else BinaryLoop(l, Binary(ts[0].op, node, r.node.value), r.rest, keep)
  }

  function UnaryExpr(ts: seq<Token>, keep: bool := true): (r: Res<Expr>)
    ensures |r.rest| <= |ts| && (r.node.Some? ==> |r.rest| < |ts|)
    decreases |ts|, 6
  {
    if IsPrefix(Peek(ts)) then
      var r := UnaryExpr(ts[1..], keep);
      Res(Some(Unary(ts[0].op, OrMissing(r.node), false)), r.rest)
    else PostfixExpr(ts, keep)
  }

  function PostfixExpr(ts: seq<Token>, keep: bool := true): (r: Res<Expr>)
    ensures |r.rest| <= |ts| && (r.node.Some? ==> |r.rest| < |ts|)
    decreases |ts|, 5
  {
    var r := PowExpr(ts, keep);
    if r.node.Some? && IsPostfix(Peek(r.rest))
    then Res(Some(Unary(r.rest[0].op, r.node.value, true)), r.rest[1..])
    else r
  }

  function PowExpr(ts: seq<Token>, keep: bool := true): (r: Res<Expr>)
    ensures |r.rest| <= |ts| && (r.node.Some? ==> |r.rest| < |ts|)
    decreases |ts|, 4
  {
    var l := CallExpr(ts, keep);
    if l.node.None? || Peek(l.rest) != OP(Pow) then l
    else
      var r := CallExpr(l.rest[1..], keep);
      if r.node.None? then r else Res(Some(Binary(Pow, l.node.value, r.node.value)), r.rest)
  }

  function CallExpr(ts: seq<Token>, keep: bool := true): (r: Res<Expr>)
    ensures |r.rest| <= |ts| && (r.node.Some? ==> |r.rest| < |ts|)
    decreases |ts|, 3
  {
    var r := PrimaryExpr(ts, keep);
    if r.node.None? then r else CallRest(r.node.value, r.rest, keep)
  }

  /** One `'(' args? ')'` after another. */
  function CallRest(left: Expr, ts: seq<Token>, keep: bool := true): (r: Res<Expr>)
    ensures |r.rest| <= |ts|
    decreases |ts|, 0
  {
    if Peek(ts) != LPAREN then Res(Some(left), ts)
    else
      var a := if Peek(ts[1..]) == RPAREN then Res(Some(Args([], [])), ts[1..]) else CallArgs(ts[1..], [], [], keep);
      if Peek(a.rest) != RPAREN then Res(None, a.rest)
      else CallRest(Call(left, if a.node.Some? then a.node.value else NoArgs), a.rest[1..], keep)
  }

  function CallArgs(ts: seq<Token>, vals: seq<Expr>, named: seq<Named>, keep: bool := true): (r: Res<Args>)
    ensures |r.rest| <= |ts|
    decreases |ts|, 21
  {
    var e := NotExpr(ts, keep);
    if e.node.None? then Res(None, e.rest)
    else if Peek(e.rest) == AS then
      if !e.node.value.Str? && !e.node.value.Id? then Res(None, e.rest[1..])
      else
        var v := NotExpr(e.rest[1..], keep);
        var key := if e.node.value.Str? then e.node.value.text else e.node.value.name;
        var named' := AddNamed(named, key, OrMissing(v.node), keep);
        if Peek(v.rest) == COMMA then CallArgs(v.rest[1..], vals, named', keep)
        else Res(Some(Args(vals, named')), v.rest)
    else
      if Peek(e.rest) == COMMA then CallArgs(e.rest[1..], vals + [e.node.value], named, keep)
      else Res(Some(Args(vals + [e.node.value], named)), e.rest)
  }

  function PrimaryExpr(ts: seq<Token>, keep: bool := true): (r: Res<Expr>)
    ensures |r.rest| <= |ts| && (r.node.Some? ==> |r.rest| < |ts|)
    decreases |ts|, 2
  {
    if ts == [] then Res(None, ts)
    else match ts[0]
      case ID(n) => Res(Some(Id(n)), ts[1..])
      case INT(n) => Res(Some(Int(n)), ts[1..])
      case DOUBLE(d) => Res(Some(Double(d)), ts[1..])
      case STRING(s) => Res(Some(Str(s)), ts[1..])
      case LBRACK =>
        var r := ArgList(ts[1..], RBRACK, [], keep);
        if r.node.None? then Res(None, r.rest) else Closed(Array(r.node.value), r.rest, RBRACK)
      case LBRACE =>
        var r := HashPairs(ts[1..], RBRACE, [], keep);
        if r.node.None? then Res(None, r.rest) else Closed(Hash(r.node.value), r.rest, RBRACE)
      case LPAREN =>
        var r := NotExpr(ts[1..], keep);
        if r.node.None? then r else Closed(r.node.value, r.rest, RPAREN)
      case _ => Res(None, ts)
  }

  function Closed(e: Expr, ts: seq<Token>, t: Token): Res<Expr> {
    if ts != [] && ts[0] == t then Res(Some(e), ts[1..]) else Res(None, ts)
  }

  function ArgList(ts: seq<Token>, delim: Token, vals: seq<Expr>, keep: bool := true): (r: Res<seq<Expr>>)
    ensures |r.rest| <= |ts|
    decreases |ts|, 21
  {
    if Peek(ts) == delim then Res(Some(vals), ts)
    else
      var e := NotExpr(ts, keep);
      if e.node.None? then Res(None, e.rest)
      else if Peek(e.rest) == COMMA then ArgList(e.rest[1..], delim, vals + [e.node.value], keep)
      else Res(Some(vals + [e.node.value]), e.rest)
  }

  function HashPairs(ts: seq<Token>, delim: Token, pairs: seq<Pair>, keep: bool := true): (r: Res<seq<Pair>>)
    ensures |r.rest| <= |ts|
    decreases |ts|, 21
  {
    if Peek(ts) == delim then Res(Some(pairs), ts)
    else
      var k := NotExpr(ts, keep);
      if k.node.None? then Res(None, k.rest)
      else if Peek(k.rest) != AS then Res(None, k.rest)
      else
        var v := NotExpr(k.rest[1..], keep);
        if v.node.None? then Res(None, v.rest)
        else
          var pairs' := pairs + [Pair(k.node.value, v.node.value)];
          if Peek(v.rest) == COMMA then HashPairs(v.rest[1..], delim, pairs', keep)
          else Res(Some(pairs'), v.rest)
  }

  /** The parsing function of each level. */
  function Parse(l: nat, ts: seq<Token>, keep: bool := true): Res<Expr> {
    if l == NOT then NotExpr(ts, keep)
    else if l == ASSIGNMENT then AssignExpr(ts, keep)
    else if l == FORK then ForkExpr(ts, keep)
    else if l <= UNARY then BinaryExpr(l, ts, keep)
    else if l == POSTFIX then PostfixExpr(ts, keep)
    else if l == POWER then PowExpr(ts, keep)
    else if l == CALL then CallExpr(ts, keep)
    else PrimaryExpr(ts, keep)
  }

  // ----- declarations

  function DeclIds(ts: seq<Token>, ids: seq<string>): (r: (seq<string>, seq<Token>))
    ensures |r.1| <= |ts| && (ts != [] && ts[0].ID? ==> |r.1| < |ts|)
    decreases |ts|
  {
    if !Peek(ts).ID? then (ids, ts)
    else if Peek(ts[1..]) == COMMA then DeclIds(ts[2..], ids + [ts[0].name])
    else (ids + [ts[0].name], ts[1..])
  }

  function DeclExpr(ts: seq<Token>): (r: Res<Decl>)
    ensures |r.rest| <= |ts| && (r.node.Some? ==> |r.rest| < |ts|)
  {
    if !Peek(ts).ID? then Res(None, ts)
    else
      var (ids, rest) := DeclIds(ts, []);
      if Peek(rest) != AS then Res(None, rest)
      else if !Peek(rest[1..]).ID? then Res(None, rest[1..])
      else Res(Some(Decl(ids, rest[1].name)), rest[2..])
  }

  /** `decl ('=' expr)? (',' decl ('=' expr)?)*` */
  function Items(ts: seq<Token>, items: seq<Item>, keep: bool := true): (r: Res<seq<Item>>)
    ensures |r.rest| <= |ts| && (r.node.Some? ==> |r.rest| < |ts|)
    decreases |ts|, 21
  {
    var d := DeclExpr(ts);
    if d.node.None? then Res(None, d.rest)
    else if Peek(d.rest) == OP(Assign) then
      var v := NotExpr(d.rest[1..], keep);
      if v.node.None? then Res(None, v.rest)
      else ItemsRest(v.rest, items + [Item(d.node.value, v.node)], keep)
    else ItemsRest(d.rest, items + [Item(d.node.value, None)], keep)
  }

  function ItemsRest(ts: seq<Token>, items: seq<Item>, keep: bool := true): (r: Res<seq<Item>>)
    ensures |r.rest| <= |ts|
    decreases |ts|, 22
  {
    if Peek(ts) == COMMA then Items(ts[1..], items, keep) else Res(Some(items), ts)
  }

  function DimExpr(ts: seq<Token>, keep: bool := true): (r: Res<Expr>)
    ensures |r.rest| <= |ts| && (r.node.Some? ==> |r.rest| < |ts|)
    decreases |ts|, 22
  {
    var r := Items(ts, [], keep);
    Res(if r.node.None? then None else Some(Dim(r.node.value)), r.rest)
  }

  function FunctionParams(ts: seq<Token>, keep: bool := true): (r: Res<seq<Item>>)
    ensures |r.rest| <= |ts|
  {
    if !Peek(ts).ID? then Res(Some([]), ts) else Items(ts, [], keep)
  }

  // ----- statements

  datatype Signature = Signature(name: string, params: seq<Item>, typ: Option<string>)

  /** What `declare function` and `function` have in common:
      `id ('(' params ')')? ('as' type)? ';'?` */
  function SignatureOf(ts: seq<Token>, keep: bool := true): (r: Res<Signature>)
    ensures |r.rest| <= |ts| && (r.node.Some? ==> |r.rest| < |ts|)
  {
    hide Params;
    if !Peek(ts).ID? then Res(None, ts)
    else
      var p := if Peek(ts[1..]) == LPAREN then Params(ts[2..], keep) else Res(Some([]), ts[1..]);
      if p.node.None? then Res(None, p.rest)
      else if Peek(p.rest) != AS
      then Res(Some(Signature(ts[0].name, p.node.value, None)), After(p.rest, SEMICOLON))
      else if !Peek(p.rest[1..]).ID? then Res(None, p.rest[1..])
      else Res(Some(Signature(ts[0].name, p.node.value, Some(p.rest[1].name))), After(p.rest[2..], SEMICOLON))
  }

  function Params(ts: seq<Token>, keep: bool := true): (r: Res<seq<Item>>)
    ensures |r.rest| <= |ts|
  {
    var p := FunctionParams(ts, keep);
    if p.node.None? || Peek(p.rest) != RPAREN then Res(None, p.rest) else Res(p.node, p.rest[1..])
  }

  /** `print` takes expressions for as long as each is followed by ';'. One that fails half-way ends the
      list, and is a hole in the tree that lists everything read. */
  function PrintValues(ts: seq<Token>, values: seq<Expr>, keep: bool := true): (r: (seq<Expr>, seq<Token>))
    ensures |r.1| <= |ts|
    decreases |ts|
  {
    var e := NotExpr(ts, keep);
    if e.node.None? then (if keep && e.rest != ts then values + [Missing] else values, e.rest)
    else if Peek(e.rest) == SEMICOLON then PrintValues(e.rest[1..], values + [e.node.value], keep)
    else (values + [e.node.value], e.rest)
  }

  function TypeFields(ts: seq<Token>, fields: seq<Decl>): (r: Res<seq<Decl>>)
    ensures |r.rest| <= |ts|
    decreases |ts|
  {
    var d := DeclExpr(ts);
    if d.node.None? then Res(None, d.rest)
    else
      var rest := After(d.rest, SEMICOLON);
      if Peek(rest) == END then Res(Some(fields + [d.node.value]), rest[1..])
      else TypeFields(rest, fields + [d.node.value])
  }

  function TypeStmt(ts: seq<Token>): (r: Res<Stmt>)
    ensures |r.rest| <= |ts|
  {
    if !Peek(ts).ID? then Res(None, ts)
    else
      var f := TypeFields(After(ts[1..], SEMICOLON), []);
      Res(if f.node.None? then None else Some(TypeDef(ts[0].name, f.node.value)), f.rest)
  }

  function Statement(ts: seq<Token>, keep: bool := true): (r: Res<Stmt>)
    ensures |r.rest| <= |ts| && (r.node.Some? ==> |r.rest| < |ts|)
    decreases |ts|, 1
  {
    match Peek(ts)
    case PRINT =>
      var (values, rest) := PrintValues(ts[1..], [], keep);
      Res(Some(Print(values)), rest)
    case INPUT =>
      var e := NotExpr(ts[1..], keep);
      Res(Some(Input(OrMissing(e.node))), After(e.rest, SEMICOLON))
    case IF => IfStmt(ts[1..], keep)
    case DO => WhileStmt(ts[1..], keep)
    case RETURN =>
      if Peek(ts[1..]) == SEMICOLON then Res(Some(Return(None)), ts[2..])
      else
        var e := NotExpr(ts[1..], keep);
        Res(if e.node.None? then None else Some(Return(e.node)), e.rest)
    case SCOPE =>
      var b := Block(ts[1..], [], keep);
      Res(if b.node.None? then None else Some(Scope(b.node.value)), b.rest)
    case DECLARE =>
      if Peek(ts[1..]) != FUNCTION then Res(None, ts[1..])
      else
        var h := SignatureOf(ts[2..], keep);
        if h.node.None? then Res(None, h.rest)
        else Res(Some(Declare(h.node.value.name, h.node.value.params, h.node.value.typ)), h.rest)
    case FUNCTION => FunctionStmt(ts[1..], keep)
    case TYPE => TypeStmt(ts[1..])
    case _ =>
      var e := NotExpr(ts, keep);
      Res(if e.node.None? then None else Some(Eval(e.node.value)), e.rest)
  }

  function FunctionStmt(ts: seq<Token>, keep: bool := true): (r: Res<Stmt>)
    ensures |r.rest| <= |ts|
    decreases |ts|, 3
  {
    var h := SignatureOf(ts, keep);
    if h.node.None? then Res(None, h.rest)
    else
      var b := Block(h.rest, [], keep);
      if b.node.None? then Res(None, b.rest)
      else Res(Some(Function(h.node.value.name, h.node.value.params, h.node.value.typ, b.node.value)), b.rest)
  }

  /** `cond 'then' block`, after `if` and after `elseif`. */
  function Guarded(ts: seq<Token>, keep: bool := true): (r: Res<Branch>)
    ensures |r.rest| <= |ts| && (r.node.Some? ==> |r.rest| < |ts|)
    decreases |ts|, 3
  {
    var c := NotExpr(ts, keep);
    if c.node.None? then Res(None, c.rest)
    else if Peek(c.rest) != THEN then Res(None, c.rest)
    else
      var b := Block(c.rest[1..], [], keep);
      Res(if b.node.None? then None else Some(Branch(c.node.value, b.node.value)), b.rest)
  }

  function IfStmt(ts: seq<Token>, keep: bool := true): (r: Res<Stmt>)
    ensures |r.rest| <= |ts|
    decreases |ts|, 4
  {
    var g := Guarded(ts, keep);
    if g.node.None? then Res(None, g.rest) else IfRest(g.node.value, [], g.rest, keep)
  }

  function IfRest(first: Branch, elseIfs: seq<Branch>, ts: seq<Token>, keep: bool := true): (r: Res<Stmt>)
    ensures |r.rest| <= |ts|
    decreases |ts|, 4
  {
    if Peek(ts) == ELSE then
      var b := Block(ts[1..], [], keep);
      Res(if b.node.None? then None else Some(If(first.cond, first.body, elseIfs, Else(b.node.value))), b.rest)
    else if Peek(ts) == ELSEIF then
      var g := Guarded(ts[1..], keep);
      if g.node.None? then Res(None, g.rest) else IfRest(first, elseIfs + [g.node.value], g.rest, keep)
    else Res(Some(If(first.cond, first.body, elseIfs, NoElse)), ts)
  }

  function WhileStmt(ts: seq<Token>, keep: bool := true): (r: Res<Stmt>)
    ensures |r.rest| <= |ts|
    decreases |ts|, 3
  {
    if Peek(ts) != WHILE then Res(None, ts)
    else
      var c := NotExpr(ts[1..], keep);
      if c.node.None? then Res(None, c.rest)
      else
        var b := Block(After(c.rest, SEMICOLON), [], keep);
        Res(if b.node.None? then None else Some(While(c.node.value, b.node.value)), b.rest)
  }

  predicate Closing(t: Token) { t == FUNCTION || t == SCOPE || t == IF }

  function Block(ts: seq<Token>, stmts: seq<Stmt>, keep: bool := true): (r: Res<seq<Stmt>>)
    ensures |r.rest| <= |ts|
    decreases |ts|, 3
  {
    match Peek(ts)
    case ELSE | ELSEIF => Res(Some(stmts), ts)
    case LOOP => Res(Some(stmts), ts[1..])
    case END => if Closing(Peek(ts[1..])) then Res(Some(stmts), ts[2..]) else Res(None, ts[1..])
    case _ => BlockMore(ts, stmts, keep)
  }

  /** One statement of a block, and the block's rest. */
  function BlockMore(ts: seq<Token>, stmts: seq<Stmt>, keep: bool := true): (r: Res<seq<Stmt>>)
    ensures |r.rest| <= |ts|
    decreases |ts|, 2
  {
    var s := Statement(ts, keep);
    if s.node.None? then Res(None, s.rest)
    else Block(After(s.rest, SEMICOLON), stmts + [s.node.value], keep)
  }

  function Program(ts: seq<Token>, stmts: seq<Stmt>, keep: bool := true): (r: Res<seq<Stmt>>)
    ensures |r.rest| <= |ts|
    decreases |ts|
  {
    if Peek(ts) == EOS then Res(Some(stmts), ts)
    else
      var s := Statement(ts, keep);
      if s.node.None? then Res(None, s.rest)
      else Program(After(s.rest, SEMICOLON), stmts + [s.node.value], keep)
  }
}
