/** Tokens of the language. The lexer is not modelled: a source text is the sequence of its
    tokens, and past the last one the current token is `EOS`. */
module Tokens {

  datatype Op =
    | Dot | LNot | Not | Fork
    | Plus | Incr | Minus | Decr | Mul | Div | Mod | Pow
    | Gt | Lt | Gte | Lte | Eq | Neq | And | Or
    | Assign | PlusAssign | MinusAssign | MulAssign | DivAssign | AndAssign | OrAssign
    | BitAnd | BitOr | BitXor | BitNot | BitShl | BitShr

  datatype Token =
    | ILLEGAL | EOS
    | ID(name: string) | INT(number: int) | DOUBLE(float: real) | STRING(text: string)
    | PRINT | INPUT | DECLARE | FUNCTION | SCOPE | TYPE | AS | DO | LOOP | WHILE
    | IF | THEN | ELSEIF | ELSE | FOR | DIM | END | RETURN
    | LBRACE | RBRACE | LPAREN | RPAREN | LBRACK | RBRACK
    | COLON | QMARK | SEMICOLON | COMMA
    | OP(op: Op)

  /** The current token. */
  function Peek(ts: seq<Token>): Token {
    if ts == [] then EOS else ts[0]
  }
}

/** The syntax tree. `Missing` and `NoArgs` stand for the nulls the parser leaves in a
    tree it accepts. */
module Ast {
  import opened Options
  import opened Tokens

  datatype Decl = Decl(ids: seq<string>, typ: string)

  datatype Item = Item(decl: Decl, init: Option<Expr>)

  datatype Pair = Pair(key: Expr, val: Expr)

  datatype Named = Named(key: string, val: Expr)

  datatype Args = NoArgs | Args(vals: seq<Expr>, named: seq<Named>)

  datatype Expr =
    | Missing
    | Id(name: string)
    | Int(number: int)
    | Double(float: real)
    | Str(text: string)
    | Array(vals: seq<Expr>)
    | Hash(pairs: seq<Pair>)
    | Unary(op: Op, expr: Expr, postfix: bool)
    | Binary(op: Op, left: Expr, right: Expr)
    | Call(fn: Expr, args: Args)
    | Dim(items: seq<Item>)

  datatype Branch = Branch(cond: Expr, body: seq<Stmt>)

  datatype Else = NoElse | Else(stmts: seq<Stmt>)

  datatype Stmt =
    | Eval(expr: Expr)
    | Print(values: seq<Expr>)
    | Input(param: Expr)
    | If(cond: Expr, body: seq<Stmt>, elseIfs: seq<Branch>, otherwise: Else)
    | While(cond: Expr, body: seq<Stmt>)
    | Return(result: Option<Expr>)
    | Scope(body: seq<Stmt>)
    | Declare(name: string, params: seq<Item>, typ: Option<string>)
    | Function(name: string, params: seq<Item>, typ: Option<string>, body: seq<Stmt>)
    | TypeDef(name: string, fields: seq<Decl>)

  /** A keyword argument replaces an earlier one of the same name. */
  function SetNamed(named: seq<Named>, key: string, val: Expr): seq<Named> {
    if named == [] then [Named(key, val)]
    else if named[0].key == key then [Named(key, val)] + named[1..]
    else [named[0]] + SetNamed(named[1..], key, val)
  }

  /** One more keyword argument: listed behind the others, or in the place of one of its name. */
  function AddNamed(named: seq<Named>, key: string, val: Expr, keep: bool): seq<Named> {
    if keep then named + [Named(key, val)] else SetNamed(named, key, val)
  }
}
