/** The holes the expression parser leaves: a prefix operator without operand, a call whose arguments
    end in a comma, and a hole that a repeated keyword covers up. */
module Holes {
  import opened Options
  import opened Tokens
  import opened Ast
  import opened Productions
  import opened ParserSpec
  import opened Grammar
  import opened ExprComplete
  import opened ExprSound
  import opened Collapse
  import opened StmtRoundTrip

  /** What cannot go on with an expression nor begin one. */
  predicate Outside(t: Token) { !Starts(t) && !Extends(NOT, t) }

  lemma {:induction false} LadderHole(l: nat, op: Op, rest: seq<Token>)
    requires LOGICAL_OR <= l <= UNARY && PrefixToken(OP(op)) && Outside(Peek(rest))
    ensures BinaryExpr(l, [OP(op)] + rest) == Res(Some(Unary(op, Missing, false)), rest)
    decreases UNARY - l
  {
    hide BinaryLoop, PostfixExpr;
    var ts := [OP(op)] + rest;
    assert ts[1..] == rest;
    if l < UNARY {
      LadderHole(l + 1, op, rest);
      ChainStops(l, Unary(op, Missing, false), rest);
    } else {
      NoUnary(rest, true);
    }
  }

  /** A prefix operator is accepted without its operand. */
  lemma MissingOperand(op: Op, rest: seq<Token>, keep: bool)
    requires PrefixToken(OP(op)) && Outside(Peek(rest))
    ensures NotExpr([OP(op)] + rest, keep) == Res(Some(Unary(op, Missing, false)), rest)
    ensures !Whole(Unary(op, Missing, false))
  {
    hide BinaryExpr;
    LadderHole(LOGICAL_OR, op, rest);
    var ts := [OP(op)] + rest;
    assert ForkExpr(ts) == Res(Some(Unary(op, Missing, false)), rest);
    assert NotExpr(ts) == Res(Some(Unary(op, Missing, false)), rest);
    NotCollapses(ts);
    assert Collapsed(Missing) == Missing;
  }

  // ----- calls

  /** A call read whole is read as an expression. */
  lemma CallAsExpr(ts: seq<Token>, e: Expr, rest: seq<Token>)
    requires ts != [] && CallExpr(ts) == Res(Some(e), rest) && !Extends(NOT, Peek(rest))
    requires !PrefixToken(ts[0]) && ts[0] != DIM && ts[0] != OP(LNot)
    ensures NotExpr(ts) == Res(Some(e), rest)
  {
    hide CallExpr, BinaryExpr;
    assert PowExpr(ts) == Res(Some(e), rest) && PostfixExpr(ts) == Res(Some(e), rest);
    assert UnaryExpr(ts) == Res(Some(e), rest);
    CallInLadder(LOGICAL_OR, ts, e, rest);
    assert ForkExpr(ts) == Res(Some(e), rest);
  }

  lemma {:induction false} CallInLadder(l: nat, ts: seq<Token>, e: Expr, rest: seq<Token>)
    requires LOGICAL_OR <= l <= UNARY && UnaryExpr(ts) == Res(Some(e), rest) && !Extends(NOT, Peek(rest))
    ensures BinaryExpr(l, ts) == Res(Some(e), rest)
    decreases UNARY - l
  {
    hide UnaryExpr, BinaryLoop;
    if l < UNARY {
      CallInLadder(l + 1, ts, e, rest);
      ChainStops(l, e, rest);
    }
  }

  /** A callee and what its parentheses hold, up to a closing one. */
  lemma CallOf(c: Cst, inner: seq<Token>, a: Res<Args>, rest: seq<Token>)
    requires Derives(CALL, c) && CallArgs(inner, [], []) == a && Peek(inner) != RPAREN
    requires a.rest == [RPAREN] + rest && !Extends(NOT, Peek(rest))
    ensures NotExpr(Emit(c, [LPAREN] + inner))
         == Res(Some(Call(Erase(c), if a.node.Some? then a.node.value else NoArgs)), rest)
  {
    hide CallArgs, Emit, Derives, Erase, CallExpr, NotExpr, Extends;
    var ts := [LPAREN] + inner;
    var call := Call(Erase(c), if a.node.Some? then a.node.value else NoArgs);
    assert ts[1..] == inner && a.rest[1..] == rest;
    CallChain(c, ts);
    NotALeftParen(rest);
    CallStops(call, rest);
    assert CallRest(Erase(c), ts) == CallRest(call, rest);
    FirstToken(CALL, c, ts);
    CallAsExpr(Emit(c, ts), call, rest);
  }

  lemma NotALeftParen(rest: seq<Token>)
    requires !Extends(NOT, Peek(rest))
    ensures Peek(rest) != LPAREN
  {
  }

  /** No declaration list stands open at the end of the arguments. */
  predicate LastClosed(args: List<CArg>) {
    match args
    case Nil => true
    case Cons(a, Nil) => !OpenDim(a.val)
    case Cons(_, t) => LastClosed(t)
  }

  /** Arguments and a comma, with no argument after it. */
  lemma {:induction false} ArgsThenComma(args: List<CArg>, tail: seq<Token>, vals: seq<Expr>, named: seq<Named>)
    requires args.Cons? && DerivesArgs(args) && LastClosed(args) && !Starts(Peek(tail))
    ensures CallArgs(EmitArgs(args, [COMMA] + tail), vals, named) == Res(None, tail)
    decreases args
  {
    hide NotExpr, Emit, Derives, Erase, OpenDim, CallArgs, Starts;
    var a, t := args.head, args.tail;
    var end := [COMMA] + tail;
    var more := if t.Nil? then end else [COMMA] + EmitArgs(t, end);
    var next := if t.Nil? then tail else EmitArgs(t, end);
    assert end[1..] == tail && more == [COMMA] + next && more[1..] == next;
    CommaStops(more);
    CompleteBefore(NOT, a.val, more);
    assert EmitArgs(args, end) == EmitArg(a, more);
    if a.Keyword? {
      KeywordRead(a, more);
      ArgStep(EmitArgs(args, end), vals, named, Erase(a.key), [AS] + Emit(a.val, more), Erase(a.val), more);
    } else {
      ArgStep(EmitArgs(args, end), vals, named, Erase(a.val), more, Missing, more);
    }
    if t.Nil? {
      NoExpr(tail, true);
      NoArgument(tail);
    } else if a.Positional? {
      ArgsThenComma(t, tail, vals + [Erase(a.val)], named);
    } else {
      ArgsThenComma(t, tail, vals, named + [Named(KeyName(Erase(a.key)), Erase(a.val))]);
    }
  }

  lemma CommaStops(ts: seq<Token>)
    requires Peek(ts) == COMMA
    ensures !Extends(NOT, Peek(ts)) && Outside(Peek(ts))
  {
  }

  lemma NoArgument(ts: seq<Token>)
    requires NotExpr(ts) == Res(None, ts)
    ensures forall vals, named :: CallArgs(ts, vals, named) == Res(None, ts)
  {
    hide NotExpr;
  }

  /** A call whose last argument is followed by a comma is accepted, and loses all its arguments. */
  lemma TrailingComma(c: Cst, args: List<CArg>, rest: seq<Token>)
    requires Derives(CALL, c) && args.Cons? && DerivesArgs(args) && LastClosed(args) && !Extends(NOT, Peek(rest))
    ensures var ts := Emit(c, [LPAREN] + EmitArgs(args, [COMMA] + ([RPAREN] + rest)));
      && NotExpr(ts, true) == Res(Some(Call(Erase(c), NoArgs)), rest)
      && NotExpr(ts, false) == Res(Some(Call(Collapsed(Erase(c)), NoArgs)), rest)
    ensures !Whole(Call(Erase(c), NoArgs)) && !Whole(Call(Collapsed(Erase(c)), NoArgs))
  {
    hide NotExpr, Emit, EmitArgs, Derives, DerivesArgs, Erase, Extends, CallArgs, LastClosed;
    var tail := [RPAREN] + rest;
    var inner := EmitArgs(args, [COMMA] + tail);
    ArgsThenComma(args, tail, [], []);
    ArgsStart(args, [COMMA] + tail);
    CallOf(c, inner, CallArgs(inner, [], []), rest);
    NotCollapses(Emit(c, [LPAREN] + inner));
    assert ArgsCollapsed(NoArgs) == NoArgs;
    assert Collapsed(Call(Erase(c), NoArgs)) == Call(Collapsed(Erase(c)), NoArgs);
  }

  // ----- a hole covered up

  lemma NameRead(k: string, rest: seq<Token>)
    requires Peek(rest) == AS
    ensures NotExpr([ID(k)] + rest) == Res(Some(Id(k)), rest)
  {
    CompleteBefore(NOT, Atom(ID(k)), rest);
  }

  lemma NumberRead(n: int, rest: seq<Token>)
    requires Peek(rest) == RPAREN
    ensures NotExpr([INT(n)] + rest) == Res(Some(Int(n)), rest)
  {
    CompleteBefore(NOT, Atom(INT(n)), rest);
  }

  lemma LastKeyword(k: string, n: int, tail: seq<Token>, named: seq<Named>)
    requires Peek(tail) == RPAREN
    ensures CallArgs([ID(k), AS, INT(n)] + tail, [], named) == Res(Some(Args([], named + [Named(k, Int(n))])), tail)
  {
    hide NotExpr;
    var mid := [AS, INT(n)] + tail;
    NameRead(k, mid);
    NumberRead(n, tail);
    assert [ID(k), AS, INT(n)] + tail == [ID(k)] + mid && mid[1..] == [INT(n)] + tail;
  }

  lemma EmptyKeyword(k: string, more: seq<Token>)
    ensures CallArgs([ID(k), AS, OP(Minus), COMMA] + more, [], [])
         == CallArgs(more, [], [Named(k, Unary(Minus, Missing, false))])
  {
    hide NotExpr, CallArgs, Outside;
    var rest := [COMMA] + more;
    var mid := [AS] + ([OP(Minus)] + rest);
    NameRead(k, mid);
    CommaStops(rest);
    MissingOperand(Minus, rest, true);
    assert [ID(k), AS, OP(Minus), COMMA] + more == [ID(k)] + mid && mid[1..] == [OP(Minus)] + rest && rest[1..] == more;
    ArgStep([ID(k)] + mid, [], [], Id(k), mid, Unary(Minus, Missing, false), rest);
    assert [] + [Named(k, Unary(Minus, Missing, false))] == [Named(k, Unary(Minus, Missing, false))];
  }

  /** What was read of `f(k as -, k as n)`. */
  function Both(f: string, k: string, n: int): Expr {
    Call(Id(f), Args([], [Named(k, Unary(Minus, Missing, false)), Named(k, Int(n))]))
  }

  function BothTokens(f: string, k: string, n: int, rest: seq<Token>): seq<Token> {
    [ID(f)] + ([LPAREN] + ([ID(k), AS, OP(Minus), COMMA] + ([ID(k), AS, INT(n)] + ([RPAREN] + rest))))
  }

  lemma BothRead(f: string, k: string, n: int, rest: seq<Token>)
    requires !Extends(NOT, Peek(rest))
    ensures NotExpr(BothTokens(f, k, n, rest), true) == Res(Some(Both(f, k, n)), rest)
  {
    hide NotExpr, CallArgs, Extends;
    var tail := [RPAREN] + rest;
    var last := [ID(k), AS, INT(n)] + tail;
    var first := [ID(k), AS, OP(Minus), COMMA] + last;
    EmptyKeyword(k, last);
    LastKeyword(k, n, tail, [Named(k, Unary(Minus, Missing, false))]);
    assert [Named(k, Unary(Minus, Missing, false))] + [Named(k, Int(n))]
        == [Named(k, Unary(Minus, Missing, false)), Named(k, Int(n))];
    CallOf(Atom(ID(f)), first, CallArgs(first, [], []), rest);
  }

  lemma BothCollapsed(f: string, k: string, n: int)
    ensures Collapsed(Both(f, k, n)) == Call(Id(f), Args([], [Named(k, Int(n))]))
  {
    var hole, val := Unary(Minus, Missing, false), Int(n);
    var named := AddNamed([Named(k, hole)], k, val, true);
    assert [] + [Named(k, hole)] == [Named(k, hole)];
    MoreNamed([], k, hole);
    MoreNamed([Named(k, hole)], k, val);
    NoneCollapsed();
    assert named == [Named(k, hole), Named(k, val)];
    assert Collapsed(val) == val && Collapsed(Id(f)) == Id(f);
    hide Collapsed;
    assert NamedCollapsed(named) == [Named(k, val)];
  }

  /** `f(k as -, k as n)`: the parser's tree has no hole, for the second value covers it up, but the
      tokens derive no tree at all. */
  lemma HiddenHole(f: string, k: string, n: int, rest: seq<Token>)
    requires !Extends(NOT, Peek(rest))
    ensures var ts := BothTokens(f, k, n, rest); var e := Call(Id(f), Args([], [Named(k, Int(n))]));
      && NotExpr(ts, false) == Res(Some(e), rest) && Whole(e)
      && !exists c, d, end :: Witness(NOT, c, ts, d, end)
  {
    hide NotExpr, BothTokens, Witness;
    var ts := BothTokens(f, k, n, rest);
    BothRead(f, k, n, rest);
    BothCollapsed(f, k, n);
    NotCollapses(ts);
    BothHole(f, k, n);
    forall c, d, end ensures !Witness(NOT, c, ts, d, end) {
      ExprIff(ts, d, end);
    }
  }

  lemma BothHole(f: string, k: string, n: int)
    ensures !Whole(Both(f, k, n)) && Whole(Call(Id(f), Args([], [Named(k, Int(n))])))
  {
    var named := [Named(k, Unary(Minus, Missing, false)), Named(k, Int(n))];
    assert named[0] in named && !Whole(named[0].val);
    assert Whole(Int(n)) && Whole(Id(f));
  }

  /** The parser's own tree: unless a keyword is given twice, its tokens derive it exactly when no child
      is missing in it. */
  lemma SoundUnlessRepeated(ts: seq<Token>, e: Expr, rest: seq<Token>)
    requires NotExpr(ts, true) == Res(Some(e), rest)
    ensures NotExpr(ts, false) == Res(Some(Collapsed(e)), rest)
    ensures NoRepeats(e) ==> Collapsed(e) == e && (Whole(e) <==> exists c :: Witness(NOT, c, ts, e, rest))
  {
    hide NotExpr, NoRepeats, Collapsed, Witness;
    NotCollapses(ts);
    ExprIff(ts, e, rest);
    if NoRepeats(e) { NothingCollapses(e); }
  }

  /** In general the parser's own tree is what is left of a tree that the tokens derive, exactly when what
      was read has no hole. */
  lemma ParserIff(ts: seq<Token>, t: Expr, rest: seq<Token>)
    ensures (exists e :: NotExpr(ts, true) == Res(Some(e), rest) && Whole(e) && NotExpr(ts, false) == Res(Some(t), rest))
       <==> (exists c, e :: Witness(NOT, c, ts, e, rest) && Collapsed(e) == t)
  {
    hide NotExpr, Whole, Collapsed, Witness;
    NotCollapses(ts);
    if e :| NotExpr(ts, true) == Res(Some(e), rest) && Whole(e) && NotExpr(ts, false) == Res(Some(t), rest) {
      ExprIff(ts, e, rest);
    }
    if c, e :| Witness(NOT, c, ts, e, rest) && Collapsed(e) == t {
      ExprIff(ts, e, rest);
    }
  }
}
