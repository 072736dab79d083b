/** Every derivation is parsed back to the tree it means, whatever follows it. */
module ExprComplete {
  import opened Options
  import opened Tokens
  import opened Ast
  import opened Productions
  import opened ParserSpec
  import opened Grammar

  /** What the first token of a derivation cannot be. */
  predicate Starts(t: Token) {
    || t.ID? || t.INT? || t.DOUBLE? || t.STRING? || t == LBRACK || t == LBRACE || t == LPAREN
    || t == DIM || t == OP(LNot) || PrefixToken(t)
  }

  lemma {:induction false} FirstToken(l: nat, c: Cst, rest: seq<Token>)
    requires Derives(l, c)
    ensures var ts := Emit(c, rest);
      && ts != [] && Starts(ts[0])
      && (l >= ASSIGNMENT ==> ts[0] != OP(LNot))
      && (l >= FORK ==> ts[0] != DIM)
      && (l >= POSTFIX ==> !PrefixToken(ts[0]))
    decreases c
  {
    match c
    case CallC(f, args) => FirstToken(CALL, f, [LPAREN] + EmitArgs(args, [RPAREN] + rest));
    case PowC(x, y) => FirstToken(CALL, x, [OP(Pow)] + Emit(y, rest));
    case PostC(i, op) => FirstToken(POWER, i, [OP(op)] + rest);
    case BinC(x, op, y) => FirstToken(Rank(op), x, [OP(op)] + Emit(y, rest));
    case ForkC(i) => FirstToken(LOGICAL_OR, i, [OP(Fork)] + rest);
    case AssignC(x, op, y) => FirstToken(FORK, x, [OP(op)] + Emit(y, rest));
    case _ =>
  }

  /** A phrase of a tighter level is not treated differently one level looser. */
  lemma Lift(l: nat, c: Cst, ts: seq<Token>, e: Expr, rest: seq<Token>)
    requires l < PRIMARY && Own(c) > l && Stops(l, c, rest)
    requires Parse(l + 1, ts) == Res(Some(e), rest) && ts != []
    requires l == NOT ==> ts[0] != OP(LNot)
    requires l == ASSIGNMENT ==> ts[0] != DIM
    requires l == UNARY ==> !PrefixToken(ts[0])
    ensures Parse(l, ts) == Res(Some(e), rest)
  {
    hide ItemsRest, Items, PrimaryExpr, CallArgs;
    if l == NOT {
      assert NotExpr(ts) == AssignExpr(ts);
    } else if l < LOGICAL_OR {
      assert Parse(l, ts) == Res(Some(e), rest);
    } else if l < UNARY {
      assert BinaryExpr(l, ts) == BinaryLoop(l, e, rest);
    } else if l == UNARY {
      assert BinaryExpr(UNARY, ts) == UnaryExpr(ts) == PostfixExpr(ts);
    } else if l == CALL {
      assert CallExpr(ts) == CallRest(e, rest);
    } else {
      assert Parse(l, ts) == Res(Some(e), rest);
    }
  }

  lemma {:induction false} Complete(l: nat, c: Cst, rest: seq<Token>)
    requires l <= PRIMARY && Derives(l, c) && Stops(l, c, rest)
    ensures Parse(l, Emit(c, rest)) == Res(Some(Erase(c)), rest)
    decreases c, PRIMARY - l, 1, 1
  {
    hide NotExpr, Parse, Emit, Erase, Starts;
    if Own(c) > l {
      if Takes(l + 1, c, Peek(rest)) { TakesLess(l, c, Peek(rest)); }
      Complete(l + 1, c, rest);
      FirstToken(l + 1, c, rest);
      Lift(l, c, Emit(c, rest), Erase(c), rest);
    } else {
      OwnComplete(c, rest);
    }
  }

  lemma {:induction false} CompleteBefore(l: nat, c: Cst, rest: seq<Token>)
    requires l <= PRIMARY && Derives(l, c)
    requires !Extends(l, Peek(rest)) && (OpenDim(c) ==> Peek(rest) != COMMA)
    ensures Parse(l, Emit(c, rest)) == Res(Some(Erase(c)), rest)
    decreases c, PRIMARY - l, 1, 2
  {
    StopsBefore(l, c, rest);
    Complete(l, c, rest);
  }

  lemma {:induction false} OwnComplete(c: Cst, rest: seq<Token>)
    requires Derives(Own(c), c) && Stops(Own(c), c, rest)
    ensures Parse(Own(c), Emit(c, rest)) == Res(Some(Erase(c)), rest)
    decreases c, PRIMARY - Own(c), 1, 0
  {
    hide NotExpr, Emit, Erase, CallRest, PrimaryExpr, BinaryLoop;
    var ts := Emit(c, rest);
    match c
    case Atom(_) => AtomComplete(c, rest);
    case Paren(_) | ArrayC(_, _) | HashC(_, _) => BracketedComplete(c, rest);
    case CallC(_, _) =>
      CallChain(c, rest);
      CallStops(Erase(c), rest);
    case BinC(_, op, _) =>
      BinChain(Rank(op), c, rest);
      ChainStops(Rank(op), Erase(c), rest);
    case PreC(_, _) | PostC(_, _) | PowC(_, _) => TightComplete(c, rest);
    case _ => LooseComplete(c, rest);
  }

  lemma {:induction false} TightComplete(c: Cst, rest: seq<Token>)
    requires Derives(Own(c), c) && Stops(Own(c), c, rest)
    requires c.PreC? || c.PostC? || c.PowC?
    ensures Parse(Own(c), Emit(c, rest)) == Res(Some(Erase(c)), rest)
    decreases c, 0, 0
  {
    hide NotExpr, CallRest, PrimaryExpr, BinaryLoop;
    var ts := Emit(c, rest);
    match c
    case PreC(op, i) =>
      Complete(UNARY, i, rest);
      assert ts[1..] == Emit(i, rest);
      assert BinaryExpr(UNARY, ts) == UnaryExpr(ts) && BinaryExpr(UNARY, ts[1..]) == UnaryExpr(ts[1..]);
    case PostC(i, op) =>
      CompleteBefore(POWER, i, [OP(op)] + rest);
      assert ([OP(op)] + rest)[1..] == rest;
    case PowC(x, y) =>
      CompleteBefore(CALL, x, [OP(Pow)] + Emit(y, rest));
      assert ([OP(Pow)] + Emit(y, rest))[1..] == Emit(y, rest);
      Complete(CALL, y, rest);
  }

  lemma {:induction false} LooseComplete(c: Cst, rest: seq<Token>)
    requires Derives(Own(c), c) && Stops(Own(c), c, rest)
    requires c.NotC? || c.AssignC? || c.DimC? || c.ForkC?
    ensures Parse(Own(c), Emit(c, rest)) == Res(Some(Erase(c)), rest)
    decreases c, 0, 1
  {
    hide UnaryExpr, BinaryExpr, Items, EmitItems, EraseItems;
    var ts := Emit(c, rest);
    match c
    case NotC(i) =>
      Complete(NOT, i, rest);
      assert ts[1..] == Emit(i, rest);
      assert NotExpr(ts) == Res(Some(Erase(c)), rest);
    case DimC(items) =>
      ItemsComplete(items, rest, []);
      assert ts[1..] == EmitItems(items, rest);
      assert [] + EraseItems(items) == EraseItems(items);
      assert DimExpr(ts[1..]) == Res(Some(Erase(c)), rest);
      assert AssignExpr(ts) == Res(Some(Erase(c)), rest);
    case ForkC(i) =>
      CompleteBefore(LOGICAL_OR, i, [OP(Fork)] + rest);
      assert ([OP(Fork)] + rest)[1..] == rest;
      assert ForkExpr(ts) == Res(Some(Erase(c)), rest);
    case AssignC(_, _, _) => AssignComplete(c, rest);
  }

  lemma {:induction false} AssignComplete(c: Cst, rest: seq<Token>)
    requires c.AssignC? && Derives(ASSIGNMENT, c) && Stops(ASSIGNMENT, c, rest)
    ensures AssignExpr(Emit(c, rest)) == Res(Some(Erase(c)), rest)
    decreases c, 0, 0
  {
    hide NotExpr, ForkExpr, DimExpr;
    var more := [OP(c.op)] + Emit(c.right, rest);
    CompleteBefore(FORK, c.left, more);
    FirstToken(FORK, c.left, more);
    assert more[1..] == Emit(c.right, rest);
    Complete(NOT, c.right, rest);
  }

  lemma CallStops(e: Expr, rest: seq<Token>)
    requires Peek(rest) != LPAREN
    ensures CallRest(e, rest) == Res(Some(e), rest)
  {
  }

  lemma ChainStops(l: nat, e: Expr, rest: seq<Token>)
    requires LOGICAL_OR <= l <= MULTIPLICATIVE && !AtLevel(Peek(rest), l)
    ensures BinaryLoop(l, e, rest) == Res(Some(e), rest)
  {
  }

  lemma AtomComplete(c: Cst, rest: seq<Token>)
    requires Derives(PRIMARY, c) && c.Atom?
    ensures PrimaryExpr(Emit(c, rest)) == Res(Some(Erase(c)), rest)
  {
    hide ArgList, HashPairs, NotExpr;
    assert Emit(c, rest)[1..] == rest;
  }

  lemma {:induction false} BracketedComplete(c: Cst, rest: seq<Token>)
    requires Derives(PRIMARY, c) && (c.Paren? || c.ArrayC? || c.HashC?)
    ensures PrimaryExpr(Emit(c, rest)) == Res(Some(Erase(c)), rest)
    decreases c, 0, 0, 1
  {
    hide PrimaryExpr, Emit, Erase, Derives;
    match c
    case Paren(_) => ParenComplete(c, rest);
    case ArrayC(_, _) => ArrayComplete(c, rest);
    case HashC(_, _) => HashComplete(c, rest);
  }

  lemma {:induction false} ParenComplete(c: Cst, rest: seq<Token>)
    requires Derives(PRIMARY, c) && c.Paren?
    ensures PrimaryExpr(Emit(c, rest)) == Res(Some(Erase(c)), rest)
    decreases c, 0, 0, 0
  {
    hide NotExpr;
    CompleteBefore(NOT, c.inner, [RPAREN] + rest);
    assert Emit(c, rest)[1..] == Emit(c.inner, [RPAREN] + rest);
    assert ([RPAREN] + rest)[1..] == rest;
  }

  lemma {:induction false} ArrayComplete(c: Cst, rest: seq<Token>)
    requires Derives(PRIMARY, c) && c.ArrayC?
    ensures PrimaryExpr(Emit(c, rest)) == Res(Some(Erase(c)), rest)
    decreases c, 0, 0, 0
  {
    hide NotExpr, EmitElems, EraseElems, DerivesElems, ArgList;
    var es, trailing := c.elems, c.trailing;
    ElemsComplete(es, trailing, rest, []);
    assert Emit(c, rest)[1..] == EmitElems(es, trailing, [RBRACK] + rest);
    assert [] + EraseElems(es) == EraseElems(es) && ([RBRACK] + rest)[1..] == rest;
  }

  lemma {:induction false} HashComplete(c: Cst, rest: seq<Token>)
    requires Derives(PRIMARY, c) && c.HashC?
    ensures PrimaryExpr(Emit(c, rest)) == Res(Some(Erase(c)), rest)
    decreases c, 0, 0, 0
  {
    hide NotExpr, EmitPairs, ErasePairs, DerivesPairs, HashPairs;
    var ps, trailing := c.pairs, c.trailing;
    PairsComplete(ps, trailing, rest, []);
    assert Emit(c, rest)[1..] == EmitPairs(ps, trailing, [RBRACE] + rest);
    assert [] + ErasePairs(ps) == ErasePairs(ps) && ([RBRACE] + rest)[1..] == rest;
  }

  /** A chain at level `l` brings the parser into its loop with the chain's tree in hand. */
  lemma {:induction false} BinChain(l: nat, c: Cst, rest: seq<Token>)
    requires LOGICAL_OR <= l <= MULTIPLICATIVE && Derives(l, c)
    requires Stops(l, c, rest) || AtLevel(Peek(rest), l)
    ensures BinaryExpr(l, Emit(c, rest)) == BinaryLoop(l, Erase(c), rest)
    decreases c, PRIMARY - l, 0
  {
    hide NotExpr, BinaryLoop, Emit, Erase, UnaryExpr;
    if Own(c) > l {
      OperandComplete(l, c, rest);
    } else {
      var ts := [OP(c.op)] + Emit(c.right, rest);
      BinChain(l, c.left, ts);
      OperandComplete(l, c.right, rest);
      assert ts[1..] == Emit(c.right, rest);
      ChainStep(l, c, rest);
    }
  }

  lemma ChainStep(l: nat, c: Cst, rest: seq<Token>)
    requires LOGICAL_OR <= l <= MULTIPLICATIVE && c.BinC? && Rank(c.op) == l
    requires BinaryExpr(l + 1, Emit(c.right, rest)) == Res(Some(Erase(c.right)), rest)
    ensures BinaryLoop(l, Erase(c.left), [OP(c.op)] + Emit(c.right, rest)) == BinaryLoop(l, Erase(c), rest)
    ensures Emit(c, rest) == Emit(c.left, [OP(c.op)] + Emit(c.right, rest))
  {
    hide BinaryExpr;
    var ts := [OP(c.op)] + Emit(c.right, rest);
    assert ts[1..] == Emit(c.right, rest);
  }

  lemma {:induction false} OperandComplete(l: nat, c: Cst, rest: seq<Token>)
    requires LOGICAL_OR <= l <= MULTIPLICATIVE && Derives(l + 1, c)
    requires Stops(l + 1, c, rest) || AtLevel(Peek(rest), l)
    ensures BinaryExpr(l + 1, Emit(c, rest)) == Res(Some(Erase(c)), rest)
    decreases c, PRIMARY - l - 1, 2
  {
    if !Stops(l + 1, c, rest) { TakesExtends(l + 1, c, Peek(rest)); }
    Complete(l + 1, c, rest);
  }

  lemma {:induction false} CallChain(c: Cst, rest: seq<Token>)
    requires Derives(CALL, c)
    ensures CallExpr(Emit(c, rest)) == CallRest(Erase(c), rest)
    decreases c, PRIMARY - CALL, 0
  {
    if c.CallC? {
      var inside := EmitArgs(c.args, [RPAREN] + rest);
      CallChain(c.fn, [LPAREN] + inside);
      assert ([LPAREN] + inside)[1..] == inside;
      if c.args.Cons? {
        ArgsStart(c.args, [RPAREN] + rest);
        ArgsComplete(c.args, rest, [], []);
      }
      assert ([RPAREN] + rest)[1..] == rest;
    } else {
      StopsBefore(PRIMARY, c, rest);
      Complete(PRIMARY, c, rest);
    }
  }

  lemma ArgsStart(args: List<CArg>, rest: seq<Token>)
    requires args.Cons? && DerivesArgs(args)
    ensures Peek(EmitArgs(args, rest)) != RPAREN
  {
    var a := args.head;
    var more := if args.tail.Nil? then rest else [COMMA] + EmitArgs(args.tail, rest);
    if a.Positional? {
      FirstToken(NOT, a.val, more);
    } else {
      FirstToken(NOT, a.key, [AS] + Emit(a.val, more));
    }
  }

  lemma {:induction false} KeywordRead(a: CArg, more: seq<Token>)
    requires a.Keyword? && Derives(NOT, a.key)
    ensures NotExpr(Emit(a.key, [AS] + Emit(a.val, more))) == Res(Some(Erase(a.key)), [AS] + Emit(a.val, more))
    ensures ([AS] + Emit(a.val, more))[1..] == Emit(a.val, more)
    decreases a
  {
    hide NotExpr, Emit, Derives, Erase;
    CompleteBefore(NOT, a.key, [AS] + Emit(a.val, more));
  }

  /** One argument: positional when `mid` does not go on with `as`, else with a key and a value. */
  lemma ArgStep(ts: seq<Token>, vals: seq<Expr>, named: seq<Named>, e: Expr, mid: seq<Token>, v: Expr, rest: seq<Token>)
    requires NotExpr(ts) == Res(Some(e), mid)
    requires if Peek(mid) == AS then (e.Str? || e.Id?) && NotExpr(mid[1..]) == Res(Some(v), rest) else mid == rest
    ensures CallArgs(ts, vals, named) ==
      var vals' := if Peek(mid) == AS then vals else vals + [e];
      var named' := if Peek(mid) == AS then named + [Named(KeyName(e), v)] else named;
      if Peek(rest) == COMMA then CallArgs(rest[1..], vals', named') else Res(Some(Args(vals', named')), rest)
  {
    hide NotExpr;
  }

  lemma {:induction false} ArgsComplete(args: List<CArg>, rest: seq<Token>, vals: seq<Expr>, named: seq<Named>)
    requires args.Cons? && DerivesArgs(args)
    ensures CallArgs(EmitArgs(args, [RPAREN] + rest), vals, named)
         == Res(Some(EraseArgs(args, vals, named)), [RPAREN] + rest)
    decreases args
  {
    hide NotExpr, Emit, Derives, Erase, OpenDim, CallArgs;
    var a, t := args.head, args.tail;
    var last := [RPAREN] + rest;
    var more := if t.Nil? then last else [COMMA] + EmitArgs(t, last);
    CompleteBefore(NOT, a.val, more);
    assert EmitArgs(args, last) == EmitArg(a, more);
    if a.Keyword? {
      KeywordRead(a, more);
      ArgStep(EmitArg(a, more), vals, named, Erase(a.key), [AS] + Emit(a.val, more), Erase(a.val), more);
    } else {
      ArgStep(EmitArg(a, more), vals, named, Erase(a.val), more, Missing, more);
    }
    if t.Cons? {
      assert more[1..] == EmitArgs(t, last);
      if a.Positional? {
        ArgsComplete(t, rest, vals + [Erase(a.val)], named);
      } else {
        ArgsComplete(t, rest, vals, named + [Named(KeyName(Erase(a.key)), Erase(a.val))]);
      }
    }
  }

  lemma ListStep(ts: seq<Token>, delim: Token, vals: seq<Expr>, e: Expr, rest: seq<Token>)
    requires NotExpr(ts) == Res(Some(e), rest) && Peek(ts) != delim
    ensures ArgList(ts, delim, vals) ==
      if Peek(rest) == COMMA then ArgList(rest[1..], delim, vals + [e]) else Res(Some(vals + [e]), rest)
  {
    hide NotExpr;
  }

  lemma ListEnd(ts: seq<Token>, delim: Token, vals: seq<Expr>)
    requires Peek(ts) == delim
    ensures ArgList(ts, delim, vals) == Res(Some(vals), ts)
  {
  }

  /** What follows an element: a comma and the rest of the list, or the end of the list. */
  function Onward(last: bool, trailing: bool, tail: seq<Token>, end: seq<Token>): seq<Token> {
    if !last then [COMMA] + tail else if trailing then [COMMA] + end else end
  }

  lemma {:induction false} ElemsComplete(es: List<Cst>, trailing: bool, rest: seq<Token>, vals: seq<Expr>)
    requires DerivesElems(es, trailing)
    ensures ArgList(EmitElems(es, trailing, [RBRACK] + rest), RBRACK, vals)
         == Res(Some(vals + EraseElems(es)), [RBRACK] + rest)
    decreases es
  {
    hide NotExpr, Emit, Derives, Erase, OpenDim, ArgList;
    var end := [RBRACK] + rest;
    match es
    case Nil =>
      ListEnd(end, RBRACK, vals);
      assert vals + [] == vals;
    case Cons(c, t) =>
      var tail := EmitElems(t, trailing, end);
      var more := Onward(t.Nil?, trailing, tail, end);
      assert EmitElems(es, trailing, end) == Emit(c, more);
      FirstToken(NOT, c, more);
      CompleteBefore(NOT, c, more);
      ListStep(Emit(c, more), RBRACK, vals, Erase(c), more);
      assert vals + ([Erase(c)] + EraseElems(t)) == vals + [Erase(c)] + EraseElems(t);
      assert vals + [Erase(c)] + [] == vals + [Erase(c)];
      if t.Cons? {
        assert more[1..] == tail;
        ElemsComplete(t, trailing, rest, vals + [Erase(c)]);
      } else if trailing {
        assert more[1..] == end;
        ListEnd(end, RBRACK, vals + [Erase(c)]);
      }
  }

  lemma PairStep(ts: seq<Token>, pairs: seq<Pair>, k: Expr, mid: seq<Token>, v: Expr, rest: seq<Token>)
    requires NotExpr(ts) == Res(Some(k), mid) && Peek(ts) != RBRACE
    requires Peek(mid) == AS && NotExpr(mid[1..]) == Res(Some(v), rest)
    ensures HashPairs(ts, RBRACE, pairs) ==
      if Peek(rest) == COMMA then HashPairs(rest[1..], RBRACE, pairs + [Pair(k, v)])
      else Res(Some(pairs + [Pair(k, v)]), rest)
  {
    hide NotExpr;
  }

  lemma PairsEnd(ts: seq<Token>, pairs: seq<Pair>)
    requires Peek(ts) == RBRACE
    ensures HashPairs(ts, RBRACE, pairs) == Res(Some(pairs), ts)
  {
  }

  lemma {:induction false} PairsComplete(ps: List<CPair>, trailing: bool, rest: seq<Token>, pairs: seq<Pair>)
    requires DerivesPairs(ps, trailing)
    ensures HashPairs(EmitPairs(ps, trailing, [RBRACE] + rest), RBRACE, pairs)
         == Res(Some(pairs + ErasePairs(ps)), [RBRACE] + rest)
    decreases ps
  {
    hide NotExpr, Emit, Derives, Erase, OpenDim, HashPairs, EmitPairs;
    var end := [RBRACE] + rest;
    match ps
    case Nil =>
      PairsEnd(end, pairs);
      assert pairs + [] == pairs && EmitPairs(ps, trailing, end) == end by { NoPairs(trailing, end); }
    case Cons(p, t) =>
      var more := Onward(t.Nil?, trailing, EmitPairs(t, trailing, end), end);
      OnePair(p, t, trailing, end, pairs);
      var here := [Pair(Erase(p.key), Erase(p.val))];
      assert pairs + (here + ErasePairs(t)) == pairs + here + ErasePairs(t);
      assert pairs + here + [] == pairs + here;
      if t.Cons? {
        assert more[1..] == EmitPairs(t, trailing, end);
        PairsComplete(t, trailing, rest, pairs + here);
      } else if trailing {
        assert more[1..] == end;
        PairsEnd(end, pairs + here);
      }
  }

  lemma NoPairs(trailing: bool, end: seq<Token>)
    ensures EmitPairs(Nil, trailing, end) == end
  {
  }

  /** Reading one pair, and the comma after it. */
  lemma {:induction false} OnePair(p: CPair, t: List<CPair>, trailing: bool, end: seq<Token>, pairs: seq<Pair>)
    requires DerivesPairs(Cons(p, t), trailing) && Peek(end) == RBRACE
    ensures var more := Onward(t.Nil?, trailing, EmitPairs(t, trailing, end), end);
      var all := pairs + [Pair(Erase(p.key), Erase(p.val))];
      HashPairs(EmitPairs(Cons(p, t), trailing, end), RBRACE, pairs)
        == if Peek(more) == COMMA then HashPairs(more[1..], RBRACE, all) else Res(Some(all), more)
    decreases p, 0
  {
    hide NotExpr, Emit, Derives, Erase, OpenDim, HashPairs;
    var more := Onward(t.Nil?, trailing, EmitPairs(t, trailing, end), end);
    var mid := [AS] + Emit(p.val, more);
    assert EmitPairs(Cons(p, t), trailing, end) == Emit(p.key, mid);
    FirstToken(NOT, p.key, mid);
    CompleteBefore(NOT, p.key, mid);
    assert mid[1..] == Emit(p.val, more);
    CompleteBefore(NOT, p.val, more);
    PairStep(Emit(p.key, mid), pairs, Erase(p.key), mid, Erase(p.val), more);
  }

  lemma {:induction false} IdsComplete(ids: seq<string>, trailing: bool, rest: seq<Token>, before: seq<string>)
    requires ids != [] && Peek(rest) == AS
    ensures DeclIds(EmitIds(ids, trailing, rest), before) == (before + ids, rest)
    decreases |ids|
  {
    var ts := EmitIds(ids, trailing, rest);
    if |ids| == 1 {
      assert before + ids == before + [ids[0]];
      if trailing { assert ts[2..] == rest; } else { assert ts[1..] == rest; }
    } else {
      assert ts[2..] == EmitIds(ids[1..], trailing, rest);
      IdsComplete(ids[1..], trailing, rest, before + [ids[0]]);
      assert before + [ids[0]] + ids[1..] == before + ids;
    }
  }

  lemma DeclComplete(ids: seq<string>, trailing: bool, typ: string, rest: seq<Token>)
    requires ids != []
    ensures DeclExpr(EmitIds(ids, trailing, [AS, ID(typ)] + rest)) == Res(Some(Decl(ids, typ)), rest)
  {
    var tail := [AS, ID(typ)] + rest;
    IdsComplete(ids, trailing, tail, []);
    assert tail[1..] == [ID(typ)] + rest && tail[2..] == rest;
    assert [] + ids == ids;
  }

  lemma ItemStep(ts: seq<Token>, before: seq<Item>, d: Decl, mid: seq<Token>, init: Option<Expr>, rest: seq<Token>)
    requires DeclExpr(ts) == Res(Some(d), mid)
    requires if init.Some? then Peek(mid) == OP(Assign) && NotExpr(mid[1..]) == Res(init, rest)
      else Peek(mid) != OP(Assign) && mid == rest
    ensures Items(ts, before) ==
      if Peek(rest) == COMMA then Items(rest[1..], before + [Item(d, init)])
      else Res(Some(before + [Item(d, init)]), rest)
  {
    hide NotExpr, DeclExpr;
    assert Items(ts, before) == ItemsRest(rest, before + [Item(d, init)]);
  }

  lemma {:induction false} ItemsComplete(items: List<CItem>, rest: seq<Token>, before: seq<Item>)
    requires items.Cons? && DerivesItems(items)
    requires Peek(rest) != COMMA && !LastTakes(items, Peek(rest))
    ensures Items(EmitItems(items, rest), before) == Res(Some(before + EraseItems(items)), rest)
    decreases items
  {
    hide NotExpr, Emit, Derives, Erase, OpenDim, EmitIds, DeclExpr, Items;
    var i, t := items.head, items.tail;
    var more := if t.Nil? then rest else [COMMA] + EmitItems(t, rest);
    var tail := if i.init.Some? then [OP(Assign)] + Emit(i.init.value, more) else more;
    assert EmitItems(items, rest) == EmitIds(i.ids, i.trailing, [AS, ID(i.typ)] + tail);
    DeclComplete(i.ids, i.trailing, i.typ, tail);
    if i.init.Some? {
      assert tail[1..] == Emit(i.init.value, more);
      if t.Cons? { StopsBefore(NOT, i.init.value, more); }
      Complete(NOT, i.init.value, more);
    }
    ItemStep(EmitItems(items, rest), before, Decl(i.ids, i.typ), tail, EraseItem(i).init, more);
    var here := [EraseItem(i)];
    assert before + (here + EraseItems(t)) == before + here + EraseItems(t);
    assert before + here + [] == before + here;
    if t.Cons? {
      assert more[1..] == EmitItems(t, rest);
      ItemsComplete(t, rest, before + here);
    }
  }

  // ----- two operators in a row

  function Names(x: string, p: Op, y: string, q: Op, z: string, rest: seq<Token>): seq<Token> {
    [ID(x)] + ([OP(p)] + ([ID(y)] + ([OP(q)] + ([ID(z)] + rest))))
  }

  lemma NameFacts(x: string, rest: seq<Token>)
    ensures Emit(Atom(ID(x)), rest) == [ID(x)] + rest && Erase(Atom(ID(x))) == Id(x)
    ensures Own(Atom(ID(x))) == PRIMARY && Derives(PRIMARY, Atom(ID(x)))
    ensures forall l: nat :: l <= PRIMARY ==> Derives(l, Atom(ID(x)))
  {
  }

  lemma BinFacts(c: Cst, p: Op, d: Cst, rest: seq<Token>)
    requires 0 < Rank(p) && Derives(Rank(p), c) && Derives(Rank(p) + 1, d)
    ensures var b := BinC(c, p, d);
      && (forall l: nat :: l <= Rank(p) ==> Derives(l, b)) && !OpenDim(b)
      && Emit(b, rest) == Emit(c, [OP(p)] + Emit(d, rest)) && Erase(b) == Binary(p, Erase(c), Erase(d))
  {
    hide Rank;
  }

  /** The tighter of two operators takes the operand between them, the first of two equal ones. */
  lemma WhoTakes(x: string, p: Op, y: string, q: Op, z: string, rest: seq<Token>)
    requires 0 < Rank(p) && 0 < Rank(q) && !Extends(NOT, Peek(rest))
    ensures NotExpr(Names(x, p, y, q, z, rest)) == Res(Some(
      if Rank(p) < Rank(q) then Binary(p, Id(x), Binary(q, Id(y), Id(z))) else Binary(q, Binary(p, Id(x), Id(y)), Id(z))), rest)
  {
    hide NotExpr, Extends, Rank, Emit, Erase, Derives, OpenDim;
    var a, b, c := Atom(ID(x)), Atom(ID(y)), Atom(ID(z));
    var r := [OP(q)] + ([ID(z)] + rest);
    NameFacts(x, [OP(p)] + ([ID(y)] + r));
    NameFacts(y, r);
    NameFacts(z, rest);
    if Rank(p) < Rank(q) {
      BinFacts(b, q, c, rest);
      BinFacts(a, p, BinC(b, q, c), rest);
      CompleteBefore(NOT, BinC(a, p, BinC(b, q, c)), rest);
    } else {
      BinFacts(a, p, b, r);
      BinFacts(BinC(a, p, b), q, c, rest);
      CompleteBefore(NOT, BinC(BinC(a, p, b), q, c), rest);
    }
  }

  /** A product is an operand of a sum, and a sum or difference is the left operand of the next. */
  lemma SumOfProducts(x: string, p: Op, y: string, q: Op, z: string, rest: seq<Token>)
    requires (p == Plus || p == Minus) && !Extends(NOT, Peek(rest))
    ensures q == Mul || q == Div || q == Mod ==>
      && NotExpr(Names(x, p, y, q, z, rest)) == Res(Some(Binary(p, Id(x), Binary(q, Id(y), Id(z)))), rest)
      && NotExpr(Names(x, q, y, p, z, rest)) == Res(Some(Binary(p, Binary(q, Id(x), Id(y)), Id(z))), rest)
    ensures q == Plus || q == Minus ==>
      NotExpr(Names(x, p, y, q, z, rest)) == Res(Some(Binary(q, Binary(p, Id(x), Id(y)), Id(z))), rest)
  {
    hide NotExpr, Extends, Names;
    if Rank(q) > 0 {
      WhoTakes(x, p, y, q, z, rest);
      WhoTakes(x, q, y, p, z, rest);
    }
  }
}
