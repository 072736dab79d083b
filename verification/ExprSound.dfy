/** Whatever the parser accepts as a tree without holes is derived by the grammar. */
module ExprSound {
  import opened Options
  import opened Tokens
  import opened Ast
  import opened Productions
  import opened ParserSpec
  import opened Grammar
  import opened ExprComplete

  /** No null child anywhere. */
  predicate Whole(e: Expr) {
    match e
    case Missing => false
    case Array(vals) => forall v :: v in vals ==> Whole(v)
    case Hash(pairs) => forall p :: p in pairs ==> Whole(p.key) && Whole(p.val)
    case Unary(_, x, _) => Whole(x)
    case Binary(_, x, y) => Whole(x) && Whole(y)
    case Call(f, args) =>
      && Whole(f) && args.Args? && (forall v :: v in args.vals ==> Whole(v))
      && forall n :: n in args.named ==> Whole(n.val)
    case Dim(items) => forall i :: i in items ==> i.init.Some? ==> Whole(i.init.value)
    case _ => true
  }

  /** `c` derives `ts` up to `rest` at level `l` and means `e`. */
  ghost predicate Witness(l: nat, c: Cst, ts: seq<Token>, e: Expr, rest: seq<Token>) {
    Derives(l, c) && Emit(c, rest) == ts && Erase(c) == e && Stops(l, c, rest)
  }

  lemma {:induction false} SoundNot(ts: seq<Token>, e: Expr, rest: seq<Token>) returns (c: Cst)
    requires NotExpr(ts) == Res(Some(e), rest) && Whole(e)
    ensures Witness(NOT, c, ts, e, rest)
    decreases |ts|, 20
  {
    hide AssignExpr;
    if Peek(ts) == OP(LNot) {
      var i := SoundNot(ts[1..], e.expr, rest);
      c := NotC(i);
    } else {
      c := SoundAssign(ts, e, rest);
    }
  }

  lemma {:induction false} SoundAssign(ts: seq<Token>, e: Expr, rest: seq<Token>) returns (c: Cst)
    requires AssignExpr(ts) == Res(Some(e), rest) && Whole(e)
    ensures Witness(ASSIGNMENT, c, ts, e, rest)
    ensures Witness(NOT, c, ts, e, rest)
    decreases |ts|, 19, 1
  {
    hide NotExpr, ForkExpr, Items, Witness;
    if Peek(ts) == DIM {
      c := SoundDim(ts, e, rest);
    } else {
      var l := ForkExpr(ts);
      if AssignToken(Peek(l.rest)) {
        var x := SoundFork(ts, l.node.value, l.rest);
        var y := SoundNot(l.rest[1..], e.right, rest);
        c := AssignC(x, e.op, y);
        assert l.rest == [OP(e.op)] + l.rest[1..];
        AssignWitness(ts, l.node.value, e.op, l.rest[1..], e.right, rest, x, y);
      } else {
        c := SoundFork(ts, e, rest);
        ForkWitness(ts, e, rest, c);
      }
    }
  }

  lemma AssignWitness(ts: seq<Token>, e: Expr, op: Op, mid: seq<Token>, f: Expr, rest: seq<Token>, x: Cst, y: Cst)
    requires Witness(FORK, x, ts, e, [OP(op)] + mid) && Witness(NOT, y, mid, f, rest) && AssignToken(OP(op))
    ensures Witness(ASSIGNMENT, AssignC(x, op, y), ts, Binary(op, e, f), rest)
    ensures Witness(NOT, AssignC(x, op, y), ts, Binary(op, e, f), rest)
  {
  }

  lemma ForkBuilt(i: Cst, ts: seq<Token>, e: Expr, rest: seq<Token>)
    requires Witness(LOGICAL_OR, i, ts, e, [OP(Fork)] + rest)
    ensures Witness(FORK, ForkC(i), ts, Call(Id("fork"), Args([e], [])), rest)
  {
  }

  lemma ForkWitness(ts: seq<Token>, e: Expr, rest: seq<Token>, c: Cst)
    requires Witness(FORK, c, ts, e, rest) && !AssignToken(Peek(rest))
    ensures Witness(ASSIGNMENT, c, ts, e, rest) && Witness(NOT, c, ts, e, rest)
  {
    TakesBelowFork(c, Peek(rest));
  }

  /** Below the level of `fork` only assignment is left to take a token. */
  lemma {:induction false} TakesBelowFork(c: Cst, t: Token)
    requires Derives(FORK, c) && !AssignToken(t)
    ensures Takes(NOT, c, t) ==> Takes(FORK, c, t)
    ensures Takes(ASSIGNMENT, c, t) ==> Takes(FORK, c, t)
  {
  }

  lemma {:induction false} SoundDim(ts: seq<Token>, e: Expr, rest: seq<Token>) returns (c: Cst)
    requires AssignExpr(ts) == Res(Some(e), rest) && Whole(e) && Peek(ts) == DIM
    ensures Witness(ASSIGNMENT, c, ts, e, rest)
    ensures Witness(NOT, c, ts, e, rest)
    decreases |ts|, 19, 0
  {
    hide NotExpr, AssignExpr, ForkExpr, Items, Witness;
    DimRead(ts, e, rest);
    var items := SoundItems(ts[1..], [], e.items, rest);
    assert [] + EraseItems(items) == EraseItems(items);
    c := DimC(items);
    DimBuilt(ts, items, rest);
  }

  lemma DimRead(ts: seq<Token>, e: Expr, rest: seq<Token>)
    requires AssignExpr(ts) == Res(Some(e), rest) && Peek(ts) == DIM
    ensures ts != [] && e.Dim? && Items(ts[1..], []) == Res(Some(e.items), rest)
  {
    hide Items;
  }

  lemma DimBuilt(ts: seq<Token>, items: List<CItem>, rest: seq<Token>)
    requires ts != [] && ts[0] == DIM && items.Cons? && DerivesItems(items) && EmitItems(items, rest) == ts[1..]
    requires Peek(rest) != COMMA && !LastTakes(items, Peek(rest))
    ensures Witness(ASSIGNMENT, DimC(items), ts, Dim(EraseItems(items)), rest)
    ensures Witness(NOT, DimC(items), ts, Dim(EraseItems(items)), rest)
  {
    hide DerivesItems, EmitItems, EraseItems, LastTakes;
  }

  lemma {:induction false} SoundFork(ts: seq<Token>, e: Expr, rest: seq<Token>) returns (c: Cst)
    requires ForkExpr(ts) == Res(Some(e), rest) && Whole(e)
    ensures Witness(FORK, c, ts, e, rest)
    decreases |ts|, 18
  {
    hide BinaryExpr;
    var r := BinaryExpr(LOGICAL_OR, ts);
    if Peek(r.rest) == OP(Fork) {
      assert r.node.value in e.args.vals;
      var i := SoundBinary(LOGICAL_OR, ts, r.node.value, r.rest);
      c := ForkC(i);
      assert r.rest == [OP(Fork)] + rest;
      ForkBuilt(i, ts, r.node.value, rest);
    } else {
      c := SoundBinary(LOGICAL_OR, ts, e, rest);
    }
  }

  lemma {:induction false} SoundBinary(l: nat, ts: seq<Token>, e: Expr, rest: seq<Token>) returns (c: Cst)
    requires LOGICAL_OR <= l <= UNARY && BinaryExpr(l, ts) == Res(Some(e), rest) && Whole(e)
    ensures Witness(l, c, ts, e, rest)
    decreases |ts|, 20 - l
  {
    hide UnaryExpr;
    if l == UNARY {
      c := SoundUnary(ts, e, rest);
    } else {
      var r := BinaryExpr(l + 1, ts);
      LoopKeeps(l, r.node.value, r.rest, e, rest);
      var x := SoundBinary(l + 1, ts, r.node.value, r.rest);
      c := SoundLoop(l, x, r.rest, e, rest);
    }
  }

  /** The tree a chain starts from is part of the tree it ends with. */
  lemma {:induction false} LoopKeeps(l: nat, node: Expr, ts: seq<Token>, e: Expr, rest: seq<Token>)
    requires LOGICAL_OR <= l < UNARY && BinaryLoop(l, node, ts) == Res(Some(e), rest) && Whole(e)
    ensures Whole(node)
    decreases |ts|
  {
    hide BinaryExpr;
    if AtLevel(Peek(ts), l) {
      var r := BinaryExpr(l + 1, ts[1..]);
      LoopKeeps(l, Binary(ts[0].op, node, r.node.value), r.rest, e, rest);
    }
  }

  lemma {:induction false} SoundLoop(l: nat, x: Cst, ts: seq<Token>, e: Expr, rest: seq<Token>) returns (c: Cst)
    requires LOGICAL_OR <= l < UNARY && BinaryLoop(l, Erase(x), ts) == Res(Some(e), rest) && Whole(e)
    requires Derives(l, x) && (Stops(l, x, ts) || AtLevel(Peek(ts), l))
    ensures Witness(l, c, Emit(x, ts), e, rest)
    decreases |ts|, 1
  {
    hide BinaryExpr, Derives, Emit, Erase, Takes;
    if AtLevel(Peek(ts), l) {
      var r := BinaryExpr(l + 1, ts[1..]);
      var node := Binary(ts[0].op, Erase(x), r.node.value);
      LoopKeeps(l, node, r.rest, e, rest);
      var y := SoundBinary(l + 1, ts[1..], r.node.value, r.rest);
      var z := BinC(x, ts[0].op, y);
      assert ts == [ts[0]] + ts[1..];
      ChainGrows(l, x, ts[0].op, y, ts[1..], r.node.value, r.rest);
      c := SoundLoop(l, z, r.rest, e, rest);
    } else {
      c := x;
    }
  }

  lemma ChainGrows(l: nat, x: Cst, op: Op, y: Cst, mid: seq<Token>, f: Expr, rest: seq<Token>)
    requires LOGICAL_OR <= l < UNARY && AtLevel(OP(op), l) && Derives(l, x)
    requires Witness(l + 1, y, mid, f, rest)
    ensures var z := BinC(x, op, y);
      && Derives(l, z) && Erase(z) == Binary(op, Erase(x), f) && Emit(z, rest) == Emit(x, [OP(op)] + mid)
      && (Stops(l, z, rest) || AtLevel(Peek(rest), l))
  {
  }

  lemma {:induction false} SoundUnary(ts: seq<Token>, e: Expr, rest: seq<Token>) returns (c: Cst)
    requires UnaryExpr(ts) == Res(Some(e), rest) && Whole(e)
    ensures Witness(UNARY, c, ts, e, rest)
    decreases |ts|, 6
  {
    hide PostfixExpr;
    if PrefixToken(Peek(ts)) {
      var i := SoundUnary(ts[1..], e.expr, rest);
      c := PreC(ts[0].op, i);
    } else {
      c := SoundPostfix(ts, e, rest);
    }
  }

  lemma {:induction false} SoundPostfix(ts: seq<Token>, e: Expr, rest: seq<Token>) returns (c: Cst)
    requires PostfixExpr(ts) == Res(Some(e), rest) && Whole(e)
    ensures Witness(POSTFIX, c, ts, e, rest)
    decreases |ts|, 5
  {
    hide PowExpr;
    var r := PowExpr(ts);
    if PostfixToken(Peek(r.rest)) {
      var i := SoundPow(ts, e.expr, r.rest);
      c := PostC(i, e.op);
      assert r.rest == [OP(e.op)] + rest;
    } else {
      c := SoundPow(ts, e, rest);
    }
  }

  lemma {:induction false} SoundPow(ts: seq<Token>, e: Expr, rest: seq<Token>) returns (c: Cst)
    requires PowExpr(ts) == Res(Some(e), rest) && Whole(e)
    ensures Witness(POWER, c, ts, e, rest)
    decreases |ts|, 4
  {
    hide CallExpr, Witness;
    var l := CallExpr(ts);
    if Peek(l.rest) == OP(Pow) {
      var x := SoundCall(ts, e.left, l.rest);
      var y := SoundCall(l.rest[1..], e.right, rest);
      c := PowC(x, y);
      assert l.rest == [OP(Pow)] + l.rest[1..];
      PowWitness(ts, e.left, l.rest[1..], e.right, rest, x, y);
    } else {
      c := SoundCall(ts, e, rest);
      CallWitness(ts, e, rest, c);
    }
  }

  lemma PowWitness(ts: seq<Token>, e: Expr, mid: seq<Token>, f: Expr, rest: seq<Token>, x: Cst, y: Cst)
    requires Witness(CALL, x, ts, e, [OP(Pow)] + mid) && Witness(CALL, y, mid, f, rest)
    ensures Witness(POWER, PowC(x, y), ts, Binary(Pow, e, f), rest)
  {
  }

  lemma CallWitness(ts: seq<Token>, e: Expr, rest: seq<Token>, c: Cst)
    requires Witness(CALL, c, ts, e, rest) && Peek(rest) != OP(Pow)
    ensures Witness(POWER, c, ts, e, rest)
  {
  }

  lemma {:induction false} SoundCall(ts: seq<Token>, e: Expr, rest: seq<Token>) returns (c: Cst)
    requires CallExpr(ts) == Res(Some(e), rest) && Whole(e)
    ensures Witness(CALL, c, ts, e, rest)
    decreases |ts|, 3
  {
    hide PrimaryExpr;
    var r := PrimaryExpr(ts);
    CallKeeps(r.node.value, r.rest, e, rest);
    var x := SoundPrimary(ts, r.node.value, r.rest);
    c := SoundCallRest(x, r.rest, e, rest);
  }

  lemma {:induction false} CallKeeps(left: Expr, ts: seq<Token>, e: Expr, rest: seq<Token>)
    requires CallRest(left, ts) == Res(Some(e), rest) && Whole(e)
    ensures Whole(left)
    decreases |ts|
  {
    hide CallArgs;
    if Peek(ts) == LPAREN {
      var a := if Peek(ts[1..]) == RPAREN then Res(Some(Args([], [])), ts[1..]) else CallArgs(ts[1..], [], []);
      CallKeeps(Call(left, if a.node.Some? then a.node.value else NoArgs), a.rest[1..], e, rest);
    }
  }

  lemma {:induction false} SoundCallRest(x: Cst, ts: seq<Token>, e: Expr, rest: seq<Token>) returns (c: Cst)
    requires CallRest(Erase(x), ts) == Res(Some(e), rest) && Whole(e)
    requires Derives(CALL, x) && (Stops(CALL, x, ts) || Peek(ts) == LPAREN)
    ensures Witness(CALL, c, Emit(x, ts), e, rest)
    decreases |ts|, 1, 1
  {
    hide CallArgs, Emit, Erase, EmitArgs, EraseArgs, DerivesArgs;
    if Peek(ts) == LPAREN {
      var z, more := SoundOneCall(x, ts, e, rest);
      c := SoundCallRest(z, more, e, rest);
    } else {
      c := x;
    }
  }

  lemma {:induction false} SoundOneCall(x: Cst, ts: seq<Token>, e: Expr, rest: seq<Token>) returns (z: Cst, more: seq<Token>)
    requires CallRest(Erase(x), ts) == Res(Some(e), rest) && Whole(e)
    requires Derives(CALL, x) && Peek(ts) == LPAREN
    ensures |more| < |ts| && Derives(CALL, z) && (Stops(CALL, z, more) || Peek(more) == LPAREN)
    ensures Emit(z, more) == Emit(x, ts) && CallRest(Erase(z), more) == Res(Some(e), rest)
    decreases |ts|, 1, 0
  {
    hide CallArgs, EmitArgs, EraseArgs, DerivesArgs, Emit, Erase, Derives, Takes;
    var a := if Peek(ts[1..]) == RPAREN then Res(Some(Args([], [])), ts[1..]) else CallArgs(ts[1..], [], []);
    var args := if a.node.Some? then a.node.value else NoArgs;
    more := a.rest[1..];
    CallKeeps(Call(Erase(x), args), more, e, rest);
    var list: List<CArg> := Nil;
    if Peek(ts[1..]) == RPAREN {
      NoArguments(a.rest);
    } else {
      list := SoundArgs(ts[1..], [], [], args, a.rest);
    }
    z := CallC(x, list);
    assert a.rest == [RPAREN] + more;
    assert ts == [LPAREN] + ts[1..];
    CallBuilt(x, list, more);
  }

  lemma CallBuilt(x: Cst, list: List<CArg>, more: seq<Token>)
    requires Derives(CALL, x) && DerivesArgs(list)
    ensures var z := CallC(x, list);
      && Derives(CALL, z) && Erase(z) == Call(Erase(x), EraseArgs(list, [], []))
      && Emit(z, more) == Emit(x, [LPAREN] + EmitArgs(list, [RPAREN] + more))
      && (Stops(CALL, z, more) || Peek(more) == LPAREN)
  {
    hide EmitArgs, EraseArgs, DerivesArgs;
  }

  lemma NoArguments(ts: seq<Token>)
    ensures DerivesArgs(Nil) && EmitArgs(Nil, ts) == ts && EraseArgs(Nil, [], []) == Args([], [])
  {
  }

  /** Arguments already read stay in the lists. */
  lemma {:induction false} ArgsKeep(ts: seq<Token>, vals: seq<Expr>, named: seq<Named>)
    ensures var r := CallArgs(ts, vals, named);
      r.node.Some? ==> r.node.value.Args? && vals <= r.node.value.vals && named <= r.node.value.named
    decreases |ts|
  {
    hide NotExpr;
    var e := NotExpr(ts);
    if e.node.Some? {
      if Peek(e.rest) == AS {
        if e.node.value.Str? || e.node.value.Id? {
          var v := NotExpr(e.rest[1..]);
          var named' := named + [Named(KeyName(e.node.value), OrMissing(v.node))];
          if Peek(v.rest) == COMMA { ArgsKeep(v.rest[1..], vals, named'); }
        }
      } else if Peek(e.rest) == COMMA {
        ArgsKeep(e.rest[1..], vals + [e.node.value], named);
      }
    }
  }

  predicate WholeArgs(args: Args) {
    args.Args? && (forall v :: v in args.vals ==> Whole(v)) && forall n :: n in args.named ==> Whole(n.val)
  }

  lemma {:induction false} SoundArgs(ts: seq<Token>, vals: seq<Expr>, named: seq<Named>, args: Args, rest: seq<Token>)
    returns (list: List<CArg>)
    requires CallArgs(ts, vals, named) == Res(Some(args), rest) && WholeArgs(args)
    ensures list.Cons? && DerivesArgs(list) && EmitArgs(list, rest) == ts && EraseArgs(list, vals, named) == args
    decreases |ts|, 21, 1
  {
    hide NotExpr, CallArgs, WholeArgs, EmitArgs, EraseArgs, DerivesArgs;
    if Peek(NotExpr(ts).rest) == AS {
      list := SoundKeyword(ts, vals, named, args, rest);
    } else {
      list := SoundPositional(ts, vals, named, args, rest);
    }
  }

  lemma {:induction false} SoundPositional(ts: seq<Token>, vals: seq<Expr>, named: seq<Named>, args: Args, rest: seq<Token>)
    returns (list: List<CArg>)
    requires CallArgs(ts, vals, named) == Res(Some(args), rest) && WholeArgs(args) && Peek(NotExpr(ts).rest) != AS
    ensures list.Cons? && DerivesArgs(list) && EmitArgs(list, rest) == ts && EraseArgs(list, vals, named) == args
    decreases |ts|, 21, 0
  {
    hide NotExpr, Whole, Emit, Derives, Erase, Takes;
    ArgsKeep(ts, vals, named);
    var e := NotExpr(ts);
    var vals' := vals + [e.node.value];
    if Peek(e.rest) == COMMA { ArgsKeep(e.rest[1..], vals', named); }
    assert vals'[|vals|] in args.vals;
    var c := SoundNot(ts, e.node.value, e.rest);
    OpenTakesComma(NOT, c);
    if Peek(e.rest) == COMMA {
      var t := SoundArgs(e.rest[1..], vals', named, args, rest);
      list := Cons(Positional(c), t);
      assert e.rest == [COMMA] + e.rest[1..];
    } else {
      list := Cons(Positional(c), Nil);
    }
  }

  lemma {:induction false} SoundKeyword(ts: seq<Token>, vals: seq<Expr>, named: seq<Named>, args: Args, rest: seq<Token>)
    returns (list: List<CArg>)
    requires CallArgs(ts, vals, named) == Res(Some(args), rest) && WholeArgs(args) && Peek(NotExpr(ts).rest) == AS
    ensures list.Cons? && DerivesArgs(list) && EmitArgs(list, rest) == ts && EraseArgs(list, vals, named) == args
    decreases |ts|, 21, 0
  {
    hide NotExpr, Emit, Derives, Erase, Takes, EraseArgs, DerivesArgs, EmitArgs;
    ArgsKeep(ts, vals, named);
    var e := NotExpr(ts);
    var v := NotExpr(e.rest[1..]);
    var named' := named + [Named(KeyName(e.node.value), OrMissing(v.node))];
    if Peek(v.rest) == COMMA { ArgsKeep(v.rest[1..], vals, named'); }
    assert named'[|named|] in args.named;
    var x := SoundNot(ts, e.node.value, e.rest);
    var y := SoundNot(e.rest[1..], v.node.value, v.rest);
    OpenTakesComma(NOT, y);
    assert e.rest == [AS] + e.rest[1..];
    var t: List<CArg> := Nil;
    NoArguments(rest);
    if Peek(v.rest) == COMMA {
      t := SoundArgs(v.rest[1..], vals, named', args, rest);
      assert v.rest == [COMMA] + v.rest[1..];
    }
    list := Cons(Keyword(x, y), t);
    KeywordBuilt(x, y, t, vals, named, rest);
  }

  lemma KeywordBuilt(x: Cst, y: Cst, t: List<CArg>, vals: seq<Expr>, named: seq<Named>, rest: seq<Token>)
    requires Derives(NOT, x) && Derives(NOT, y) && (Erase(x).Str? || Erase(x).Id?)
    requires DerivesArgs(t) && (t.Cons? ==> !OpenDim(y))
    ensures var list := Cons(Keyword(x, y), t); var named' := named + [Named(KeyName(Erase(x)), Erase(y))];
      && DerivesArgs(list)
      && EmitArgs(list, rest) == Emit(x, [AS] + Emit(y, if t.Cons? then [COMMA] + EmitArgs(t, rest) else rest))
      && EraseArgs(list, vals, named) == EraseArgs(t, vals, named')
    ensures var named' := named + [Named(KeyName(Erase(x)), Erase(y))];
      t.Nil? ==> EraseArgs(t, vals, named') == Args(vals, named')
  {
    hide Emit, Derives, Erase, OpenDim;
  }

  lemma {:induction false} SoundPrimary(ts: seq<Token>, e: Expr, rest: seq<Token>) returns (c: Cst)
    requires PrimaryExpr(ts) == Res(Some(e), rest) && Whole(e)
    ensures Witness(PRIMARY, c, ts, e, rest)
    decreases |ts|, 2
  {
    hide NotExpr, ArgList, HashPairs, DerivesItems, DerivesArgs, EmitArgs, EmitItems, EraseArgs, EraseItems;
    if ts[0] == LBRACK {
      c := SoundArray(ts, e, rest);
    } else if ts[0] == LBRACE {
      c := SoundHash(ts, e, rest);
    } else if ts[0] == LPAREN {
      var r := NotExpr(ts[1..]);
      var i := SoundNot(ts[1..], e, r.rest);
      assert r.rest == [RPAREN] + rest && ts == [LPAREN] + ts[1..];
      c := ParenWitness(ts, e, r.rest, rest, i);
    } else {
      c := AtomWitness(ts, e, rest);
    }
  }

  lemma ParenWitness(ts: seq<Token>, e: Expr, end: seq<Token>, rest: seq<Token>, i: Cst) returns (c: Cst)
    requires ts != [] && ts == [LPAREN] + ts[1..] && end == [RPAREN] + rest && Witness(NOT, i, ts[1..], e, end)
    ensures Witness(PRIMARY, c, ts, e, rest)
  {
    hide DerivesItems, DerivesArgs, EmitArgs, EmitItems, EraseArgs, EraseItems;
    c := Paren(i);
  }

  lemma AtomWitness(ts: seq<Token>, e: Expr, rest: seq<Token>) returns (c: Cst)
    requires PrimaryExpr(ts) == Res(Some(e), rest) && ts[0] != LBRACK && ts[0] != LBRACE && ts[0] != LPAREN
    ensures Witness(PRIMARY, c, ts, e, rest)
  {
    c := Atom(ts[0]);
    assert ts == [ts[0]] + ts[1..];
  }

  lemma {:induction false} SoundArray(ts: seq<Token>, e: Expr, rest: seq<Token>) returns (c: Cst)
    requires Peek(ts) == LBRACK && PrimaryExpr(ts) == Res(Some(e), rest) && Whole(e)
    ensures Witness(PRIMARY, c, ts, e, rest)
    decreases |ts|, 1
  {
    hide NotExpr, ArgList, HashPairs, DerivesElems, EmitElems, EraseElems;
    var r := ArgList(ts[1..], RBRACK, []);
    var es, trailing := SoundElems(ts[1..], [], e.vals, r.rest);
    assert [] + EraseElems(es) == EraseElems(es);
    assert r.rest == [RBRACK] + rest && ts == [LBRACK] + ts[1..];
    c := ArrayC(es, trailing);
  }

  lemma {:induction false} SoundHash(ts: seq<Token>, e: Expr, rest: seq<Token>) returns (c: Cst)
    requires Peek(ts) == LBRACE && PrimaryExpr(ts) == Res(Some(e), rest) && Whole(e)
    ensures Witness(PRIMARY, c, ts, e, rest)
    decreases |ts|, 1
  {
    hide NotExpr, ArgList, HashPairs, DerivesPairs, EmitPairs, ErasePairs;
    var r := HashPairs(ts[1..], RBRACE, []);
    var ps, trailing := SoundPairs(ts[1..], [], e.pairs, r.rest);
    assert [] + ErasePairs(ps) == ErasePairs(ps);
    assert r.rest == [RBRACE] + rest && ts == [LBRACE] + ts[1..];
    c := HashC(ps, trailing);
  }

  lemma {:induction false} ListKeeps(ts: seq<Token>, vals: seq<Expr>)
    ensures var r := ArgList(ts, RBRACK, vals); r.node.Some? ==> vals <= r.node.value
    decreases |ts|
  {
    hide NotExpr;
    if Peek(ts) != RBRACK {
      var e := NotExpr(ts);
      if e.node.Some? && Peek(e.rest) == COMMA { ListKeeps(e.rest[1..], vals + [e.node.value]); }
    }
  }

  lemma {:induction false} SoundElems(ts: seq<Token>, vals: seq<Expr>, all: seq<Expr>, rest: seq<Token>)
    returns (es: List<Cst>, trailing: bool)
    requires ArgList(ts, RBRACK, vals) == Res(Some(all), rest) && Peek(rest) == RBRACK
    requires forall v :: v in all ==> Whole(v)
    ensures DerivesElems(es, trailing) && EmitElems(es, trailing, rest) == ts && vals + EraseElems(es) == all
    ensures es.Nil? ==> Peek(ts) == RBRACK
    decreases |ts|, 21
  {
    hide NotExpr, Whole, Emit, Derives, Erase, Takes;
    if Peek(ts) == RBRACK {
      return Nil, false;
    }
    var e := NotExpr(ts);
    var vals' := vals + [e.node.value];
    ListKeeps(ts, vals);
    if Peek(e.rest) == COMMA { ListKeeps(e.rest[1..], vals'); }
    assert vals'[|vals|] in all;
    var c := SoundNot(ts, e.node.value, e.rest);
    OpenTakesComma(NOT, c);
    if Peek(e.rest) == COMMA {
      assert e.rest == [COMMA] + e.rest[1..];
      var t;
      t, trailing := SoundElems(e.rest[1..], vals', all, rest);
      es := Cons(c, t);
      trailing := trailing || t.Nil?;
      assert vals + ([Erase(c)] + EraseElems(t)) == vals' + EraseElems(t);
    } else {
      es, trailing := Cons(c, Nil), false;
      assert vals + ([Erase(c)] + []) == vals';
    }
  }

  lemma {:induction false} PairsKeep(ts: seq<Token>, pairs: seq<Pair>)
    ensures var r := HashPairs(ts, RBRACE, pairs); r.node.Some? ==> pairs <= r.node.value
    decreases |ts|
  {
    hide NotExpr;
    if Peek(ts) != RBRACE {
      var k := NotExpr(ts);
      if k.node.Some? && Peek(k.rest) == AS {
        var v := NotExpr(k.rest[1..]);
        if v.node.Some? && Peek(v.rest) == COMMA {
          PairsKeep(v.rest[1..], pairs + [Pair(k.node.value, v.node.value)]);
        }
      }
    }
  }

  lemma {:induction false} SoundPairs(ts: seq<Token>, pairs: seq<Pair>, all: seq<Pair>, rest: seq<Token>)
    returns (ps: List<CPair>, trailing: bool)
    requires HashPairs(ts, RBRACE, pairs) == Res(Some(all), rest) && Peek(rest) == RBRACE
    requires forall p :: p in all ==> Whole(p.key) && Whole(p.val)
    ensures DerivesPairs(ps, trailing) && EmitPairs(ps, trailing, rest) == ts && pairs + ErasePairs(ps) == all
    ensures ps.Nil? ==> Peek(ts) == RBRACE
    decreases |ts|, 21
  {
    hide NotExpr, Whole, Emit, Derives, Erase, Takes;
    if Peek(ts) == RBRACE {
      return Nil, false;
    }
    var k := NotExpr(ts);
    var v := NotExpr(k.rest[1..]);
    var here := Pair(k.node.value, v.node.value);
    var pairs' := pairs + [here];
    PairsKeep(ts, pairs);
    if Peek(v.rest) == COMMA { PairsKeep(v.rest[1..], pairs'); }
    assert pairs'[|pairs|] in all;
    var x := SoundNot(ts, k.node.value, k.rest);
    var y := SoundNot(k.rest[1..], v.node.value, v.rest);
    OpenTakesComma(NOT, y);
    assert k.rest == [AS] + k.rest[1..];
    if Peek(v.rest) == COMMA {
      assert v.rest == [COMMA] + v.rest[1..];
      var t;
      t, trailing := SoundPairs(v.rest[1..], pairs', all, rest);
      ps := Cons(CPair(x, y), t);
      trailing := trailing || t.Nil?;
      assert pairs + ([here] + ErasePairs(t)) == pairs' + ErasePairs(t);
    } else {
      ps, trailing := Cons(CPair(x, y), Nil), false;
      assert pairs + ([here] + []) == pairs';
    }
  }

  // ----- declarations

  lemma {:induction false} SoundIds(ts: seq<Token>, before: seq<string>, all: seq<string>, rest: seq<Token>)
    returns (ids: seq<string>, trailing: bool)
    requires DeclIds(ts, before) == (all, rest) && Peek(ts).ID?
    ensures ids != [] && before + ids == all && EmitIds(ids, trailing, rest) == ts
    decreases |ts|
  {
    var name := ts[0].name;
    assert ts == [ID(name)] + ts[1..];
    if Peek(ts[1..]) == COMMA {
      assert ts == [ID(name), COMMA] + ts[2..];
      if Peek(ts[2..]).ID? {
        var more;
        more, trailing := SoundIds(ts[2..], before + [name], all, rest);
        ids := [name] + more;
        assert ids[1..] == more && before + [name] + more == before + ids;
      } else {
        ids, trailing := [name], true;
      }
    } else {
      ids, trailing := [name], false;
    }
  }

  lemma SoundDecl(ts: seq<Token>, d: Decl, rest: seq<Token>) returns (ids: seq<string>, trailing: bool)
    requires DeclExpr(ts) == Res(Some(d), rest)
    ensures ids != [] && d.ids == ids && EmitIds(ids, trailing, [AS, ID(d.typ)] + rest) == ts
  {
    var tail := DeclIds(ts, []).1;
    ids, trailing := SoundIds(ts, [], d.ids, tail);
    assert tail == [AS, ID(d.typ)] + rest;
    assert [] + ids == ids;
  }

  lemma {:induction false} ItemsKeep(ts: seq<Token>, before: seq<Item>)
    ensures var r := Items(ts, before); r.node.Some? ==> before <= r.node.value
    decreases |ts|, 21
  {
    hide NotExpr, DeclExpr;
    var d := DeclExpr(ts);
    if d.node.Some? {
      if Peek(d.rest) == OP(Assign) {
        var v := NotExpr(d.rest[1..]);
        if v.node.Some? { ItemsRestKeep(v.rest, before + [Item(d.node.value, v.node)]); }
      } else {
        ItemsRestKeep(d.rest, before + [Item(d.node.value, None)]);
      }
    }
  }

  lemma {:induction false} ItemsRestKeep(ts: seq<Token>, before: seq<Item>)
    ensures var r := ItemsRest(ts, before); r.node.Some? ==> before <= r.node.value
    decreases |ts|, 22
  {
    hide Items;
    if Peek(ts) == COMMA { ItemsKeep(ts[1..], before); }
  }

  lemma {:induction false} SoundItems(ts: seq<Token>, before: seq<Item>, all: seq<Item>, rest: seq<Token>)
    returns (items: List<CItem>)
    requires Items(ts, before) == Res(Some(all), rest)
    requires forall i :: i in all ==> i.init.Some? ==> Whole(i.init.value)
    ensures items.Cons? && DerivesItems(items) && EmitItems(items, rest) == ts && before + EraseItems(items) == all
    ensures Peek(rest) != COMMA && !LastTakes(items, Peek(rest))
    decreases |ts|, 21
  {
    hide NotExpr, DeclExpr, Whole, Emit, Derives, Erase, Takes, EmitIds, OpenDim;
    var d := DeclExpr(ts);
    var ids, trailing := SoundDecl(ts, d.node.value, d.rest);
    var has := Peek(d.rest) == OP(Assign);
    var v := if has then NotExpr(d.rest[1..]) else Res(None, d.rest);
    var here := Item(d.node.value, v.node);
    var all' := before + [here];
    ItemsRestKeep(v.rest, all');
    assert all'[|before|] in all;
    var init: Option<Cst> := None;
    if has {
      var c := SoundNot(d.rest[1..], v.node.value, v.rest);
      init := Some(c);
      OpenTakesComma(NOT, c);
      assert d.rest == [OP(Assign)] + d.rest[1..];
    }
    var item := CItem(ids, trailing, d.node.value.typ, init);
    assert EraseItem(item) == here;
    if Peek(v.rest) == COMMA {
      assert v.rest == [COMMA] + v.rest[1..];
      var t := SoundItems(v.rest[1..], all', all, rest);
      items := Cons(item, t);
      assert before + ([here] + EraseItems(t)) == all' + EraseItems(t);
    } else {
      items := Cons(item, Nil);
      assert before + ([here] + []) == all';
    }
  }

  // ----- what derives has no holes

  lemma {:induction false} DerivedWhole(l: nat, c: Cst)
    requires Derives(l, c)
    ensures Whole(Erase(c))
    decreases c, 1
  {
    hide EraseElems, ErasePairs, EraseArgs, EraseItems, DerivesElems, DerivesPairs, DerivesArgs, DerivesItems, OpenDim;
    match c
    case Atom(_) =>
    case Paren(i) => DerivedWhole(NOT, i);
    case ArrayC(es, trailing) => ElemsWhole(es, trailing);
    case HashC(ps, trailing) => PairsWhole(ps, trailing);
    case CallC(f, args) =>
      DerivedWhole(CALL, f);
      ArgsWhole(args, [], []);
    case PowC(x, y) =>
      DerivedWhole(CALL, x);
      DerivedWhole(CALL, y);
    case PostC(i, _) => DerivedWhole(POWER, i);
    case PreC(_, i) => DerivedWhole(UNARY, i);
    case _ => LooseWhole(l, c);
  }

  lemma {:induction false} LooseWhole(l: nat, c: Cst)
    requires Derives(l, c) && (c.BinC? || c.ForkC? || c.AssignC? || c.DimC? || c.NotC?)
    ensures Whole(Erase(c))
    decreases c, 0
  {
    hide EraseElems, ErasePairs, EraseArgs, EraseItems, DerivesElems, DerivesPairs, DerivesArgs, DerivesItems, OpenDim;
    match c
    case BinC(x, op, y) =>
      DerivedWhole(Rank(op), x);
      DerivedWhole(Rank(op) + 1, y);
    case ForkC(i) => DerivedWhole(LOGICAL_OR, i);
    case AssignC(x, _, y) =>
      DerivedWhole(FORK, x);
      DerivedWhole(NOT, y);
    case DimC(items) => ItemsWhole(items);
    case NotC(i) => DerivedWhole(NOT, i);
  }

  lemma {:induction false} ElemsWhole(es: List<Cst>, trailing: bool)
    requires DerivesElems(es, trailing)
    ensures forall v :: v in EraseElems(es) ==> Whole(v)
    decreases es
  {
    hide Whole, Erase, Derives;
    if es.Cons? {
      DerivedWhole(NOT, es.head);
      if es.tail.Cons? { ElemsWhole(es.tail, trailing); } else { assert EraseElems(es.tail) == []; }
    }
  }

  lemma {:induction false} PairsWhole(ps: List<CPair>, trailing: bool)
    requires DerivesPairs(ps, trailing)
    ensures forall p :: p in ErasePairs(ps) ==> Whole(p.key) && Whole(p.val)
    decreases ps
  {
    hide Whole, Erase, Derives;
    if ps.Cons? {
      DerivedWhole(NOT, ps.head.key);
      DerivedWhole(NOT, ps.head.val);
      if ps.tail.Cons? { PairsWhole(ps.tail, trailing); } else { assert ErasePairs(ps.tail) == []; }
    }
  }

  lemma {:induction false} ArgsWhole(args: List<CArg>, vals: seq<Expr>, named: seq<Named>)
    requires DerivesArgs(args) && WholeArgs(Args(vals, named))
    ensures WholeArgs(EraseArgs(args, vals, named))
    decreases args
  {
    hide Whole, Erase, Derives;
    if args.Cons? {
      var a := args.head;
      DerivedWhole(NOT, a.val);
      if a.Positional? {
        ArgsWhole(args.tail, vals + [Erase(a.val)], named);
      } else {
        ArgsWhole(args.tail, vals, named + [Named(KeyName(Erase(a.key)), Erase(a.val))]);
      }
    }
  }

  lemma {:induction false} ItemsWhole(items: List<CItem>)
    requires DerivesItems(items)
    ensures forall i :: i in EraseItems(items) ==> i.init.Some? ==> Whole(i.init.value)
    decreases items
  {
    hide Whole, Erase, Derives;
    if items.Cons? {
      if items.head.init.Some? { DerivedWhole(NOT, items.head.init.value); }
      ItemsWhole(items.tail);
    }
  }

  /** The tokens of an expression derive the tree that lists all that was read exactly when no child
      is missing in it. */
  lemma ExprIff(ts: seq<Token>, e: Expr, rest: seq<Token>)
    ensures NotExpr(ts, true) == Res(Some(e), rest) && Whole(e) <==> exists c :: Witness(NOT, c, ts, e, rest)
  {
    if NotExpr(ts, true) == Res(Some(e), rest) && Whole(e) {
      var c := SoundNot(ts, e, rest);
    }
    if c :| Witness(NOT, c, ts, e, rest) {
      Complete(NOT, c, rest);
      DerivedWhole(NOT, c);
    }
  }

  /** The grammar is unambiguous: one token sequence is read as one tree, ending in one place. */
  lemma Unambiguous(l: nat, c: Cst, d: Cst, restC: seq<Token>, restD: seq<Token>)
    requires l <= PRIMARY && Derives(l, c) && Derives(l, d) && Emit(c, restC) == Emit(d, restD)
    requires Stops(l, c, restC) && Stops(l, d, restD)
    ensures Erase(c) == Erase(d) && restC == restD
  {
    Complete(l, c, restC);
    Complete(l, d, restD);
  }
}
