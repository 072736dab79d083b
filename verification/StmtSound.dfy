/** Whatever the parser accepts as a program without holes is derived by the statement grammar. */
module StmtSound {
  import opened Options
  import opened Tokens
  import opened Ast
  import opened Productions
  import opened ParserSpec
  import opened Grammar
  import opened ExprComplete
  import opened ExprSound
  import opened StmtGrammar
  import opened StmtComplete
  import StmtRoundTrip
  import Swallowing

  /** `d` derives `ts` up to `rest` and means `s`. */
  ghost predicate Means(d: CStmt, ts: seq<Token>, s: Stmt, rest: seq<Token>) {
    LegalStmt(d, rest) && EmitStmt(d, rest) == ts && EraseStmt(d) == s
  }

  // ----- an expression that begins takes its first token, even when it fails

  lemma CallConsumes(ts: seq<Token>)
    requires Starts(Peek(ts)) && Peek(ts) != DIM && Peek(ts) != OP(LNot) && !IsPrefix(Peek(ts))
    ensures |PowExpr(ts).rest| < |ts|
  {
    hide NotExpr, ArgList, HashPairs, CallRest;
    assert |PrimaryExpr(ts).rest| < |ts|;
  }

  lemma UnaryConsumes(ts: seq<Token>)
    requires Starts(Peek(ts)) && Peek(ts) != DIM && Peek(ts) != OP(LNot)
    ensures |UnaryExpr(ts).rest| < |ts|
  {
    hide PowExpr, Starts;
    if !IsPrefix(Peek(ts)) { CallConsumes(ts); }
  }

  lemma {:induction false} BinaryConsumes(l: nat, ts: seq<Token>)
    requires LOGICAL_OR <= l <= UNARY && Starts(Peek(ts)) && Peek(ts) != DIM && Peek(ts) != OP(LNot)
    ensures |BinaryExpr(l, ts).rest| < |ts|
    decreases UNARY - l
  {
    hide UnaryExpr, BinaryLoop, Starts;
    if l < UNARY { BinaryConsumes(l + 1, ts); } else { UnaryConsumes(ts); }
  }

  lemma ForkConsumes(ts: seq<Token>)
    requires Starts(Peek(ts)) && Peek(ts) != DIM && Peek(ts) != OP(LNot)
    ensures |ForkExpr(ts).rest| < |ts|
  {
    hide BinaryExpr, Starts;
    BinaryConsumes(LOGICAL_OR, ts);
  }

  lemma ExprConsumes(ts: seq<Token>)
    requires Starts(Peek(ts))
    ensures |NotExpr(ts).rest| < |ts|
  {
    hide ForkExpr, DimExpr, Starts;
    if Peek(ts) != DIM && Peek(ts) != OP(LNot) {
      ForkConsumes(ts);
      assert |AssignExpr(ts).rest| < |ts|;
    }
  }

  // ----- parts of statements

  lemma SoundSemi(mid: seq<Token>) returns (semi: bool)
    ensures mid == Semi(semi, After(mid, SEMICOLON)) && Settled(semi, After(mid, SEMICOLON))
  {
    semi := Peek(mid) == SEMICOLON;
  }

  lemma SoundExpr(ts: seq<Token>, e: Expr, rest: seq<Token>) returns (c: Cst)
    requires NotExpr(ts) == Res(Some(e), rest) && Whole(e)
    ensures LegalExpr(c, rest) && Emit(c, rest) == ts && Erase(c) == e
  {
    hide NotExpr, Whole, Derives, Emit, Erase, Stops;
    c := SoundNot(ts, e, rest);
  }

  lemma {:induction false} SoundValues(ts: seq<Token>, before: seq<Expr>, all: seq<Expr>, rest: seq<Token>)
    returns (values: List<Cst>, trailing: bool)
    requires PrintValues(ts, before) == (all, rest) && forall v :: v in all ==> Whole(v)
    ensures LegalValues(values, trailing, rest) && EmitValues(values, trailing, rest) == ts
    ensures before + EraseElems(values) == all
    decreases |ts|
  {
    hide NotExpr, Whole, LegalExpr, Emit, Erase, Starts;
    var e := NotExpr(ts);
    if e.node.None? {
      NoHole(ts, before, all);
      if Starts(Peek(ts)) { ExprConsumes(ts); }
      values, trailing := Nil, false;
      assert before + [] == before;
    } else {
      var all' := before + [e.node.value];
      if Peek(e.rest) == SEMICOLON { Swallowing.ValuesGrow(e.rest[1..], all', true); }
      assert all'[|before|] in all;
      var c := SoundExpr(ts, e.node.value, e.rest);
      if Peek(e.rest) == SEMICOLON {
        var t, last := SoundValues(e.rest[1..], all', all, rest);
        values, trailing := Cons(c, t), last || t.Nil?;
        assert e.rest == [SEMICOLON] + e.rest[1..];
        assert before + ([Erase(c)] + EraseElems(t)) == all' + EraseElems(t);
      } else {
        values, trailing := Cons(c, Nil), false;
        assert before + ([Erase(c)] + []) == all';
      }
    }
  }

  /** A failure half-way would have left a hole. */
  lemma NoHole(ts: seq<Token>, before: seq<Expr>, all: seq<Expr>)
    requires NotExpr(ts).node.None? && PrintValues(ts, before).0 == all && forall v :: v in all ==> Whole(v)
    ensures NotExpr(ts).rest == ts && all == before
  {
    hide NotExpr;
    assert !Whole(Missing) && Missing in before + [Missing];
  }

  lemma SoundParams(ts: seq<Token>, params: seq<Item>, tail: seq<Token>) returns (items: List<CItem>)
    requires Params(ts) == Res(Some(params), tail) && WholeItems(params)
    ensures DerivesItems(items) && EmitItems(items, [RPAREN] + tail) == ts && EraseItems(items) == params
  {
    hide Items, DerivesItems, LastTakes, Whole;
    var rest := FunctionParams(ts).rest;
    assert rest == [RPAREN] + tail;
    if Peek(ts).ID? {
      items := SoundItems(ts, [], params, rest);
      assert [] + EraseItems(items) == EraseItems(items);
    } else {
      items := Nil;
      NoItems();
    }
  }

  lemma NoItems()
    ensures DerivesItems(Nil) && EraseItems(Nil) == []
  {
  }

  lemma SoundSig(ts: seq<Token>, s: Signature, rest: seq<Token>) returns (sig: CSig)
    requires SignatureOf(ts) == Res(Some(s), rest) && WholeItems(s.params)
    ensures LegalSig(sig, rest) && EmitSig(sig, rest) == ts && SigOf(sig) == s
  {
    hide Params, DerivesItems, EmitItems, EraseItems, WholeItems, Items;
    var p := if Peek(ts[1..]) == LPAREN then Params(ts[2..]) else Res(Some([]), ts[1..]);
    assert p.node == Some(s.params);
    var params: Option<List<CItem>> := None;
    if Peek(ts[1..]) == LPAREN {
      var items := SoundParams(ts[2..], s.params, p.rest);
      params := Some(items);
      assert ts[1..] == [LPAREN] + ts[2..];
    }
    assert EmitParams(params, p.rest) == ts[1..] && EraseParams(params) == s.params;
    var end, semi := SoundType(p.rest, s, rest);
    sig := CSig(s.name, params, s.typ, semi);
    assert ts == [ID(s.name)] + ts[1..];
  }

  /** The type and the ';' of a signature. */
  lemma SoundType(ts: seq<Token>, s: Signature, rest: seq<Token>) returns (end: seq<Token>, semi: bool)
    requires if Peek(ts) != AS then s.typ == None && rest == After(ts, SEMICOLON)
      else Peek(ts[1..]).ID? && s.typ == Some(ts[1].name) && rest == After(ts[2..], SEMICOLON)
    ensures end == Semi(semi, rest) && ts == EmitType(s.typ, end) && Settled(semi, rest)
    ensures s.typ.None? ==> Peek(end) != AS
  {
    end := if Peek(ts) != AS then ts else ts[2..];
    semi := SoundSemi(end);
    if Peek(ts) == AS { assert ts == [AS] + ([ts[1]] + ts[2..]); }
  }

  lemma {:induction false} SoundFields(ts: seq<Token>, before: seq<Decl>, all: seq<Decl>, rest: seq<Token>)
    returns (fields: List<CField>)
    requires TypeFields(ts, before) == Res(Some(all), rest)
    ensures fields.Cons? && LegalFields(fields, [END] + rest) && EmitFields(fields, [END] + rest) == ts
    ensures before + EraseFields(fields) == all
    decreases |ts|
  {
    hide DeclExpr, EmitIds, TypeFields;
    FieldsStep(ts, before);
    var d := DeclExpr(ts);
    var ids, trailing := SoundDecl(ts, d.node.value, d.rest);
    var semi := SoundSemi(d.rest);
    var more := After(d.rest, SEMICOLON);
    var f := CField(ids, trailing, d.node.value.typ, semi);
    var decl := Decl(ids, f.typ);
    assert decl == d.node.value;
    if Peek(more) == END {
      fields := Cons(f, Nil);
      assert more == [END] + rest;
      assert before + ([decl] + []) == before + [decl];
    } else {
      var t := SoundFields(more, before + [decl], all, rest);
      fields := Cons(f, t);
      assert before + ([decl] + EraseFields(t)) == before + [decl] + EraseFields(t);
    }
  }

  lemma FieldsStep(ts: seq<Token>, before: seq<Decl>)
    ensures TypeFields(ts, before) ==
      var d := DeclExpr(ts);
      if d.node.None? then Res(None, d.rest)
      else
        var more := After(d.rest, SEMICOLON);
        if Peek(more) == END then Res(Some(before + [d.node.value]), more[1..])
        else TypeFields(more, before + [d.node.value])
  {
    hide DeclExpr;
  }

  // ----- statements

  /** Whatever is read as a statement without holes is derived: its tokens, its tree, and where it ends. */
  lemma {:induction false} SoundStmt(ts: seq<Token>, s: Stmt, rest: seq<Token>) returns (d: CStmt)
    requires Statement(ts) == Res(Some(s), rest) && WholeStmt(s)
    ensures Means(d, ts, s, rest)
    decreases |ts|, 1
  {
    hide NotExpr, PrintValues, Block, SignatureOf, IfStmt, WhileStmt, FunctionStmt, TypeStmt, Whole, WholeBody;
    hide Means, LegalStmt, EmitStmt, EraseStmt, WholeItems, Starts;
    match Peek(ts) {
      case PRINT => d := SoundPrint(ts, s, rest);
      case INPUT => d := SoundInput(ts, s, rest);
      case IF => d := SoundIf(ts, s, rest);
      case DO => d := SoundWhile(ts, s, rest);
      case RETURN => d := SoundReturn(ts, s, rest);
      case SCOPE => d := SoundScope(ts, s, rest);
      case DECLARE => d := SoundDeclare(ts, s, rest);
      case FUNCTION => d := SoundFunction(ts, s, rest);
      case TYPE => d := SoundTypeDef(ts, s, rest);
      case _ => d := SoundEval(ts, s, rest);
    }
  }

  lemma SoundEval(ts: seq<Token>, s: Stmt, rest: seq<Token>) returns (d: CStmt)
    requires s.Eval? && Whole(s.expr) && NotExpr(ts) == Res(Some(s.expr), rest)
    ensures Means(d, ts, s, rest)
  {
    hide NotExpr, Whole, LegalExpr, Emit, Erase;
    var c := SoundExpr(ts, s.expr, rest);
    d := EvalC(c);
  }

  lemma SoundPrint(ts: seq<Token>, s: Stmt, rest: seq<Token>) returns (d: CStmt)
    requires Peek(ts) == PRINT && s.Print? && WholeStmt(s) && PrintValues(ts[1..], []) == (s.values, rest)
    ensures Means(d, ts, s, rest)
  {
    hide PrintValues, Whole, LegalValues, EmitValues, EraseElems;
    var values, trailing := SoundValues(ts[1..], [], s.values, rest);
    d := PrintC(values, trailing);
    assert [] + EraseElems(values) == EraseElems(values) && ts == [PRINT] + ts[1..];
  }

  lemma SoundInput(ts: seq<Token>, s: Stmt, rest: seq<Token>) returns (d: CStmt)
    requires Peek(ts) == INPUT && s.Input? && Whole(s.param)
    requires var e := NotExpr(ts[1..]); s.param == OrMissing(e.node) && rest == After(e.rest, SEMICOLON)
    ensures Means(d, ts, s, rest)
  {
    hide NotExpr, LegalExpr, Emit, Erase;
    var e := NotExpr(ts[1..]);
    assert !Whole(Missing);
    var c := SoundExpr(ts[1..], s.param, e.rest);
    var semi := SoundSemi(e.rest);
    d := InputC(c, semi);
    assert ts == [INPUT] + ts[1..];
  }

  lemma SoundReturn(ts: seq<Token>, s: Stmt, rest: seq<Token>) returns (d: CStmt)
    requires Peek(ts) == RETURN && s.Return? && (s.result.Some? ==> Whole(s.result.value))
    requires if Peek(ts[1..]) == SEMICOLON then s.result == None && rest == ts[2..]
      else s.result.Some? && NotExpr(ts[1..]) == Res(s.result, rest)
    ensures Means(d, ts, s, rest)
  {
    hide NotExpr, Whole, LegalExpr, Emit, Erase;
    assert ts == [RETURN] + ts[1..];
    if Peek(ts[1..]) == SEMICOLON {
      d := ReturnC(None);
      assert ts[1..] == [SEMICOLON] + ts[2..];
    } else {
      var c := SoundExpr(ts[1..], s.result.value, rest);
      d := ReturnC(Some(c));
    }
  }

  lemma SoundDeclare(ts: seq<Token>, s: Stmt, rest: seq<Token>) returns (d: CStmt)
    requires Peek(ts) == DECLARE && Peek(ts[1..]) == FUNCTION && s.Declare? && WholeItems(s.params)
    requires SignatureOf(ts[2..]) == Res(Some(Signature(s.name, s.params, s.typ)), rest)
    ensures Means(d, ts, s, rest)
  {
    hide SignatureOf, WholeItems, LegalSig, EmitSig;
    var sig := SoundSig(ts[2..], Signature(s.name, s.params, s.typ), rest);
    d := DeclareC(sig);
    assert ts == [DECLARE] + ([FUNCTION] + ts[2..]);
  }

  lemma SoundTypeDef(ts: seq<Token>, s: Stmt, rest: seq<Token>) returns (d: CStmt)
    requires Peek(ts) == TYPE && TypeStmt(ts[1..]) == Res(Some(s), rest)
    ensures Means(d, ts, s, rest)
  {
    hide TypeFields, LegalFields, EmitFields, EraseFields;
    var more := After(ts[2..], SEMICOLON);
    var fields := SoundFields(more, [], s.fields, rest);
    var semi := SoundSemi(ts[2..]);
    d := TypeC(s.name, semi, fields);
    assert [] + EraseFields(fields) == EraseFields(fields);
    assert ts == [TYPE] + ([ID(s.name)] + ts[2..]);
  }

  lemma {:induction false} SoundScope(ts: seq<Token>, s: Stmt, rest: seq<Token>) returns (d: CStmt)
    requires Peek(ts) == SCOPE && s.Scope? && WholeBody(s.body) && Block(ts[1..], []) == Res(Some(s.body), rest)
    ensures Means(d, ts, s, rest)
    decreases |ts|, 0
  {
    hide Block, WholeBody, LegalBlock, EmitBlock, EraseBlock;
    var b := SoundBlock(ts[1..], [], s.body, rest);
    NothingBefore(EraseBlock(b));
    d := ScopeC(b);
    assert ts == [SCOPE] + ts[1..];
  }

  lemma {:induction false} SoundFunction(ts: seq<Token>, s: Stmt, rest: seq<Token>) returns (d: CStmt)
    requires Peek(ts) == FUNCTION && FunctionStmt(ts[1..]) == Res(Some(s), rest) && WholeStmt(s)
    ensures Means(d, ts, s, rest)
    decreases |ts|, 0
  {
    hide SignatureOf, Block, WholeItems, WholeBody, LegalSig, EmitSig, LegalBlock, EmitBlock, EraseBlock;
    var h := SignatureOf(ts[1..]);
    var b := SoundBlock(h.rest, [], s.body, rest);
    NothingBefore(EraseBlock(b));
    var sig := SoundSig(ts[1..], Signature(s.name, s.params, s.typ), h.rest);
    d := FunctionC(sig, b);
    assert ts == [FUNCTION] + ts[1..];
  }

  lemma {:induction false} SoundWhile(ts: seq<Token>, s: Stmt, rest: seq<Token>) returns (d: CStmt)
    requires Peek(ts) == DO && WhileStmt(ts[1..]) == Res(Some(s), rest) && WholeStmt(s)
    ensures Means(d, ts, s, rest)
    decreases |ts|, 0
  {
    hide NotExpr, Whole, LegalExpr, Emit, Erase, Block, WholeBody, LegalBlock, EmitBlock, EraseBlock;
    var c := NotExpr(ts[2..]);
    assert ts[1..][1..] == ts[2..];
    var mid := After(c.rest, SEMICOLON);
    var b := SoundBlock(mid, [], s.body, rest);
    NothingBefore(EraseBlock(b));
    var semi := SoundSemi(c.rest);
    var x := SoundExpr(ts[2..], s.cond, c.rest);
    d := WhileC(x, semi, b);
    assert ts == [DO] + ([WHILE] + ts[2..]);
  }

  lemma {:induction false} SoundBranch(ts: seq<Token>, b: Branch, rest: seq<Token>) returns (d: CBranch)
    requires Guarded(ts) == Res(Some(b), rest) && Whole(b.cond) && WholeBody(b.body)
    ensures LegalBranch(d, rest) && EmitBranch(d, rest) == ts && EraseBranch(d) == b
    decreases |ts|, 4
  {
    hide NotExpr, Whole, LegalExpr, Emit, Erase, Block, WholeBody, LegalBlock, EmitBlock, EraseBlock;
    var c := NotExpr(ts);
    var body := SoundBlock(c.rest[1..], [], b.body, rest);
    NothingBefore(EraseBlock(body));
    var x := SoundExpr(ts, b.cond, c.rest);
    d := CBranch(x, body);
    assert c.rest == [THEN] + c.rest[1..];
  }

  lemma {:induction false} SoundIf(ts: seq<Token>, s: Stmt, rest: seq<Token>) returns (d: CStmt)
    requires Peek(ts) == IF && IfStmt(ts[1..]) == Res(Some(s), rest) && WholeStmt(s)
    ensures Means(d, ts, s, rest)
    decreases |ts|, 0
  {
    hide Guarded, IfRest, Whole, WholeBody, LegalBranch, EmitBranch, LegalBranches, EmitBranches, EraseBranches;
    hide LegalElse, EmitElse, EraseElse;
    var g := Guarded(ts[1..]);
    var first := g.node.value;
    Swallowing.IfKeeps(first, [], g.rest, true);
    var b := SoundBranch(ts[1..], first, g.rest);
    var bs, o := SoundIfRest(first, [], g.rest, s, rest);
    d := IfC(b, bs, o);
    assert [] + EraseBranches(bs) == EraseBranches(bs);
    assert ts == [IF] + ts[1..];
  }

  lemma {:induction false} SoundIfRest(first: Branch, before: seq<Branch>, ts: seq<Token>, s: Stmt, rest: seq<Token>)
    returns (bs: List<CBranch>, o: CElse)
    requires IfRest(first, before, ts) == Res(Some(s), rest) && WholeStmt(s)
    ensures LegalBranches(bs, EmitElse(o, rest)) && LegalElse(o, rest) && EmitBranches(bs, EmitElse(o, rest)) == ts
    ensures s == If(first.cond, first.body, before + EraseBranches(bs), EraseElse(o))
    decreases |ts|, 4
  {
    hide Guarded, Block, IfRest, Whole, WholeBody, LegalBranch, EmitBranch, EraseBranch, LegalBlock, EmitBlock, EraseBlock;
    hide LegalBranches, EmitBranches, EraseBranches;
    IfRestStep(first, before, ts, true);
    if Peek(ts) == ELSE {
      var b := SoundBlock(ts[1..], [], s.otherwise.stmts, rest);
      NothingBefore(EraseBlock(b));
      bs, o := Nil, ElseC(b);
      NoBranches(before, EmitElse(o, rest));
      assert ts == [ELSE] + ts[1..];
    } else if Peek(ts) == ELSEIF {
      var g := Guarded(ts[1..]);
      var before' := before + [g.node.value];
      Swallowing.IfKeeps(first, before', g.rest, true);
      assert s.elseIfs[|before|] == before'[|before|] && before'[|before|] in s.elseIfs;
      var b := SoundBranch(ts[1..], g.node.value, g.rest);
      var t;
      t, o := SoundIfRest(first, before', g.rest, s, rest);
      bs := Cons(b, t);
      BranchFirst(before, b, t, EmitElse(o, rest));
      assert ts == [ELSEIF] + ts[1..];
    } else {
      bs, o := Nil, NoElseC;
      NoBranches(before, EmitElse(o, rest));
    }
  }

  lemma NoBranches(before: seq<Branch>, rest: seq<Token>)
    ensures LegalBranches(Nil, rest) && EmitBranches(Nil, rest) == rest && before + EraseBranches(Nil) == before
  {
  }

  lemma BranchFirst(before: seq<Branch>, b: CBranch, t: List<CBranch>, rest: seq<Token>)
    requires LegalBranch(b, EmitBranches(t, rest)) && LegalBranches(t, rest)
    ensures LegalBranches(Cons(b, t), rest)
    ensures EmitBranches(Cons(b, t), rest) == [ELSEIF] + EmitBranch(b, EmitBranches(t, rest))
    ensures before + EraseBranches(Cons(b, t)) == before + [EraseBranch(b)] + EraseBranches(t)
  {
    hide LegalBranch, EmitBranch, EraseBranch;
    assert before + ([EraseBranch(b)] + EraseBranches(t)) == before + [EraseBranch(b)] + EraseBranches(t);
  }

  lemma IfRestStep(first: Branch, before: seq<Branch>, ts: seq<Token>, keep: bool)
    ensures Peek(ts) == ELSE ==> var b := Block(ts[1..], [], keep);
      IfRest(first, before, ts, keep) ==
        Res(if b.node.None? then None else Some(If(first.cond, first.body, before, Else(b.node.value))), b.rest)
    ensures Peek(ts) == ELSEIF ==> var g := Guarded(ts[1..], keep);
      IfRest(first, before, ts, keep) ==
        if g.node.None? then Res(None, g.rest) else IfRest(first, before + [g.node.value], g.rest, keep)
    ensures Peek(ts) != ELSE && Peek(ts) != ELSEIF ==>
      IfRest(first, before, ts, keep) == Res(Some(If(first.cond, first.body, before, NoElse)), ts)
  {
    hide Block, Guarded;
  }

  lemma {:induction false} SoundBlock(ts: seq<Token>, before: seq<Stmt>, all: seq<Stmt>, rest: seq<Token>) returns (b: CBlock)
    requires Block(ts, before) == Res(Some(all), rest) && WholeBody(all)
    ensures LegalBlock(b, rest) && EmitBlock(b, rest) == ts && before + EraseBlock(b) == all
    decreases |ts|, 3
  {
    hide Statement, Block, WholeBody, LegalBlock, EmitBlock, EraseBlock, LegalLine, EmitLine, EraseLine;
    if StmtRoundTrip.Ends(Peek(ts)) {
      b := SoundCloser(ts, before, all, rest);
    } else {
      var s := Statement(ts);
      BlockStep(ts, before);
      Swallowing.BlockGrows(After(s.rest, SEMICOLON), before + [s.node.value], true);
      var line, more := SoundLine(ts, before, all, s.node.value, s.rest);
      var t := SoundBlock(more, before + [s.node.value], all, rest);
      b := CBlock(Cons(line, t.lines), t.closer);
      LineFirst(before, line, t, rest);
    }
  }

  lemma BlockStep(ts: seq<Token>, before: seq<Stmt>)
    requires !StmtRoundTrip.Ends(Peek(ts))
    ensures var s := Statement(ts);
      Block(ts, before) == if s.node.None? then Res(None, s.rest)
        else Block(After(s.rest, SEMICOLON), before + [s.node.value])
  {
    hide Statement;
  }

  lemma SoundCloser(ts: seq<Token>, before: seq<Stmt>, all: seq<Stmt>, rest: seq<Token>) returns (b: CBlock)
    requires Block(ts, before) == Res(Some(all), rest) && StmtRoundTrip.Ends(Peek(ts))
    ensures LegalBlock(b, rest) && EmitBlock(b, rest) == ts && before + EraseBlock(b) == all
  {
    hide BlockMore, LegalLine, EmitLine, EraseLine;
    b := CBlock(Nil, if ts[0] == LOOP then AtLoop else if ts[0] == END then AtEnd(ts[1]) else BeforeElse);
    if ts[0] == LOOP { assert ts == [LOOP] + ts[1..]; }
    if ts[0] == END { assert ts == [END] + ([ts[1]] + ts[2..]); }
    assert before + [] == before;
  }

  lemma LineFirst(before: seq<Stmt>, line: CLine, t: CBlock, rest: seq<Token>)
    requires LegalBlock(t, rest) && LegalLine(line, EmitBlock(t, rest))
    ensures var b := CBlock(Cons(line, t.lines), t.closer);
      && LegalBlock(b, rest) && EmitBlock(b, rest) == EmitLine(line, EmitBlock(t, rest))
      && before + EraseBlock(b) == before + [EraseLine(line)] + EraseBlock(t)
  {
    hide LegalLine, EmitLine, EraseLine, EmitCloser, LegalCloser;
    assert before + [EraseLine(line)] + EraseBlock(t) == before + ([EraseLine(line)] + EraseBlock(t));
  }

  lemma {:induction false} SoundLine(ts: seq<Token>, before: seq<Stmt>, all: seq<Stmt>, s: Stmt, mid: seq<Token>)
    returns (line: CLine, more: seq<Token>)
    requires Statement(ts) == Res(Some(s), mid) && WholeBody(all)
    requires before + [s] <= all
    ensures more == After(mid, SEMICOLON) && LegalLine(line, more) && EmitLine(line, more) == ts && EraseLine(line) == s
    decreases |ts|, 2
  {
    hide Statement, WholeStmt, LegalStmt, EmitStmt, EraseStmt;
    assert all[|before|] == (before + [s])[|before|] == s;
    assert s in all;
    var d := SoundStmt(ts, s, mid);
    var semi := SoundSemi(mid);
    more := After(mid, SEMICOLON);
    line := CLine(d, semi);
  }

  /** Whatever is read as a program without holes is derived. */
  lemma {:induction false} SoundProgram(ts: seq<Token>, before: seq<Stmt>, all: seq<Stmt>, rest: seq<Token>)
    returns (lines: List<CLine>)
    requires Program(ts, before) == Res(Some(all), rest) && WholeBody(all)
    ensures LegalLines(lines, rest) && EmitLines(lines, rest) == ts && before + EraseLines(lines) == all
    ensures Peek(rest) == EOS
    decreases |ts|
  {
    hide Statement, WholeBody, LegalLine, EmitLine, EraseLine;
    if Peek(ts) == EOS {
      lines := Nil;
      assert before + [] == before;
    } else {
      var s := Statement(ts);
      var next := After(s.rest, SEMICOLON);
      Swallowing.StmtsGrow(next, before + [s.node.value], true);
      var line, more := SoundLine(ts, before, all, s.node.value, s.rest);
      var t := SoundProgram(more, before + [s.node.value], all, rest);
      lines := Cons(line, t);
      assert before + ([EraseLine(line)] + EraseLines(t)) == before + [EraseLine(line)] + EraseLines(t);
    }
  }

  // ----- what derives has no holes

  lemma {:induction false} ValuesWhole(values: List<Cst>, trailing: bool, rest: seq<Token>)
    requires LegalValues(values, trailing, rest)
    ensures forall v :: v in EraseElems(values) ==> Whole(v)
    decreases values
  {
    hide Whole, Erase, Derives, Emit, Stops, Starts, EmitValues;
    if values.Cons? {
      DerivedWhole(NOT, values.head);
      if values.tail.Cons? { ValuesWhole(values.tail, trailing, rest); } else { assert EraseElems(values.tail) == []; }
    }
  }

  lemma SigWhole(sig: CSig, rest: seq<Token>)
    requires LegalSig(sig, rest)
    ensures WholeItems(EraseParams(sig.params))
  {
    hide DerivesItems, EraseItems, Whole;
    if sig.params.Some? { ItemsWhole(sig.params.value); }
  }

  lemma {:induction false} StmtWhole(s: CStmt, rest: seq<Token>)
    requires LegalStmt(s, rest)
    ensures WholeStmt(EraseStmt(s))
    decreases s, 1
  {
    hide Derives, Stops, Emit, Erase, Whole, EmitBlock, LegalBlock, EraseBlock, WholeBody, EmitSig, LegalSig, EraseParams;
    hide WholeItems, LegalValues, EraseElems, EmitFields, LegalFields, EraseFields, Starts;
    hide LegalBranch, LegalBranches, LegalElse, EmitBranches, EmitElse;
    match s
    case EvalC(e) => DerivedWhole(NOT, e);
    case PrintC(values, trailing) => ValuesWhole(values, trailing, rest);
    case InputC(e, _) => DerivedWhole(NOT, e);
    case ReturnC(r) => if r.Some? { DerivedWhole(NOT, r.value); }
    case DeclareC(sig) => SigWhole(sig, rest);
    case TypeC(_, _, _) =>
    case IfC(_, _, _) => IfWhole(s, rest);
    case WhileC(c, _, b) =>
      DerivedWhole(NOT, c);
      BlockWhole(b, rest);
    case ScopeC(b) => BlockWhole(b, rest);
    case FunctionC(sig, b) =>
      SigWhole(sig, EmitBlock(b, rest));
      BlockWhole(b, rest);
  }

  lemma {:induction false} IfWhole(s: CStmt, rest: seq<Token>)
    requires s.IfC? && LegalStmt(s, rest)
    ensures WholeStmt(EraseStmt(s))
    decreases s, 0
  {
    hide Derives, Stops, Emit, Erase, Whole, LegalBlock, EraseBlock, WholeBody, LegalBranches, EmitBranches, EmitElse;
    hide EraseBranches;
    var last := EmitElse(s.otherwise, rest);
    BranchWhole(s.first, EmitBranches(s.elseIfs, last));
    BranchesWhole(s.elseIfs, last);
    match s.otherwise {
      case NoElseC =>
      case ElseC(b) => BlockWhole(b, rest);
    }
  }

  lemma {:induction false} BranchWhole(b: CBranch, rest: seq<Token>)
    requires LegalBranch(b, rest)
    ensures Whole(Erase(b.cond)) && WholeBody(EraseBlock(b.body))
    decreases b
  {
    hide Derives, Stops, Emit, Erase, Whole, LegalBlock, EraseBlock, WholeBody;
    DerivedWhole(NOT, b.cond);
    BlockWhole(b.body, rest);
  }

  lemma {:induction false} BranchesWhole(bs: List<CBranch>, rest: seq<Token>)
    requires LegalBranches(bs, rest)
    ensures forall b :: b in EraseBranches(bs) ==> Whole(b.cond) && WholeBody(b.body)
    decreases bs
  {
    hide LegalBranch, Whole, WholeBody, EmitBranches, Erase, EraseBlock;
    if bs.Cons? {
      BranchWhole(bs.head, EmitBranches(bs.tail, rest));
      BranchesWhole(bs.tail, rest);
    }
  }

  lemma {:induction false} BlockWhole(b: CBlock, rest: seq<Token>)
    requires LegalBlock(b, rest)
    ensures WholeBody(EraseBlock(b))
    decreases b
  {
    hide LegalLines, EraseLines, WholeBody;
    LinesWhole(b.lines, EmitCloser(b.closer, rest));
  }

  lemma {:induction false} LinesWhole(lines: List<CLine>, rest: seq<Token>)
    requires LegalLines(lines, rest)
    ensures WholeBody(EraseLines(lines))
    decreases lines
  {
    hide WholeStmt, LegalLine, EraseLine, EmitLines;
    if lines.Cons? {
      LineWhole(lines.head, EmitLines(lines.tail, rest));
      LinesWhole(lines.tail, rest);
    }
  }

  lemma {:induction false} LineWhole(l: CLine, rest: seq<Token>)
    requires LegalLine(l, rest)
    ensures WholeStmt(EraseLine(l))
    decreases l
  {
    hide LegalStmt, EraseStmt, WholeStmt;
    StmtWhole(l.stmt, Semi(l.semi, rest));
  }

  // ----- exactly the programs of the grammar

  /** For all tokens: reading a statement without holes and deriving it are the same thing. */
  lemma StmtIff(ts: seq<Token>, s: Stmt, rest: seq<Token>)
    ensures Statement(ts) == Res(Some(s), rest) && WholeStmt(s) <==> exists d :: Means(d, ts, s, rest)
  {
    hide Statement, WholeStmt, LegalStmt, EmitStmt, EraseStmt;
    if Statement(ts) == Res(Some(s), rest) && WholeStmt(s) {
      var d := SoundStmt(ts, s, rest);
    }
    if d :| Means(d, ts, s, rest) {
      StmtReadsBack(d, rest);
      StmtWhole(d, rest);
    }
  }

  /** `lines` derive `ts` up to the end of the input and mean `body`. */
  ghost predicate ProgramMeans(lines: List<CLine>, ts: seq<Token>, body: seq<Stmt>, rest: seq<Token>) {
    LegalLines(lines, rest) && EmitLines(lines, rest) == ts && EraseLines(lines) == body && Peek(rest) == EOS
  }

  /** The same for programs. */
  lemma ProgramIff(ts: seq<Token>, body: seq<Stmt>, rest: seq<Token>)
    ensures Program(ts, []) == Res(Some(body), rest) && WholeBody(body) <==>
      exists lines :: ProgramMeans(lines, ts, body, rest)
  {
    hide Program, WholeBody, LegalLines, EmitLines, EraseLines;
    if Program(ts, []) == Res(Some(body), rest) && WholeBody(body) {
      var lines := SoundProgram(ts, [], body, rest);
      assert [] + EraseLines(lines) == EraseLines(lines);
      assert ProgramMeans(lines, ts, body, rest);
    }
    if lines :| ProgramMeans(lines, ts, body, rest) {
      ProgramComplete(lines, rest, []);
      assert [] + EraseLines(lines) == EraseLines(lines);
      LinesWhole(lines, rest);
    }
  }

  /** Two derivations of the same program mean the same statements. */
  lemma ProgramUnambiguous(c: List<CLine>, d: List<CLine>, ts: seq<Token>, x: seq<Stmt>, y: seq<Stmt>, restC: seq<Token>, restD: seq<Token>)
    requires ProgramMeans(c, ts, x, restC) && ProgramMeans(d, ts, y, restD)
    ensures x == y && restC == restD
  {
    hide ProgramMeans, Program, WholeBody;
    ProgramIff(ts, x, restC);
    ProgramIff(ts, y, restD);
  }
}
