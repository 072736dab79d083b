/** Printing statements, each closed by an explicit ';', and reading them back. */
module StmtRoundTrip {
  import opened Options
  import opened Tokens
  import opened Ast
  import opened Productions
  import opened ParserSpec
  import opened Grammar
  import opened ExprComplete
  import opened Printer
  import opened Collapse

  // ----- printing

  function Show(e: Expr, rest: seq<Token>): seq<Token> { Emit(At(NOT, e), rest) }

  function ShowValues(values: seq<Expr>, rest: seq<Token>): seq<Token> {
    if values == [] then rest else Show(values[0], [SEMICOLON] + ShowValues(values[1..], rest))
  }

  function ShowDecl(d: Decl, rest: seq<Token>): seq<Token> { EmitIds(d.ids, false, [AS, ID(d.typ)] + rest) }

  function ShowFields(fields: seq<Decl>, rest: seq<Token>): seq<Token> {
    if fields == [] then rest else ShowDecl(fields[0], [SEMICOLON] + ShowFields(fields[1..], rest))
  }

  function ShowSignature(s: Signature, rest: seq<Token>): seq<Token> {
    [ID(s.name), LPAREN] + EmitItems(ItemList(s.params),
      [RPAREN] + ((if s.typ.Some? then [AS, ID(s.typ.value)] else []) + ([SEMICOLON] + rest)))
  }

  /** A statement and its ';'. */
  function ShowStmt(s: Stmt, rest: seq<Token>): seq<Token>
    decreases s
  {
    match s
    case Eval(e) => Show(e, [SEMICOLON] + rest)
    case Print(values) => [PRINT] + if values == [] then [SEMICOLON] + rest else ShowValues(values, rest)
    case Input(e) => [INPUT] + Show(e, [SEMICOLON] + rest)
    case If(c, body, elseIfs, otherwise) =>
      var end := [END, IF] + ([SEMICOLON] + rest);
      var last := match otherwise case NoElse => end case Else(b) => [ELSE] + ShowBody(b, end);
      [IF] + Show(c, [THEN] + ShowBody(body, ShowElseIfs(elseIfs, last)))
    case While(c, body) => [DO, WHILE] + Show(c, [SEMICOLON] + ShowBody(body, [LOOP] + ([SEMICOLON] + rest)))
    case Return(None) => [RETURN, SEMICOLON] + rest
    case Return(Some(e)) => [RETURN] + Show(e, [SEMICOLON] + rest)
    case Scope(body) => [SCOPE] + ShowBody(body, [END, SCOPE] + ([SEMICOLON] + rest))
    case Declare(name, params, typ) => [DECLARE, FUNCTION] + ShowSignature(Signature(name, params, typ), rest)
    case Function(name, params, typ, body) =>
      [FUNCTION] + ShowSignature(Signature(name, params, typ), ShowBody(body, [END, FUNCTION] + ([SEMICOLON] + rest)))
    case TypeDef(name, fields) => [TYPE, ID(name), SEMICOLON] + ShowFields(fields, [END] + ([SEMICOLON] + rest))
  }

  function ShowBody(body: seq<Stmt>, rest: seq<Token>): seq<Token>
    decreases body
  {
    if body == [] then rest else ShowStmt(body[0], ShowBody(body[1..], rest))
  }

  function ShowElseIfs(elseIfs: seq<Branch>, rest: seq<Token>): seq<Token>
    decreases elseIfs
  {
    if elseIfs == [] then rest else [ELSEIF] + ShowBranch(elseIfs[0], ShowElseIfs(elseIfs[1..], rest))
  }

  function ShowBranch(b: Branch, rest: seq<Token>): seq<Token>
    decreases b
  {
    Show(b.cond, [THEN] + ShowBody(b.body, rest))
  }

  // ----- what can be printed

  /** Trees the parser can have built: printable, with no keyword given twice. */
  predicate Shown(e: Expr) { Printable(e) && NoRepeats(e) }

  predicate ShownItems(items: seq<Item>) {
    PrintableItems(items) && forall i :: i in items ==> i.init.Some? ==> NoRepeats(i.init.value)
  }

  predicate PrintableDecl(d: Decl) { d.ids != [] }

  predicate PrintableStmt(s: Stmt)
    decreases s
  {
    match s
    case Eval(e) => Shown(e)
    case Print(values) => forall v :: v in values ==> Shown(v)
    case Input(e) => Shown(e)
    case If(c, body, elseIfs, otherwise) =>
      && Shown(c) && PrintableBody(body) && PrintableBranches(elseIfs)
      && (match otherwise case NoElse => true case Else(b) => PrintableBody(b))
    case While(c, body) => Shown(c) && PrintableBody(body)
    case Return(r) => r.Some? ==> Shown(r.value)
    case Scope(body) => PrintableBody(body)
    case Declare(_, params, _) => ShownItems(params)
    case Function(_, params, _, body) => ShownItems(params) && PrintableBody(body)
    case TypeDef(_, fields) => fields != [] && forall f :: f in fields ==> PrintableDecl(f)
  }

  predicate PrintableBody(body: seq<Stmt>)
    decreases body
  {
    body == [] || (PrintableStmt(body[0]) && PrintableBody(body[1..]))
  }

  predicate PrintableBranches(bs: seq<Branch>)
    decreases bs
  {
    bs == [] || (PrintableBranch(bs[0]) && PrintableBranches(bs[1..]))
  }

  predicate PrintableBranch(b: Branch)
    decreases b
  {
    Shown(b.cond) && PrintableBody(b.body)
  }

  // ----- what `print` leaves alone

  /** `print` would swallow an expression statement right after it. */
  predicate Swallows(s: Stmt, t: Stmt) { s.Print? && s.values != [] && t.Eval? }

  /** Nowhere in the statements, at any depth, does a `print` swallow what follows it. */
  predicate NothingSwallowed(body: seq<Stmt>)
    decreases body
  {
    body == [] ||
    (CleanStmt(body[0]) && NothingSwallowed(body[1..]) && (|body| > 1 ==> !Swallows(body[0], body[1])))
  }

  predicate CleanStmt(s: Stmt)
    decreases s
  {
    match s
    case If(_, body, elseIfs, otherwise) =>
      && NothingSwallowed(body) && CleanBranches(elseIfs)
      && (match otherwise case NoElse => true case Else(b) => NothingSwallowed(b))
    case While(_, body) => NothingSwallowed(body)
    case Scope(body) => NothingSwallowed(body)
    case Function(_, _, _, body) => NothingSwallowed(body)
    case _ => true
  }

  predicate CleanBranches(bs: seq<Branch>)
    decreases bs
  {
    bs == [] || (CleanBranch(bs[0]) && CleanBranches(bs[1..]))
  }

  predicate CleanBranch(b: Branch)
    decreases b
  {
    NothingSwallowed(b.body)
  }

  predicate ReadableStmt(s: Stmt) { PrintableStmt(s) && CleanStmt(s) }

  predicate ReadableBody(body: seq<Stmt>) { PrintableBody(body) && NothingSwallowed(body) }

  predicate ReadableBranches(bs: seq<Branch>) { PrintableBranches(bs) && CleanBranches(bs) }

  predicate ReadableBranch(b: Branch) { PrintableBranch(b) && CleanBranch(b) }

  // ----- reading back

  /** Tokens that begin a statement other than an expression. */
  predicate Keyword(t: Token) {
    t == PRINT || t == INPUT || t == IF || t == DO || t == RETURN || t == SCOPE || t == DECLARE || t == FUNCTION || t == TYPE
  }

  /** Tokens on which a block ends. */
  predicate Ends(t: Token) { t == ELSE || t == ELSEIF || t == LOOP || t == END }

  lemma NoPrimary(ts: seq<Token>, keep: bool)
    requires !Starts(Peek(ts))
    ensures PrimaryExpr(ts, keep) == Res(None, ts)
  {
    hide NotExpr, ArgList, HashPairs;
  }

  lemma NoPow(ts: seq<Token>, keep: bool)
    requires !Starts(Peek(ts))
    ensures PowExpr(ts, keep) == Res(None, ts)
  {
    hide PrimaryExpr, CallRest, Starts;
    NoPrimary(ts, keep);
    assert CallExpr(ts, keep) == Res(None, ts);
  }

  lemma NoUnary(ts: seq<Token>, keep: bool)
    requires !Starts(Peek(ts))
    ensures UnaryExpr(ts, keep) == Res(None, ts)
  {
    hide PowExpr;
    NoPow(ts, keep);
    assert PostfixExpr(ts, keep) == Res(None, ts);
  }

  lemma {:induction false} NoOperand(l: nat, ts: seq<Token>, keep: bool)
    requires LOGICAL_OR <= l <= UNARY && !Starts(Peek(ts))
    ensures BinaryExpr(l, ts, keep) == Res(None, ts)
    decreases UNARY - l
  {
    hide UnaryExpr, BinaryLoop, Starts;
    if l < UNARY { NoOperand(l + 1, ts, keep); } else { NoUnary(ts, keep); }
  }

  lemma NoFork(ts: seq<Token>, keep: bool)
    requires !Starts(Peek(ts))
    ensures ForkExpr(ts, keep) == Res(None, ts)
  {
    hide BinaryExpr, Starts;
    NoOperand(LOGICAL_OR, ts, keep);
  }

  /** On a token no expression begins with, the expression parser fails on the spot. */
  lemma NoExpr(ts: seq<Token>, keep: bool)
    requires !Starts(Peek(ts))
    ensures NotExpr(ts, keep) == Res(None, ts)
  {
    hide ForkExpr, DimExpr;
    NoFork(ts, keep);
    assert AssignExpr(ts, keep) == Res(None, ts);
  }

  lemma Reads(e: Expr, rest: seq<Token>, keep: bool)
    requires Shown(e)
    requires Peek(rest) == SEMICOLON || Peek(rest) == THEN
    ensures NotExpr(Show(e, rest), keep) == Res(Some(e), rest) && Show(e, rest) != [] && Starts(Show(e, rest)[0])
  {
    hide Printable, Starts, Collapsed, NoRepeats, NotExpr, At, Emit, Derives, Erase;
    AtDerives(NOT, e);
    StopsBefore(NOT, At(NOT, e), rest);
    RoundTrip(e, rest);
    FirstToken(NOT, At(NOT, e), rest);
  }

  lemma {:induction false} ValuesRead(values: seq<Expr>, rest: seq<Token>, before: seq<Expr>, keep: bool)
    requires (forall v :: v in values ==> Shown(v)) && !Starts(Peek(rest))
    ensures PrintValues(ShowValues(values, rest), before, keep) == (before + values, rest)
    decreases values
  {
    hide NotExpr, Show, Shown, Starts;
    if values == [] {
      NoExpr(rest, keep);
      assert before + values == before;
    } else {
      var more := [SEMICOLON] + ShowValues(values[1..], rest);
      Reads(values[0], more, keep);
      assert more[1..] == ShowValues(values[1..], rest);
      ValuesRead(values[1..], rest, before + [values[0]], keep);
      assert before + [values[0]] + values[1..] == before + values;
    }
  }

  lemma DeclRead(d: Decl, rest: seq<Token>)
    requires PrintableDecl(d)
    ensures DeclExpr(ShowDecl(d, rest)) == Res(Some(d), rest)
  {
    DeclComplete(d.ids, false, d.typ, rest);
  }

  lemma {:induction false} FieldsRead(fields: seq<Decl>, rest: seq<Token>, before: seq<Decl>)
    requires fields != [] && (forall f :: f in fields ==> PrintableDecl(f))
    ensures TypeFields(ShowFields(fields, [END] + rest), before) == Res(Some(before + fields), rest)
    decreases fields
  {
    hide DeclExpr, PrintableDecl, ShowDecl;
    var tail := ShowFields(fields[1..], [END] + rest);
    var more := [SEMICOLON] + tail;
    DeclRead(fields[0], more);
    assert more[1..] == tail;
    if |fields| == 1 {
      assert tail == [END] + rest && tail[1..] == rest;
      assert before + [fields[0]] == before + fields;
    } else {
      NameFirst(fields[1], [SEMICOLON] + ShowFields(fields[2..], [END] + rest));
      assert fields[1..][1..] == fields[2..];
      FieldsRead(fields[1..], rest, before + [fields[0]]);
      assert before + [fields[0]] + fields[1..] == before + fields;
    }
  }

  lemma NameFirst(d: Decl, rest: seq<Token>)
    requires PrintableDecl(d)
    ensures Peek(ShowDecl(d, rest)).ID?
  {
  }

  lemma ParamsRead(params: seq<Item>, rest: seq<Token>, keep: bool)
    requires ShownItems(params)
    ensures Params(EmitItems(ItemList(params), [RPAREN] + rest), keep) == Res(Some(params), rest)
  {
    hide Items, EmitItems, ItemList;
    var close := [RPAREN] + rest;
    assert close[1..] == rest;
    if params == [] {
      NoParams(close);
      assert FunctionParams(close, keep) == Res(Some([]), close);
    } else {
      ItemsRead(params, close, keep);
    }
  }

  lemma NoParams(rest: seq<Token>)
    ensures EmitItems(ItemList([]), rest) == rest
  {
  }

  lemma NotExtended(t: Token)
    requires t == RPAREN
    ensures !Extends(NOT, t) && t != COMMA
  {
  }

  lemma ItemsRead(params: seq<Item>, close: seq<Token>, keep: bool)
    requires params != [] && ShownItems(params) && Peek(close) == RPAREN
    ensures var ts := EmitItems(ItemList(params), close);
      Peek(ts).ID? && Items(ts, [], keep) == Res(Some(params), close)
  {
    hide Items, EmitItems, Collapsed, ItemsCollapsed, NoRepeats, PrintableItems, DerivesItems, EraseItems, ItemList, LastTakes;
    ItemsDerive(params);
    LastExtends(ItemList(params), RPAREN);
    NotExtended(RPAREN);
    ItemsComplete(ItemList(params), close, []);
    assert [] + params == params;
    ItemNameFirst(ItemList(params), close);
    NoneCollapsed();
    ItemsCollapse(EmitItems(ItemList(params), close), []);
    ItemsSame(params);
  }

  lemma ItemNameFirst(items: List<CItem>, rest: seq<Token>)
    requires items.Cons? && DerivesItems(items)
    ensures Peek(EmitItems(items, rest)).ID?
  {
  }

  lemma SignatureRead(s: Signature, rest: seq<Token>, keep: bool)
    requires ShownItems(s.params)
    ensures SignatureOf(ShowSignature(s, rest), keep) == Res(Some(s), rest)
  {
    hide Params, EmitItems, ItemList, ShownItems, SignatureOf;
    var semi := [SEMICOLON] + rest;
    var tail := (if s.typ.Some? then [AS, ID(s.typ.value)] else []) + semi;
    var ts := EmitItems(ItemList(s.params), [RPAREN] + tail);
    ParamsRead(s.params, tail, keep);
    SignatureStep(s.name, ts, s.params, tail, keep);
    assert semi[1..] == rest;
    if s.typ.Some? {
      assert tail[1..] == [ID(s.typ.value)] + semi && tail[2..] == semi;
    } else {
      assert tail == semi;
    }
  }

  lemma SignatureStep(name: string, ts: seq<Token>, params: seq<Item>, tail: seq<Token>, keep: bool)
    requires Params(ts, keep) == Res(Some(params), tail)
    ensures SignatureOf([ID(name), LPAREN] + ts, keep) ==
      if Peek(tail) != AS then Res(Some(Signature(name, params, None)), After(tail, SEMICOLON))
      else if !Peek(tail[1..]).ID? then Res(None, tail[1..])
      else Res(Some(Signature(name, params, Some(tail[1].name))), After(tail[2..], SEMICOLON))
  {
    hide Params;
    var all := [ID(name), LPAREN] + ts;
    assert all[1..] == [LPAREN] + ts && all[2..] == ts;
  }

  /** What the parser is left with after a statement, once the optional ';' is taken. */
  ghost predicate ReadsAs(s: Stmt, ts: seq<Token>, rest: seq<Token>, keep: bool) {
    Statement(ts, keep).node == Some(s) && After(Statement(ts, keep).rest, SEMICOLON) == rest
  }

  lemma {:induction false} StmtFirst(s: Stmt, rest: seq<Token>)
    requires PrintableStmt(s)
    ensures var t := Peek(ShowStmt(s, rest)); Keyword(t) || (s.Eval? && Starts(t))
  {
    hide Shown, Show, ShowBody, ShowElseIfs, ShowSignature, ShowFields, ShowValues;
    if s.Eval? { Reads(s.expr, [SEMICOLON] + rest, true); }
  }

  lemma BodyFirst(body: seq<Stmt>, rest: seq<Token>, previous: Stmt)
    requires PrintableBody(body) && (Ends(Peek(rest)) || Peek(rest) == EOS)
    requires body != [] ==> !Swallows(previous, body[0])
    ensures Peek(ShowBody(body, rest)) != SEMICOLON
    ensures previous.Print? && previous.values != [] ==> !Starts(Peek(ShowBody(body, rest)))
  {
    hide ShowStmt, PrintableStmt;
    if body != [] { StmtFirst(body[0], ShowBody(body[1..], rest)); }
  }

  lemma BlockEnds(rest: seq<Token>, stmts: seq<Stmt>, keep: bool)
    requires Ends(Peek(rest))
    ensures Peek(rest) == ELSE || Peek(rest) == ELSEIF ==> Block(rest, stmts, keep) == Res(Some(stmts), rest)
    ensures Peek(rest) == LOOP ==> Block(rest, stmts, keep) == Res(Some(stmts), rest[1..])
    ensures Peek(rest) == END && Closing(Peek(rest[1..])) ==> Block(rest, stmts, keep) == Res(Some(stmts), rest[2..])
  {
    hide Statement;
  }

  lemma BlockStep(ts: seq<Token>, s: Stmt, rest: seq<Token>, stmts: seq<Stmt>, keep: bool)
    requires ReadsAs(s, ts, rest, keep) && !Ends(Peek(ts))
    ensures Block(ts, stmts, keep) == Block(rest, stmts + [s], keep)
  {
    hide Statement;
  }

  lemma {:induction false} BodyReads(body: seq<Stmt>, rest: seq<Token>, stmts: seq<Stmt>, keep: bool)
    requires ReadableBody(body) && Ends(Peek(rest))
    ensures Block(ShowBody(body, rest), stmts, keep) == Block(rest, stmts + body, keep)
    decreases body, 0
  {
    hide Statement, Block, ShowStmt, PrintableStmt, CleanStmt, ReadsAs;
    if body == [] {
      assert stmts + body == stmts;
    } else {
      var tail := ShowBody(body[1..], rest);
      BodyFirst(body[1..], rest, body[0]);
      StmtReads(body[0], tail, keep);
      StmtFirst(body[0], tail);
      BlockStep(ShowStmt(body[0], tail), body[0], tail, stmts, keep);
      BodyReads(body[1..], rest, stmts + [body[0]], keep);
      assert stmts + [body[0]] + body[1..] == stmts + body;
    }
  }

  /** A body closed by `end` and its keyword. */
  lemma {:induction false} ClosedBodyReads(body: seq<Stmt>, k: Token, rest: seq<Token>, keep: bool)
    requires ReadableBody(body) && (k == IF || k == SCOPE || k == FUNCTION)
    ensures Block(ShowBody(body, [END, k] + rest), [], keep) == Res(Some(body), rest)
    decreases body, 1
  {
    hide Block, ShowBody, PrintableBody, NothingSwallowed;
    var end := [END, k] + rest;
    BodyReads(body, end, [], keep);
    assert [] + body == body && end[1..] == [k] + rest && end[2..] == rest;
    BlockEnds(end, body, keep);
  }

  lemma {:induction false} BranchReads(b: Branch, rest: seq<Token>, after: seq<Token>, keep: bool)
    requires ReadableBranch(b) && Ends(Peek(rest)) && Block(rest, b.body, keep) == Res(Some(b.body), after)
    ensures Guarded(ShowBranch(b, rest), keep) == Res(Some(b), after)
    decreases b
  {
    hide Block, ShowBody, PrintableBody, NothingSwallowed, Guarded;
    FirstBranchReads(b.cond, b.body, rest, after, keep);
  }

  /** What `if` meets after a branch: the branches still to come, `else`, or nothing more because
      the last block took the `end if`. */
  function Coming(bs: seq<Branch>, otherwise: Else, last: seq<Token>, rest: seq<Token>): seq<Token> {
    if bs == [] && otherwise.NoElse? then rest else ShowElseIfs(bs, last)
  }

  lemma BranchEnd(bs: seq<Branch>, otherwise: Else, last: seq<Token>, rest: seq<Token>, body: seq<Stmt>, keep: bool)
    requires if otherwise.NoElse? then last == [END, IF] + rest else Peek(last) == ELSE
    ensures var t := ShowElseIfs(bs, last);
      Ends(Peek(t)) && Block(t, body, keep) == Res(Some(body), Coming(bs, otherwise, last, rest))
  {
    hide Block, ShowBranch;
    var t := ShowElseIfs(bs, last);
    BlockEnds(t, body, keep);
    if bs == [] && otherwise.NoElse? { assert t[1..] == [IF] + rest && t[2..] == rest; }
  }

  lemma {:induction false} ElseIfsRead(first: Branch, before: seq<Branch>, bs: seq<Branch>,
    otherwise: Else, last: seq<Token>, rest: seq<Token>, keep: bool)
    requires ReadableBranches(bs) && Peek(rest) == SEMICOLON
    requires if otherwise.NoElse? then last == [END, IF] + rest
      else Peek(last) == ELSE && Block(last[1..], [], keep) == Res(Some(otherwise.stmts), rest)
    ensures IfRest(first, before, Coming(bs, otherwise, last, rest), keep)
         == Res(Some(If(first.cond, first.body, before + bs, otherwise)), rest)
    decreases bs
  {
    hide Block, Guarded, ShowBranch, PrintableBranch, CleanBranch;
    if bs == [] {
      assert before + bs == before;
    } else {
      var tail := ShowElseIfs(bs[1..], last);
      var ts := [ELSEIF] + ShowBranch(bs[0], tail);
      BranchEnd(bs[1..], otherwise, last, rest, bs[0].body, keep);
      BranchReads(bs[0], tail, Coming(bs[1..], otherwise, last, rest), keep);
      assert ts[1..] == ShowBranch(bs[0], tail);
      ElseIfsRead(first, before + [bs[0]], bs[1..], otherwise, last, rest, keep);
      assert before + [bs[0]] + bs[1..] == before + bs;
    }
  }

  lemma {:induction false} StmtReads(s: Stmt, rest: seq<Token>, keep: bool)
    requires ReadableStmt(s) && Peek(rest) != SEMICOLON
    requires s.Print? && s.values != [] ==> !Starts(Peek(rest))
    ensures ReadsAs(s, ShowStmt(s, rest), rest, keep)
    decreases s
  {
    hide PrintableStmt, CleanStmt, ReadsAs, ShowStmt;
    match s
    case Eval(_) => EvalReads(s, rest, keep);
    case Input(_) => InputReads(s, rest, keep);
    case Return(_) => ReturnReads(s, rest, keep);
    case Print(_) => PrintReads(s, rest, keep);
    case Scope(_) => ScopeReads(s, rest, keep);
    case Declare(_, _, _) => DeclareReads(s, rest, keep);
    case Function(_, _, _, _) => FunctionReads(s, rest, keep);
    case TypeDef(_, _) => TypeReads(s, rest, keep);
    case While(_, _) => WhileReads(s, rest, keep);
    case If(_, _, _, _) => IfReads(s, rest, keep);
  }

  lemma EvalReads(s: Stmt, rest: seq<Token>, keep: bool)
    requires s.Eval? && ReadableStmt(s) && Peek(rest) != SEMICOLON
    ensures ReadsAs(s, ShowStmt(s, rest), rest, keep)
  {
    hide Show, NotExpr, Shown, Statement;
    var semi := [SEMICOLON] + rest;
    assert semi[1..] == rest;
    Reads(s.expr, semi, keep);
    EvalStep(Show(s.expr, semi), keep);
  }

  lemma EvalStep(ts: seq<Token>, keep: bool)
    requires ts != [] && Starts(ts[0])
    ensures var e := NotExpr(ts, keep);
      Statement(ts, keep) == Res(if e.node.None? then None else Some(Eval(e.node.value)), e.rest)
  {
    hide NotExpr;
  }

  lemma InputReads(s: Stmt, rest: seq<Token>, keep: bool)
    requires s.Input? && ReadableStmt(s) && Peek(rest) != SEMICOLON
    ensures ReadsAs(s, ShowStmt(s, rest), rest, keep)
  {
    hide Show, NotExpr, Shown;
    var semi := [SEMICOLON] + rest;
    assert semi[1..] == rest;
    Reads(s.param, semi, keep);
    assert ShowStmt(s, rest)[1..] == Show(s.param, semi);
  }

  lemma ReturnReads(s: Stmt, rest: seq<Token>, keep: bool)
    requires s.Return? && ReadableStmt(s) && Peek(rest) != SEMICOLON
    ensures ReadsAs(s, ShowStmt(s, rest), rest, keep)
  {
    hide Show, NotExpr, Shown, Statement;
    var semi := [SEMICOLON] + rest;
    assert semi[1..] == rest;
    if s.result.Some? {
      Reads(s.result.value, semi, keep);
      ReturnStep(Show(s.result.value, semi), keep);
    } else {
      ReturnStep(semi, keep);
      assert [RETURN, SEMICOLON] + rest == [RETURN] + semi;
    }
  }

  lemma ReturnStep(ts: seq<Token>, keep: bool)
    ensures Statement([RETURN] + ts, keep) ==
      if Peek(ts) == SEMICOLON then Res(Some(Return(None)), ts[1..])
      else var e := NotExpr(ts, keep); Res(if e.node.None? then None else Some(Return(e.node)), e.rest)
  {
    hide NotExpr;
    assert ([RETURN] + ts)[1..] == ts && (ts != [] ==> ([RETURN] + ts)[2..] == ts[1..]);
  }

  lemma {:induction false} ScopeReads(s: Stmt, rest: seq<Token>, keep: bool)
    requires s.Scope? && ReadableStmt(s)
    ensures ReadsAs(s, ShowStmt(s, rest), rest, keep)
    decreases s, 0
  {
    hide Block, ShowBody, PrintableBody, NothingSwallowed;
    var semi := [SEMICOLON] + rest;
    assert semi[1..] == rest;
    ClosedBodyReads(s.body, SCOPE, semi, keep);
    assert ShowStmt(s, rest)[1..] == ShowBody(s.body, [END, SCOPE] + semi);
  }

  lemma DeclareReads(s: Stmt, rest: seq<Token>, keep: bool)
    requires s.Declare? && ReadableStmt(s) && Peek(rest) != SEMICOLON
    ensures ReadsAs(s, ShowStmt(s, rest), rest, keep)
  {
    hide SignatureOf, ShowSignature;
    var sig := Signature(s.name, s.params, s.typ);
    var ts := ShowStmt(s, rest);
    SignatureRead(sig, rest, keep);
    assert ts[1..] == [FUNCTION] + ShowSignature(sig, rest);
    assert ts[2..] == ShowSignature(sig, rest);
  }

  lemma PrintReads(s: Stmt, rest: seq<Token>, keep: bool)
    requires s.Print? && ReadableStmt(s) && (s.values != [] ==> Peek(rest) != SEMICOLON && !Starts(Peek(rest)))
    ensures ReadsAs(s, ShowStmt(s, rest), rest, keep)
  {
    hide NotExpr, Shown, ShowValues;
    var ts := ShowStmt(s, rest);
    if s.values == [] {
      var semi := [SEMICOLON] + rest;
      assert ts[1..] == semi && semi[1..] == rest;
      NoExpr(semi, keep);
    } else {
      assert ts[1..] == ShowValues(s.values, rest);
      ValuesRead(s.values, rest, [], keep);
      assert [] + s.values == s.values;
    }
  }

  lemma {:induction false} FunctionReads(s: Stmt, rest: seq<Token>, keep: bool)
    requires s.Function? && ReadableStmt(s)
    ensures ReadsAs(s, ShowStmt(s, rest), rest, keep)
    decreases s, 0
  {
    hide Block, ShowBody, PrintableBody, NothingSwallowed, SignatureOf, ShowSignature;
    var semi := [SEMICOLON] + rest;
    assert semi[1..] == rest;
    var ts := ShowStmt(s, rest);
    var body := ShowBody(s.body, [END, FUNCTION] + semi);
    ClosedBodyReads(s.body, FUNCTION, semi, keep);
    SignatureRead(Signature(s.name, s.params, s.typ), body, keep);
    assert ts[1..] == ShowSignature(Signature(s.name, s.params, s.typ), body);
    assert FunctionStmt(ts[1..], keep) == Res(Some(s), semi);
  }

  lemma TypeReads(s: Stmt, rest: seq<Token>, keep: bool)
    requires s.TypeDef? && ReadableStmt(s)
    ensures ReadsAs(s, ShowStmt(s, rest), rest, keep)
  {
    hide TypeFields, ShowFields, Statement;
    var semi := [SEMICOLON] + rest;
    var fields := ShowFields(s.fields, [END] + semi);
    FieldsRead(s.fields, semi, []);
    assert semi[1..] == rest && [] + s.fields == s.fields;
    TypeStep(s.name, fields, keep);
  }

  lemma TypeStep(name: string, ts: seq<Token>, keep: bool)
    ensures Statement([TYPE, ID(name), SEMICOLON] + ts, keep) ==
      var f := TypeFields(ts, []);
      Res(if f.node.None? then None else Some(TypeDef(name, f.node.value)), f.rest)
  {
    hide TypeFields;
    var all := [TYPE, ID(name), SEMICOLON] + ts;
    assert all[1..] == [ID(name), SEMICOLON] + ts;
    assert all[1..][1..] == [SEMICOLON] + ts && ([SEMICOLON] + ts)[1..] == ts;
  }

  lemma {:induction false} WhileReads(s: Stmt, rest: seq<Token>, keep: bool)
    requires s.While? && ReadableStmt(s)
    ensures ReadsAs(s, ShowStmt(s, rest), rest, keep)
    decreases s, 0
  {
    hide Block, ShowBody, PrintableBody, NothingSwallowed, NotExpr, Show, Shown, WhileStmt, Statement, ShowStmt;
    var semi := [SEMICOLON] + rest;
    var end := [LOOP] + semi;
    var body := ShowBody(s.body, end);
    var more := [SEMICOLON] + body;
    Reads(s.cond, more, keep);
    BodyReads(s.body, end, [], keep);
    BlockEnds(end, s.body, keep);
    assert [] + s.body == s.body;
    assert semi[1..] == rest && end[1..] == semi && more[1..] == body;
    WhileStep(Show(s.cond, more), s.cond, more, s.body, semi, keep);
    DoStep([WHILE] + Show(s.cond, more), keep);
    WhileShown(s, rest);
  }

  lemma WhileShown(s: Stmt, rest: seq<Token>)
    requires s.While?
    ensures ShowStmt(s, rest) ==
      [DO] + ([WHILE] + Show(s.cond, [SEMICOLON] + ShowBody(s.body, [LOOP] + ([SEMICOLON] + rest))))
  {
    hide Show, ShowBody;
  }

  lemma DoStep(ts: seq<Token>, keep: bool)
    ensures Statement([DO] + ts, keep) == WhileStmt(ts, keep)
  {
    hide WhileStmt;
    assert ([DO] + ts)[1..] == ts;
  }

  lemma WhileStep(ts: seq<Token>, c: Expr, more: seq<Token>, body: seq<Stmt>, rest: seq<Token>, keep: bool)
    requires NotExpr(ts, keep) == Res(Some(c), more) && Peek(more) == SEMICOLON
    requires Block(more[1..], [], keep) == Res(Some(body), rest)
    ensures WhileStmt([WHILE] + ts, keep) == Res(Some(While(c, body)), rest)
  {
    hide NotExpr, Block;
    assert ([WHILE] + ts)[1..] == ts;
  }

  lemma {:induction false} IfReads(s: Stmt, rest: seq<Token>, keep: bool)
    requires s.If? && ReadableStmt(s)
    ensures ReadsAs(s, ShowStmt(s, rest), rest, keep)
    decreases s, 0
  {
    hide Block, ShowBody, PrintableBody, NothingSwallowed, NotExpr, Show, Shown, ShowElseIfs, PrintableBranches, CleanBranches, Guarded, IfRest;
    var semi := [SEMICOLON] + rest;
    var end := [END, IF] + semi;
    var last := match s.otherwise case NoElse => end case Else(b) => [ELSE] + ShowBody(b, end);
    match s.otherwise {
      case NoElse =>
      case Else(b) =>
        ClosedBodyReads(b, IF, semi, keep);
        assert last[1..] == ShowBody(b, end);
    }
    var first := Branch(s.cond, s.body);
    var tail := ShowElseIfs(s.elseIfs, last);
    var coming := Coming(s.elseIfs, s.otherwise, last, semi);
    BranchEnd(s.elseIfs, s.otherwise, last, semi, s.body, keep);
    FirstBranchReads(s.cond, s.body, tail, coming, keep);
    ElseIfsRead(first, [], s.elseIfs, s.otherwise, last, semi, keep);
    assert [] + s.elseIfs == s.elseIfs && semi[1..] == rest;
    IfShown(s, rest, tail);
    IfStep(ShowBranch(first, tail), first, coming, s, semi, keep);
  }

  lemma IfShown(s: Stmt, rest: seq<Token>, tail: seq<Token>)
    requires s.If?
    requires var end := [END, IF] + ([SEMICOLON] + rest);
      tail == ShowElseIfs(s.elseIfs, match s.otherwise case NoElse => end case Else(b) => [ELSE] + ShowBody(b, end))
    ensures ShowStmt(s, rest) == [IF] + ShowBranch(Branch(s.cond, s.body), tail)
  {
    hide ShowBody, Show, ShowElseIfs;
  }

  lemma IfStep(ts: seq<Token>, first: Branch, coming: seq<Token>, s: Stmt, rest: seq<Token>, keep: bool)
    requires Guarded(ts, keep) == Res(Some(first), coming) && IfRest(first, [], coming, keep) == Res(Some(s), rest)
    ensures Statement([IF] + ts, keep) == Res(Some(s), rest)
  {
    hide NotExpr, Block, Guarded, IfRest;
    assert ([IF] + ts)[1..] == ts;
    assert IfStmt(ts, keep) == Res(Some(s), rest);
  }

  lemma {:induction false} FirstBranchReads(c: Expr, body: seq<Stmt>, rest: seq<Token>, after: seq<Token>, keep: bool)
    requires Shown(c) && ReadableBody(body) && Ends(Peek(rest)) && Block(rest, body, keep) == Res(Some(body), after)
    ensures Guarded(ShowBranch(Branch(c, body), rest), keep) == Res(Some(Branch(c, body)), after)
    decreases body, 1
  {
    hide Block, ShowBody, PrintableBody, NothingSwallowed, NotExpr, Show, Shown;
    var more := [THEN] + ShowBody(body, rest);
    Reads(c, more, keep);
    assert more[1..] == ShowBody(body, rest);
    BodyReads(body, rest, [], keep);
    assert [] + body == body;
  }

  lemma NextProgram(ts: seq<Token>, s: Stmt, rest: seq<Token>, stmts: seq<Stmt>, keep: bool)
    requires ReadsAs(s, ts, rest, keep) && Peek(ts) != EOS
    ensures Program(ts, stmts, keep) == Program(rest, stmts + [s], keep)
  {
    hide Statement;
  }

  lemma {:induction false} ProgramReads(body: seq<Stmt>, stmts: seq<Stmt>, keep: bool)
    requires ReadableBody(body)
    ensures Program(ShowBody(body, []), stmts, keep) == Res(Some(stmts + body), [])
    decreases body
  {
    hide Statement, ShowStmt, PrintableStmt, CleanStmt, ReadsAs;
    if body == [] {
      assert stmts + body == stmts;
    } else {
      var tail := ShowBody(body[1..], []);
      BodyFirst(body[1..], [], body[0]);
      StmtReads(body[0], tail, keep);
      StmtFirst(body[0], tail);
      NextProgram(ShowStmt(body[0], tail), body[0], tail, stmts, keep);
      ProgramReads(body[1..], stmts + [body[0]], keep);
      assert stmts + [body[0]] + body[1..] == stmts + body;
    }
  }
}
