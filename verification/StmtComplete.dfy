/** Whatever the statement grammar derives, the parser reads to the tree meant. */
module StmtComplete {
  import opened Options
  import opened Tokens
  import opened Ast
  import opened Productions
  import opened ParserSpec
  import opened Grammar
  import opened ExprComplete
  import opened StmtGrammar
  import R = StmtRoundTrip

  // ----- where statements begin

  /** Statements begin neither with a word that ends a block nor at the end of the input. */
  lemma StmtStarts(s: CStmt, rest: seq<Token>)
    requires LegalStmt(s, rest)
    ensures var t := Peek(EmitStmt(s, rest)); t != EOS && !R.Ends(t) && t != SEMICOLON
  {
    hide Derives, Emit, Stops, EmitValues, LegalValues, EmitBlock, LegalBlock, EmitSig, LegalSig, EmitFields, LegalFields;
    hide EmitBranch, LegalBranch, EmitBranches, LegalBranches, EmitElse, LegalElse;
    if s.EvalC? { FirstToken(NOT, s.expr, rest); }
  }

  lemma ExprRead(c: Cst, rest: seq<Token>)
    requires LegalExpr(c, rest)
    ensures NotExpr(Emit(c, rest)) == Res(Some(Erase(c)), rest)
    ensures Emit(c, rest) != [] && Starts(Emit(c, rest)[0])
  {
    hide Derives, Emit, Erase, NotExpr, Stops;
    ExprComplete.Complete(NOT, c, rest);
    FirstToken(NOT, c, rest);
  }

  lemma SemiTaken(semi: bool, rest: seq<Token>)
    requires Settled(semi, rest)
    ensures After(Semi(semi, rest), SEMICOLON) == rest
  {
    assert semi ==> ([SEMICOLON] + rest)[1..] == rest;
  }

  // ----- statements without a body

  lemma {:induction false} ValuesComplete(values: List<Cst>, trailing: bool, rest: seq<Token>, before: seq<Expr>)
    requires LegalValues(values, trailing, rest)
    ensures PrintValues(EmitValues(values, trailing, rest), before) == (before + EraseElems(values), rest)
    decreases values
  {
    hide NotExpr, Emit, Derives, Erase, Stops, Starts;
    match values
    case Nil =>
      R.NoExpr(rest, true);
      assert before + [] == before;
    case Cons(c, Nil) =>
      var next := Semi(trailing, rest);
      ExprRead(c, next);
      assert before + ([Erase(c)] + []) == before + [Erase(c)];
      if trailing {
        assert next[1..] == rest;
        R.NoExpr(rest, true);
        ValuesStep(Emit(c, next), before, Erase(c), next);
      }
    case Cons(c, t) =>
      var more := EmitValues(t, trailing, rest);
      var next := [SEMICOLON] + more;
      ExprRead(c, next);
      assert next[1..] == more;
      ValuesStep(Emit(c, next), before, Erase(c), next);
      ValuesComplete(t, trailing, rest, before + [Erase(c)]);
      assert before + ([Erase(c)] + EraseElems(t)) == before + [Erase(c)] + EraseElems(t);
  }

  lemma ValuesStep(ts: seq<Token>, before: seq<Expr>, e: Expr, rest: seq<Token>)
    requires NotExpr(ts) == Res(Some(e), rest) && Peek(rest) == SEMICOLON
    ensures PrintValues(ts, before) == PrintValues(rest[1..], before + [e])
  {
    hide NotExpr;
  }

  lemma PrintStep(ts: seq<Token>)
    ensures Statement([PRINT] + ts) == Res(Some(Print(PrintValues(ts, []).0)), PrintValues(ts, []).1)
  {
    hide PrintValues;
    assert ([PRINT] + ts)[1..] == ts;
  }

  lemma InputStep(ts: seq<Token>)
    ensures Statement([INPUT] + ts) == Res(Some(Input(OrMissing(NotExpr(ts).node))), After(NotExpr(ts).rest, SEMICOLON))
  {
    hide NotExpr;
    assert ([INPUT] + ts)[1..] == ts;
  }

  lemma ScopeStep(ts: seq<Token>)
    ensures Statement([SCOPE] + ts) ==
      Res(if Block(ts, []).node.None? then None else Some(Scope(Block(ts, []).node.value)), Block(ts, []).rest)
  {
    hide Block;
    assert ([SCOPE] + ts)[1..] == ts;
  }

  lemma DeclareStep(ts: seq<Token>)
    ensures Statement([DECLARE] + ([FUNCTION] + ts)) ==
      var h := SignatureOf(ts);
      if h.node.None? then Res(None, h.rest)
      else Res(Some(Declare(h.node.value.name, h.node.value.params, h.node.value.typ)), h.rest)
  {
    hide SignatureOf;
    var all := [DECLARE] + ([FUNCTION] + ts);
    assert all[1..] == [FUNCTION] + ts && all[2..] == ts;
  }

  lemma FunctionStep(ts: seq<Token>)
    ensures Statement([FUNCTION] + ts) == FunctionStmt(ts)
  {
    hide FunctionStmt;
    assert ([FUNCTION] + ts)[1..] == ts;
  }

  lemma IfStep(ts: seq<Token>)
    ensures Statement([IF] + ts) == IfStmt(ts)
  {
    hide IfStmt;
    assert ([IF] + ts)[1..] == ts;
  }

  lemma TypeStep(ts: seq<Token>)
    ensures Statement([TYPE] + ts) == TypeStmt(ts)
  {
    hide TypeStmt;
    assert ([TYPE] + ts)[1..] == ts;
  }

  function SigOf(sig: CSig): Signature { Signature(sig.name, EraseParams(sig.params), sig.typ) }

  lemma SigComplete(sig: CSig, rest: seq<Token>)
    requires LegalSig(sig, rest)
    ensures SignatureOf(EmitSig(sig, rest)) == Res(Some(SigOf(sig)), rest)
  {
    hide SignatureOf, DerivesItems, EmitItems, EraseItems, Params;
    var end := Semi(sig.semi, rest);
    var tail := EmitType(sig.typ, end);
    SemiTaken(sig.semi, rest);
    match sig.params
    case None => SigStep(sig.name, tail, [], tail, end, sig.typ);
    case Some(items) =>
      ParamsComplete(items, tail);
      var ts := [LPAREN] + EmitItems(items, [RPAREN] + tail);
      assert ts[1..] == EmitItems(items, [RPAREN] + tail);
      SigStep(sig.name, ts, EraseItems(items), tail, end, sig.typ);
  }

  lemma ParamsComplete(items: List<CItem>, tail: seq<Token>)
    requires DerivesItems(items)
    ensures Params(EmitItems(items, [RPAREN] + tail)) == Res(Some(EraseItems(items)), tail)
  {
    hide DerivesItems, LastTakes, Extends, Items;
    var end := [RPAREN] + tail;
    assert end[1..] == tail;
    if items.Cons? {
      LastExtends(items, RPAREN);
      NoRightParen();
      ItemsComplete(items, end, []);
      assert [] + EraseItems(items) == EraseItems(items);
      ItemsStart(items, end);
    }
  }

  lemma NoRightParen()
    ensures !Extends(NOT, RPAREN)
  {
  }

  lemma ItemsStart(items: List<CItem>, rest: seq<Token>)
    requires items.Cons? && DerivesItems(items)
    ensures Peek(EmitItems(items, rest)).ID?
  {
    hide Emit;
    assert items.head.ids != [];
  }

  /** What follows the name: parameters or none, then a type or none. */
  lemma SigStep(name: string, ts: seq<Token>, params: seq<Item>, tail: seq<Token>, end: seq<Token>, typ: Option<string>)
    requires if Peek(ts) == LPAREN then Params(ts[1..]) == Res(Some(params), tail) else ts == tail && params == []
    requires tail == EmitType(typ, end) && (typ.None? ==> Peek(end) != AS)
    ensures SignatureOf([ID(name)] + ts) == Res(Some(Signature(name, params, typ)), After(end, SEMICOLON))
  {
    hide Params;
    var all := [ID(name)] + ts;
    assert all[1..] == ts && (ts != [] ==> all[2..] == ts[1..]);
    if typ.Some? { assert tail[1..] == [ID(typ.value)] + end && tail[2..] == end; }
  }

  lemma {:induction false} FieldsComplete(fields: List<CField>, rest: seq<Token>, before: seq<Decl>)
    requires fields.Cons? && LegalFields(fields, rest) && Peek(rest) == END
    ensures TypeFields(EmitFields(fields, rest), before) == Res(Some(before + EraseFields(fields)), rest[1..])
    decreases fields
  {
    hide DeclExpr, EmitIds;
    var f, t := fields.head, fields.tail;
    var more := EmitFields(t, rest);
    DeclComplete(f.ids, f.trailing, f.typ, Semi(f.semi, more));
    SemiTaken(f.semi, more);
    var d := Decl(f.ids, f.typ);
    if t.Nil? {
      assert before + ([d] + []) == before + [d];
    } else {
      FieldStarts(t.head, EmitFields(t.tail, rest));
      FieldsComplete(t, rest, before + [d]);
      assert before + ([d] + EraseFields(t)) == before + [d] + EraseFields(t);
    }
  }

  lemma FieldStarts(f: CField, rest: seq<Token>)
    requires f.ids != []
    ensures Peek(EmitField(f, rest)).ID?
  {
  }

  lemma TypeComplete(s: CStmt, rest: seq<Token>)
    requires s.TypeC? && LegalStmt(s, rest)
    ensures Statement(EmitStmt(s, rest)) == Res(Some(EraseStmt(s)), rest)
  {
    hide Statement, TypeFields, LegalFields, EmitFields, EraseFields;
    var end := [END] + rest;
    var fields := EmitFields(s.fields, end);
    var ts := [ID(s.name)] + Semi(s.semi, fields);
    TypeStep(ts);
    assert ts[1..] == Semi(s.semi, fields) && end[1..] == rest;
    SemiTaken(s.semi, fields);
    FieldsComplete(s.fields, end, []);
    assert [] + EraseFields(s.fields) == EraseFields(s.fields);
  }

  lemma PlainComplete(s: CStmt, rest: seq<Token>)
    requires s.EvalC? || s.PrintC? || s.InputC? || s.ReturnC? || s.DeclareC?
    requires LegalStmt(s, rest)
    ensures Statement(EmitStmt(s, rest)) == Res(Some(EraseStmt(s)), rest)
  {
    hide Statement, NotExpr, Emit, Erase, Derives, Stops, PrintValues, EmitValues, EraseElems, LegalValues;
    hide EmitSig, LegalSig, SignatureOf, Starts;
    match s
    case EvalC(e) =>
      ExprRead(e, rest);
      R.EvalStep(Emit(e, rest), true);
    case PrintC(values, trailing) =>
      ValuesComplete(values, trailing, rest, []);
      PrintStep(EmitValues(values, trailing, rest));
      assert [] + EraseElems(values) == EraseElems(values);
    case InputC(e, semi) =>
      ExprRead(e, Semi(semi, rest));
      SemiTaken(semi, rest);
      InputStep(Emit(e, Semi(semi, rest)));
    case ReturnC(None) =>
      R.ReturnStep([SEMICOLON] + rest, true);
      assert ([SEMICOLON] + rest)[1..] == rest;
    case ReturnC(Some(e)) =>
      ExprRead(e, rest);
      NotSemicolon(Emit(e, rest));
      R.ReturnStep(Emit(e, rest), true);
    case DeclareC(sig) =>
      SigComplete(sig, rest);
      DeclareStep(EmitSig(sig, rest));
  }

  lemma NotSemicolon(ts: seq<Token>)
    requires ts != [] && Starts(ts[0])
    ensures Peek(ts) != SEMICOLON
  {
  }

  // ----- statements with a body

  /** Every derivation of a statement is read to the statement it means, and up to where it ends. */
  lemma {:induction false} StmtReadsBack(s: CStmt, rest: seq<Token>)
    requires LegalStmt(s, rest)
    ensures Statement(EmitStmt(s, rest)) == Res(Some(EraseStmt(s)), rest)
    decreases s
  {
    hide Statement, Block, EmitBlock, EraseBlock, LegalBlock, Emit, Erase, Derives, Stops, NotExpr;
    hide EmitSig, LegalSig, SignatureOf, EmitBranch, EmitBranches, EmitElse, IfStmt, FunctionStmt, WhileStmt;
    match s
    case EvalC(_) => PlainComplete(s, rest);
    case PrintC(_, _) => PlainComplete(s, rest);
    case InputC(_, _) => PlainComplete(s, rest);
    case ReturnC(_) => PlainComplete(s, rest);
    case DeclareC(_) => PlainComplete(s, rest);
    case TypeC(_, _, _) => TypeComplete(s, rest);
    case IfC(_, _, _) => IfComplete(s, rest);
    case WhileC(_, _, _) => WhileComplete(s, rest);
    case ScopeC(b) =>
      BlockComplete(b, rest, []);
      NothingBefore(EraseBlock(b));
      ScopeStep(EmitBlock(b, rest));
    case FunctionC(sig, b) =>
      SigComplete(sig, EmitBlock(b, rest));
      BlockComplete(b, rest, []);
      NothingBefore(EraseBlock(b));
      FunctionStep(EmitSig(sig, EmitBlock(b, rest)));
      FunctionRead(EmitSig(sig, EmitBlock(b, rest)), SigOf(sig), EmitBlock(b, rest), EraseBlock(b), rest);
  }

  lemma NothingBefore(body: seq<Stmt>)
    ensures [] + body == body
  {
  }

  lemma FunctionRead(ts: seq<Token>, sig: Signature, mid: seq<Token>, body: seq<Stmt>, rest: seq<Token>)
    requires SignatureOf(ts) == Res(Some(sig), mid) && Block(mid, []) == Res(Some(body), rest)
    ensures FunctionStmt(ts) == Res(Some(Function(sig.name, sig.params, sig.typ, body)), rest)
  {
    hide SignatureOf, Block;
  }

  lemma {:induction false} WhileComplete(s: CStmt, rest: seq<Token>)
    requires s.WhileC? && LegalStmt(s, rest)
    ensures Statement(EmitStmt(s, rest)) == Res(Some(EraseStmt(s)), rest)
    decreases s, 0
  {
    hide Statement, WhileStmt, Block, EmitBlock, EraseBlock, LegalBlock, Emit, Erase, Derives, Stops, NotExpr;
    var body := EmitBlock(s.body, rest);
    var more := Semi(s.semi, body);
    ExprRead(s.cond, more);
    SemiTaken(s.semi, body);
    BlockComplete(s.body, rest, []);
    NothingBefore(EraseBlock(s.body));
    R.DoStep([WHILE] + Emit(s.cond, more), true);
    WhileRead(Emit(s.cond, more), Erase(s.cond), more, EraseBlock(s.body), rest);
  }

  lemma WhileRead(ts: seq<Token>, c: Expr, more: seq<Token>, body: seq<Stmt>, rest: seq<Token>)
    requires NotExpr(ts) == Res(Some(c), more) && Block(After(more, SEMICOLON), []) == Res(Some(body), rest)
    ensures WhileStmt([WHILE] + ts) == Res(Some(While(c, body)), rest)
  {
    hide NotExpr, Block;
    assert ([WHILE] + ts)[1..] == ts;
  }

  lemma {:induction false} IfComplete(s: CStmt, rest: seq<Token>)
    requires s.IfC? && LegalStmt(s, rest)
    ensures Statement(EmitStmt(s, rest)) == Res(Some(EraseStmt(s)), rest)
    decreases s, 0
  {
    hide Statement, IfStmt, Guarded, IfRest, EmitBranch, LegalBranch, EmitBranches, LegalBranches, EmitElse, LegalElse;
    hide EraseBranches, EraseElse;
    var last := EmitElse(s.otherwise, rest);
    var more := EmitBranches(s.elseIfs, last);
    IfStep(EmitBranch(s.first, more));
    BranchComplete(s.first, more);
    var first := EraseBranch(s.first);
    IfRead(EmitBranch(s.first, more), first, more);
    BranchesComplete(first, [], s.elseIfs, last);
    assert [] + EraseBranches(s.elseIfs) == EraseBranches(s.elseIfs);
    ElseComplete(first, EraseBranches(s.elseIfs), s.otherwise, rest);
  }

  lemma IfRead(ts: seq<Token>, b: Branch, more: seq<Token>)
    requires Guarded(ts) == Res(Some(b), more)
    ensures IfStmt(ts) == IfRest(b, [], more)
  {
    hide Guarded, IfRest;
  }

  lemma {:induction false} BranchComplete(b: CBranch, rest: seq<Token>)
    requires LegalBranch(b, rest)
    ensures Guarded(EmitBranch(b, rest)) == Res(Some(EraseBranch(b)), rest)
    decreases b
  {
    hide Block, EmitBlock, EraseBlock, LegalBlock, Emit, Erase, Derives, Stops, NotExpr;
    var next := [THEN] + EmitBlock(b.body, rest);
    ExprRead(b.cond, next);
    assert next[1..] == EmitBlock(b.body, rest);
    BlockComplete(b.body, rest, []);
    NothingBefore(EraseBlock(b.body));
  }

  lemma {:induction false} BranchesComplete(first: Branch, before: seq<Branch>, bs: List<CBranch>, rest: seq<Token>)
    requires LegalBranches(bs, rest)
    ensures IfRest(first, before, EmitBranches(bs, rest)) == IfRest(first, before + EraseBranches(bs), rest)
    decreases bs
  {
    hide Guarded, EmitBranch, EraseBranch, LegalBranch, IfRest;
    match bs
    case Nil => assert before + [] == before;
    case Cons(b, t) =>
      var more := EmitBranches(t, rest);
      BranchComplete(b, more);
      ElseIfRead(first, before, EmitBranch(b, more), EraseBranch(b), more);
      BranchesComplete(first, before + [EraseBranch(b)], t, rest);
      assert before + ([EraseBranch(b)] + EraseBranches(t)) == before + [EraseBranch(b)] + EraseBranches(t);
  }

  lemma {:induction false} ElseComplete(first: Branch, bs: seq<Branch>, o: CElse, rest: seq<Token>)
    requires LegalElse(o, rest)
    ensures IfRest(first, bs, EmitElse(o, rest)) == Res(Some(If(first.cond, first.body, bs, EraseElse(o))), rest)
    decreases o
  {
    hide Block, EmitBlock, EraseBlock, LegalBlock, IfRest;
    match o
    case NoElseC => NoElseRead(first, bs, rest);
    case ElseC(b) =>
      BlockComplete(b, rest, []);
      NothingBefore(EraseBlock(b));
      ElseRead(first, bs, EmitBlock(b, rest), EraseBlock(b), rest);
  }

  lemma NoElseRead(first: Branch, before: seq<Branch>, ts: seq<Token>)
    requires Peek(ts) != ELSE && Peek(ts) != ELSEIF
    ensures IfRest(first, before, ts) == Res(Some(If(first.cond, first.body, before, NoElse)), ts)
  {
  }

  lemma ElseRead(first: Branch, before: seq<Branch>, ts: seq<Token>, body: seq<Stmt>, rest: seq<Token>)
    requires Block(ts, []) == Res(Some(body), rest)
    ensures IfRest(first, before, [ELSE] + ts) == Res(Some(If(first.cond, first.body, before, Else(body))), rest)
  {
    hide Block;
    assert ([ELSE] + ts)[1..] == ts;
  }

  lemma ElseIfRead(first: Branch, before: seq<Branch>, ts: seq<Token>, b: Branch, rest: seq<Token>)
    requires Guarded(ts) == Res(Some(b), rest)
    ensures IfRest(first, before, [ELSEIF] + ts) == IfRest(first, before + [b], rest)
  {
    hide Guarded;
    assert ([ELSEIF] + ts)[1..] == ts;
  }

  lemma {:induction false} BlockComplete(b: CBlock, rest: seq<Token>, before: seq<Stmt>)
    requires LegalBlock(b, rest)
    ensures Block(EmitBlock(b, rest), before) == Res(Some(before + EraseBlock(b)), rest)
    decreases b
  {
    hide Block;
    LinesComplete(b.lines, b.closer, rest, before);
  }

  lemma {:induction false} LinesComplete(lines: List<CLine>, c: Closer, rest: seq<Token>, before: seq<Stmt>)
    requires LegalLines(lines, EmitCloser(c, rest)) && LegalCloser(c, rest)
    ensures Block(EmitLines(lines, EmitCloser(c, rest)), before) == Res(Some(before + EraseLines(lines)), rest)
    decreases lines
  {
    hide Block, EmitStmt, EraseStmt, LegalStmt, EmitCloser;
    match lines
    case Nil =>
      CloserRead(c, rest, before);
      assert before + [] == before;
    case Cons(l, t) =>
      var more := EmitLines(t, EmitCloser(c, rest));
      LineComplete(l, more, before);
      LinesComplete(t, c, rest, before + [EraseLine(l)]);
      assert before + ([EraseLine(l)] + EraseLines(t)) == before + [EraseLine(l)] + EraseLines(t);
  }

  lemma CloserRead(c: Closer, rest: seq<Token>, before: seq<Stmt>)
    requires LegalCloser(c, rest)
    ensures Block(EmitCloser(c, rest), before) == Res(Some(before), rest)
  {
    hide BlockMore;
    var ts := EmitCloser(c, rest);
    match c
    case BeforeElse =>
    case AtLoop => assert ts[1..] == rest;
    case AtEnd(t) => assert ts[1..] == [t] + rest && ts[2..] == rest;
  }

  lemma {:induction false} LineComplete(l: CLine, more: seq<Token>, before: seq<Stmt>)
    requires LegalLine(l, more)
    ensures Block(EmitLine(l, more), before) == Block(more, before + [EraseLine(l)])
    ensures Peek(EmitLine(l, more)) != EOS && Statement(EmitLine(l, more)) == Res(Some(EraseLine(l)), Semi(l.semi, more))
    decreases l
  {
    hide Block, Statement, EmitStmt, EraseStmt, LegalStmt;
    var next := Semi(l.semi, more);
    StmtReadsBack(l.stmt, next);
    StmtStarts(l.stmt, next);
    SemiTaken(l.semi, more);
    LineRead(EmitStmt(l.stmt, next), before, EraseStmt(l.stmt), next);
  }

  lemma LineRead(ts: seq<Token>, before: seq<Stmt>, s: Stmt, rest: seq<Token>)
    requires Statement(ts) == Res(Some(s), rest) && !R.Ends(Peek(ts))
    ensures Block(ts, before) == Block(After(rest, SEMICOLON), before + [s])
  {
    hide Statement;
  }

  /** Every derivation of a program is read to the statements it means. */
  lemma {:induction false} ProgramComplete(lines: List<CLine>, rest: seq<Token>, before: seq<Stmt>)
    requires LegalLines(lines, rest) && Peek(rest) == EOS
    ensures Program(EmitLines(lines, rest), before) == Res(Some(before + EraseLines(lines)), rest)
    decreases lines
  {
    hide Statement, EmitLine, EraseLine, LegalLine;
    match lines
    case Nil => assert before + [] == before;
    case Cons(l, t) =>
      var more := EmitLines(t, rest);
      LineComplete(l, more, before);
      LineSemi(l, more);
      ProgramComplete(t, rest, before + [EraseLine(l)]);
      assert before + ([EraseLine(l)] + EraseLines(t)) == before + [EraseLine(l)] + EraseLines(t);
  }

  lemma LineSemi(l: CLine, more: seq<Token>)
    requires LegalLine(l, more)
    ensures After(Semi(l.semi, more), SEMICOLON) == more
  {
    hide LegalStmt;
    SemiTaken(l.semi, more);
  }
}
