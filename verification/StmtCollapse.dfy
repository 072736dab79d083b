/** The statements the parser builds, from those that list everything it read: repeated keyword arguments
    are collapsed, and what `print` had begun when an expression failed is forgotten. */
module StmtCollapse {
  import opened Options
  import opened Tokens
  import opened Ast
  import opened Productions
  import opened ParserSpec
  import opened Grammar
  import opened ExprComplete
  import opened ExprSound
  import opened Collapse
  import opened StmtGrammar
  import opened StmtSound

  /** Without the mark of a failure half-way. */
  function Printed(values: seq<Expr>): seq<Expr> {
    if values != [] && values[|values| - 1] == Missing then values[..|values| - 1] else values
  }

  function CollapsedStmt(s: Stmt): Stmt
    decreases s
  {
    match s
    case Eval(e) => Eval(Collapsed(e))
    case Print(values) => Print(AllCollapsed(Printed(values)))
    case Input(e) => Input(Collapsed(e))
    case If(c, body, elseIfs, otherwise) =>
      If(Collapsed(c), CollapsedBody(body), CollapsedBranches(elseIfs), CollapsedElse(otherwise))
    case While(c, body) => While(Collapsed(c), CollapsedBody(body))
    case Return(r) => Return(OptionCollapsed(r))
    case Scope(body) => Scope(CollapsedBody(body))
    case Declare(name, params, typ) => Declare(name, ItemsCollapsed(params), typ)
    case Function(name, params, typ, body) => Function(name, ItemsCollapsed(params), typ, CollapsedBody(body))
    case TypeDef(_, _) => s
  }

  function CollapsedBody(body: seq<Stmt>): seq<Stmt>
    decreases body
  {
    if body == [] then [] else CollapsedBody(body[..|body| - 1]) + [CollapsedStmt(body[|body| - 1])]
  }

  function CollapsedBranch(b: Branch): Branch
    decreases b
  {
    Branch(Collapsed(b.cond), CollapsedBody(b.body))
  }

  function CollapsedBranches(bs: seq<Branch>): seq<Branch>
    decreases bs
  {
    if bs == [] then [] else CollapsedBranches(bs[..|bs| - 1]) + [CollapsedBranch(bs[|bs| - 1])]
  }

  function CollapsedElse(o: Else): Else
    decreases o
  {
    match o
    case NoElse => NoElse
    case Else(body) => Else(CollapsedBody(body))
  }

  function OfStmt(r: Res<Stmt>): Res<Stmt> {
    Res(match r.node case None => None case Some(s) => Some(CollapsedStmt(s)), r.rest)
  }

  function OfBody(r: Res<seq<Stmt>>): Res<seq<Stmt>> {
    Res(match r.node case None => None case Some(b) => Some(CollapsedBody(b)), r.rest)
  }

  function OfBranch(r: Res<Branch>): Res<Branch> {
    Res(match r.node case None => None case Some(b) => Some(CollapsedBranch(b)), r.rest)
  }

  function CollapsedSig(s: Signature): Signature { Signature(s.name, ItemsCollapsed(s.params), s.typ) }

  function OfSig(r: Res<Signature>): Res<Signature> {
    Res(match r.node case None => None case Some(s) => Some(CollapsedSig(s)), r.rest)
  }

  // ----- no expression that was read is missing itself

  predicate There(r: Res<Expr>) { r.node.Some? ==> r.node.value != Missing }

  lemma {:induction false} CallThere(left: Expr, ts: seq<Token>)
    requires left != Missing
    ensures There(CallRest(left, ts))
    decreases |ts|
  {
    hide CallArgs;
    if Peek(ts) == LPAREN {
      var a := if Peek(ts[1..]) == RPAREN then Res(Some(Args([], [])), ts[1..]) else CallArgs(ts[1..], [], []);
      var args := if a.node.Some? then a.node.value else NoArgs;
      if Peek(a.rest) == RPAREN { CallThere(Call(left, args), a.rest[1..]); }
    }
  }

  lemma {:induction false} PrimaryThere(ts: seq<Token>)
    ensures There(PrimaryExpr(ts))
    decreases |ts|, 2
  {
    hide NotExpr, ArgList, HashPairs;
    if Peek(ts) == LPAREN { ExprThere(ts[1..]); }
  }

  lemma {:induction false} UnaryThere(ts: seq<Token>)
    ensures There(UnaryExpr(ts))
    decreases |ts|, 6
  {
    hide PrimaryExpr, CallRest;
    PrimaryThere(ts);
    var r := PrimaryExpr(ts);
    if r.node.Some? { CallThere(r.node.value, r.rest); }
    assert There(CallExpr(ts));
    assert There(PowExpr(ts));
    assert There(PostfixExpr(ts));
  }

  lemma {:induction false} LoopThere(l: nat, node: Expr, ts: seq<Token>)
    requires LOGICAL_OR <= l < UNARY && node != Missing
    ensures There(BinaryLoop(l, node, ts))
    decreases |ts|
  {
    hide BinaryExpr;
    if AtLevel(Peek(ts), l) {
      var r := BinaryExpr(l + 1, ts[1..]);
      if r.node.Some? { LoopThere(l, Binary(ts[0].op, node, r.node.value), r.rest); }
    }
  }

  lemma {:induction false} BinaryThere(l: nat, ts: seq<Token>)
    requires LOGICAL_OR <= l <= UNARY
    ensures There(BinaryExpr(l, ts))
    decreases |ts|, 20 - l
  {
    hide UnaryExpr, BinaryLoop;
    if l == UNARY {
      UnaryThere(ts);
    } else {
      BinaryThere(l + 1, ts);
      var r := BinaryExpr(l + 1, ts);
      if r.node.Some? { LoopThere(l, r.node.value, r.rest); }
    }
  }

  lemma {:induction false} ExprThere(ts: seq<Token>)
    ensures There(NotExpr(ts))
    decreases |ts|, 20
  {
    hide BinaryExpr, DimExpr;
    BinaryThere(LOGICAL_OR, ts);
    assert There(ForkExpr(ts));
    hide ForkExpr, NotExpr;
    AssignThere(ts);
    NotThere(ts);
  }

  lemma AssignThere(ts: seq<Token>)
    requires There(ForkExpr(ts))
    ensures There(AssignExpr(ts))
  {
    hide ForkExpr, NotExpr, Items;
  }

  lemma NotThere(ts: seq<Token>)
    requires There(AssignExpr(ts))
    ensures There(NotExpr(ts))
  {
    hide AssignExpr;
  }

  // ----- the statement parser

  lemma {:induction false} ValuesCollapse(ts: seq<Token>, before: seq<Expr>)
    requires Printed(before) == before
    ensures var r := PrintValues(ts, before, true);
      PrintValues(ts, AllCollapsed(before), false) == (AllCollapsed(Printed(r.0)), r.1)
    decreases |ts|
  {
    hide NotExpr, AllCollapsed, Collapsed;
    NotCollapses(ts);
    ExprThere(ts);
    var e := NotExpr(ts, true);
    if e.node.None? {
      assert Printed(before + [Missing]) == before;
    } else {
      var all := before + [e.node.value];
      MoreCollapsed(before, e.node.value);
      assert Printed(all) == all;
      if Peek(e.rest) == SEMICOLON { ValuesCollapse(e.rest[1..], all); }
    }
  }

  lemma SigCollapses(ts: seq<Token>)
    ensures SignatureOf(ts, false) == OfSig(SignatureOf(ts, true))
  {
    hide Params, ItemsCollapsed;
    NoneListed();
    if Peek(ts).ID? && Peek(ts[1..]) == LPAREN { ParamsCollapse(ts[2..]); }
  }

  lemma NoneListed()
    ensures ItemsCollapsed([]) == [] && CollapsedBody([]) == [] && CollapsedBranches([]) == [] && AllCollapsed([]) == []
  {
  }

  lemma ParamsCollapse(ts: seq<Token>)
    ensures Params(ts, false) == OfItems(Params(ts, true))
  {
    hide Items, ItemsCollapsed;
    NoneListed();
    ItemsCollapse(ts, []);
  }

  lemma MoreStmts(body: seq<Stmt>, s: Stmt)
    ensures CollapsedBody(body + [s]) == CollapsedBody(body) + [CollapsedStmt(s)]
  {
    hide CollapsedStmt;
    assert (body + [s])[..|body|] == body;
  }

  lemma MoreBranches(bs: seq<Branch>, b: Branch)
    ensures CollapsedBranches(bs + [b]) == CollapsedBranches(bs) + [CollapsedBranch(b)]
  {
    hide CollapsedBranch;
    assert (bs + [b])[..|bs|] == bs;
  }

  /** The statement the parser builds is what is left of the one that lists everything read. */
  lemma {:induction false} StmtCollapses(ts: seq<Token>)
    ensures Statement(ts, false) == OfStmt(Statement(ts, true))
    decreases |ts|, 1
  {
    hide NotExpr, PrintValues, Block, SignatureOf, IfStmt, WhileStmt, FunctionStmt, TypeStmt;
    hide Collapsed, AllCollapsed, ItemsCollapsed, CollapsedBody, CollapsedBranches;
    NoneListed();
    match Peek(ts) {
      case PRINT => ValuesCollapse(ts[1..], []);
      case INPUT => NotCollapses(ts[1..]); MissingCollapsed();
      case IF => IfCollapses(ts[1..]);
      case DO => WhileCollapses(ts[1..]);
      case RETURN => NotCollapses(ts[1..]);
      case SCOPE => BlockCollapses(ts[1..], []);
      case DECLARE => if Peek(ts[1..]) == FUNCTION { SigCollapses(ts[2..]); }
      case FUNCTION => FunctionCollapses(ts[1..]);
      case TYPE => TypeKept(ts[1..]);
      case _ => NotCollapses(ts);
    }
  }

  lemma MissingCollapsed()
    ensures Collapsed(Missing) == Missing
  {
  }

  lemma TypeKept(ts: seq<Token>)
    ensures OfStmt(TypeStmt(ts)) == TypeStmt(ts)
  {
    hide TypeFields;
  }

  lemma {:induction false} FunctionCollapses(ts: seq<Token>)
    ensures FunctionStmt(ts, false) == OfStmt(FunctionStmt(ts, true))
    decreases |ts|, 3
  {
    hide SignatureOf, Block, ItemsCollapsed, CollapsedBody;
    NoneListed();
    SigCollapses(ts);
    var h := SignatureOf(ts, true);
    if h.node.Some? { BlockCollapses(h.rest, []); }
  }

  lemma {:induction false} WhileCollapses(ts: seq<Token>)
    ensures WhileStmt(ts, false) == OfStmt(WhileStmt(ts, true))
    decreases |ts|, 3
  {
    hide NotExpr, Block, Collapsed, CollapsedBody;
    NoneListed();
    if Peek(ts) == WHILE {
      NotCollapses(ts[1..]);
      var c := NotExpr(ts[1..], true);
      if c.node.Some? { BlockCollapses(After(c.rest, SEMICOLON), []); }
    }
  }

  lemma {:induction false} GuardedCollapses(ts: seq<Token>)
    ensures Guarded(ts, false) == OfBranch(Guarded(ts, true))
    decreases |ts|, 4
  {
    hide NotExpr, Block, Collapsed, CollapsedBody;
    NoneListed();
    NotCollapses(ts);
    var c := NotExpr(ts, true);
    if c.node.Some? && Peek(c.rest) == THEN { BlockCollapses(c.rest[1..], []); }
  }

  lemma {:induction false} IfCollapses(ts: seq<Token>)
    ensures IfStmt(ts, false) == OfStmt(IfStmt(ts, true))
    decreases |ts|, 5
  {
    hide Guarded, IfRest, CollapsedBranch, CollapsedBranches, CollapsedStmt;
    NoneListed();
    GuardedCollapses(ts);
    var g := Guarded(ts, true);
    if g.node.Some? { IfRestCollapses(g.node.value, [], g.rest); }
  }

  lemma {:induction false} IfRestCollapses(first: Branch, before: seq<Branch>, ts: seq<Token>)
    ensures IfRest(CollapsedBranch(first), CollapsedBranches(before), ts, false) == OfStmt(IfRest(first, before, ts, true))
    decreases |ts|, 5
  {
    hide Guarded, Block, IfRest, Collapsed, CollapsedBody, CollapsedBranches;
    NoneListed();
    IfRestStep(first, before, ts, true);
    IfRestStep(CollapsedBranch(first), CollapsedBranches(before), ts, false);
    if Peek(ts) == ELSE {
      BlockCollapses(ts[1..], []);
      var b := Block(ts[1..], [], true);
      if b.node.Some? { IfCollapsed(first, before, Else(b.node.value)); }
    } else if Peek(ts) == ELSEIF {
      GuardedCollapses(ts[1..]);
      var g := Guarded(ts[1..], true);
      if g.node.Some? {
        MoreBranches(before, g.node.value);
        IfRestCollapses(first, before + [g.node.value], g.rest);
      }
    } else {
      IfCollapsed(first, before, NoElse);
    }
  }

  lemma IfCollapsed(first: Branch, bs: seq<Branch>, o: Else)
    ensures CollapsedStmt(If(first.cond, first.body, bs, o)) ==
      If(CollapsedBranch(first).cond, CollapsedBranch(first).body, CollapsedBranches(bs), CollapsedElse(o))
  {
    hide Collapsed, CollapsedBody, CollapsedBranches;
  }

  lemma {:induction false} BlockCollapses(ts: seq<Token>, before: seq<Stmt>)
    ensures Block(ts, CollapsedBody(before), false) == OfBody(Block(ts, before, true))
    decreases |ts|, 3
  {
    hide Statement, CollapsedBody, CollapsedStmt;
    if !StmtRoundTrip.Ends(Peek(ts)) {
      StmtCollapses(ts);
      var s := Statement(ts, true);
      if s.node.Some? {
        MoreStmts(before, s.node.value);
        BlockCollapses(After(s.rest, SEMICOLON), before + [s.node.value]);
      }
    }
  }

  /** The program the parser builds is what is left of the one that lists everything read. */
  lemma {:induction false} ProgramCollapses(ts: seq<Token>, before: seq<Stmt>)
    ensures Program(ts, CollapsedBody(before), false) == OfBody(Program(ts, before, true))
    decreases |ts|
  {
    hide Statement, CollapsedBody, CollapsedStmt;
    if Peek(ts) != EOS {
      StmtCollapses(ts);
      var s := Statement(ts, true);
      if s.node.Some? {
        MoreStmts(before, s.node.value);
        ProgramCollapses(After(s.rest, SEMICOLON), before + [s.node.value]);
      }
    }
  }

  /** The parser's own program is what is left of one that the tokens derive, exactly when what was read
      has no hole. */
  lemma ParserProgramIff(ts: seq<Token>, body: seq<Stmt>, rest: seq<Token>)
    ensures
      (exists all :: Program(ts, [], true) == Res(Some(all), rest) && WholeBody(all) && Program(ts, [], false) == Res(Some(body), rest))
      <==> (exists lines, all :: ProgramMeans(lines, ts, all, rest) && CollapsedBody(all) == body)
  {
    hide Program, WholeBody, CollapsedBody, ProgramMeans;
    NoneListed();
    ProgramCollapses(ts, []);
    if all :| Program(ts, [], true) == Res(Some(all), rest) && WholeBody(all) && Program(ts, [], false) == Res(Some(body), rest) {
      ProgramIff(ts, all, rest);
    }
    if lines, all :| ProgramMeans(lines, ts, all, rest) && CollapsedBody(all) == body {
      ProgramIff(ts, all, rest);
    }
  }

  /** `print (1`, with the parenthesis never closed, is a program that prints nothing, and no derivation
      spells it. */
  lemma ErrorForgotten(n: int)
    ensures Program([PRINT, LPAREN, INT(n)], [], false) == Res(Some([Print([])]), [])
    ensures !exists lines, all, rest :: ProgramMeans(lines, [PRINT, LPAREN, INT(n)], all, rest)
  {
    hide Program, ProgramMeans, WholeBody;
    var ts := [PRINT, LPAREN, INT(n)];
    Unclosed(n);
    forall lines, all, rest ensures !ProgramMeans(lines, ts, all, rest) { ProgramIff(ts, all, rest); }
  }

  lemma Unclosed(n: int)
    ensures var ts := [PRINT, LPAREN, INT(n)];
      && Program(ts, [], false) == Res(Some([Print([])]), [])
      && Program(ts, [], true) == Res(Some([Print([Missing])]), []) && !WholeBody([Print([Missing])])
  {
    hide Statement, PrintValues, NotExpr, Program, CollapsedBody, CollapsedStmt, WholeStmt, Printed;
    var ts := [PRINT, LPAREN, INT(n)];
    var s := Print([Missing]);
    ParenFails(n);
    assert ts == [PRINT] + [LPAREN, INT(n)];
    StmtComplete.PrintStep([LPAREN, INT(n)]);
    HalfRead([LPAREN, INT(n)]);
    OneStatement(ts, s);
    ProgramCollapses(ts, []);
    NoneListed();
    MoreStmts([], s);
    HalfCollapsed(s);
    assert [] + [s] == [s] && [] + [Print([])] == [Print([])];
    assert s in [s];
  }

  lemma OneStatement(ts: seq<Token>, s: Stmt)
    requires Statement(ts) == Res(Some(s), []) && Peek(ts) != EOS
    ensures Program(ts, [], true) == Res(Some([s]), [])
  {
    hide Statement;
    assert [] + [s] == [s];
    assert Program([], [s], true) == Res(Some([s]), []);
  }

  lemma HalfCollapsed(s: Stmt)
    requires s == Print([Missing])
    ensures CollapsedStmt(s) == Print([]) && !WholeStmt(s)
  {
    assert Printed([Missing]) == [] && AllCollapsed([]) == [];
    assert Missing in [Missing] && !Whole(Missing);
  }

  lemma HalfRead(ts: seq<Token>)
    requires NotExpr(ts) == Res(None, []) && ts != []
    ensures PrintValues(ts, []) == ([Missing], [])
  {
    hide NotExpr;
    assert [] + [Missing] == [Missing];
  }

  lemma ParenFails(n: int)
    ensures NotExpr([LPAREN, INT(n)]) == Res(None, [])
  {
    hide NotExpr, AssignExpr, ForkExpr;
    var ts := [LPAREN, INT(n)];
    CompleteBefore(NOT, Atom(INT(n)), []);
    assert ts[1..] == [INT(n)] && Emit(Atom(INT(n)), []) == [INT(n)];
    assert PrimaryExpr(ts) == Res(None, []);
    BinaryFails(LOGICAL_OR, ts);
    ForkFails(ts);
  }

  lemma {:induction false} BinaryFails(l: nat, ts: seq<Token>)
    requires LOGICAL_OR <= l <= UNARY && PrimaryExpr(ts) == Res(None, []) && Peek(ts) == LPAREN
    ensures BinaryExpr(l, ts) == Res(None, [])
    decreases UNARY - l
  {
    hide PrimaryExpr, BinaryLoop;
    if l < UNARY {
      BinaryFails(l + 1, ts);
    } else {
      assert CallExpr(ts) == Res(None, []);
      assert PowExpr(ts) == Res(None, []);
      assert PostfixExpr(ts) == Res(None, []);
    }
  }

  lemma ForkFails(ts: seq<Token>)
    requires BinaryExpr(LOGICAL_OR, ts) == Res(None, []) && Peek(ts) == LPAREN
    ensures NotExpr(ts) == Res(None, [])
  {
    hide BinaryExpr;
    assert ForkExpr(ts) == Res(None, []);
    assert AssignExpr(ts) == Res(None, []);
  }
}
