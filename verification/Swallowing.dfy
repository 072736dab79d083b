/** Exactly when a program survives printing and reading: `print` goes on for as long as expressions
    follow, so it takes an expression statement after it for one more value. */
module Swallowing {
  import opened Options
  import opened Tokens
  import opened Ast
  import opened ParserSpec
  import opened ExprComplete
  import opened StmtRoundTrip

  // ----- what has been read stays

  lemma {:induction false} ValuesGrow(ts: seq<Token>, before: seq<Expr>, keep: bool)
    ensures before <= PrintValues(ts, before, keep).0
    decreases |ts|
  {
    hide NotExpr;
    var e := NotExpr(ts, keep);
    if e.node.Some? && Peek(e.rest) == SEMICOLON { ValuesGrow(e.rest[1..], before + [e.node.value], keep); }
  }

  lemma {:induction false} StmtsGrow(ts: seq<Token>, stmts: seq<Stmt>, keep: bool)
    ensures var r := Program(ts, stmts, keep); r.node.Some? ==> stmts <= r.node.value
    decreases |ts|
  {
    hide Statement;
    if Peek(ts) != EOS {
      var s := Statement(ts, keep);
      if s.node.Some? { StmtsGrow(After(s.rest, SEMICOLON), stmts + [s.node.value], keep); }
    }
  }

  lemma {:induction false} BlockGrows(ts: seq<Token>, stmts: seq<Stmt>, keep: bool)
    ensures var r := Block(ts, stmts, keep); r.node.Some? ==> stmts <= r.node.value
    decreases |ts|
  {
    hide Statement;
    var s := Statement(ts, keep);
    if s.node.Some? && Block(ts, stmts, keep) == BlockMore(ts, stmts, keep) {
      BlockGrows(After(s.rest, SEMICOLON), stmts + [s.node.value], keep);
    }
  }

  lemma {:induction false} IfKeeps(first: Branch, elseIfs: seq<Branch>, ts: seq<Token>, keep: bool)
    ensures var r := IfRest(first, elseIfs, ts, keep);
      r.node.Some? ==> r.node.value.If? && r.node.value.cond == first.cond && r.node.value.body == first.body
                       && elseIfs <= r.node.value.elseIfs
    decreases |ts|
  {
    hide Block, Guarded;
    if Peek(ts) == ELSEIF {
      var g := Guarded(ts[1..], keep);
      if g.node.Some? { IfKeeps(first, elseIfs + [g.node.value], g.rest, keep); }
    }
  }

  // ----- what `print` takes

  /** The values printed by `s`, then an expression: `print` takes that expression too. */
  lemma {:induction false} ValuesSwallow(values: seq<Expr>, e: Expr, rest: seq<Token>, before: seq<Expr>, keep: bool)
    requires (forall v :: v in values ==> Shown(v)) && Shown(e)
    ensures |PrintValues(ShowValues(values, Show(e, [SEMICOLON] + rest)), before, keep).0| > |before| + |values|
    decreases values
  {
    hide NotExpr, Show, Shown, Starts;
    var next := Show(e, [SEMICOLON] + rest);
    if values == [] {
      Reads(e, [SEMICOLON] + rest, keep);
      assert ([SEMICOLON] + rest)[1..] == rest;
      ValuesGrow(rest, before + [e], keep);
    } else {
      var more := [SEMICOLON] + ShowValues(values[1..], next);
      Reads(values[0], more, keep);
      assert more[1..] == ShowValues(values[1..], next);
      ValuesSwallow(values[1..], e, rest, before + [values[0]], keep);
    }
  }

  lemma PrintSwallows(s: Stmt, t: Stmt, rest: seq<Token>, keep: bool)
    requires Swallows(s, t) && PrintableStmt(s) && PrintableStmt(t)
    ensures var r := Statement(ShowStmt(s, ShowStmt(t, rest)), keep);
      r.node.Some? && r.node.value.Print? && |r.node.value.values| > |s.values|
  {
    hide NotExpr, Shown, ShowValues, Show;
    var ts := ShowStmt(s, ShowStmt(t, rest));
    assert ts[1..] == ShowValues(s.values, Show(t.expr, [SEMICOLON] + rest));
    ValuesSwallow(s.values, t.expr, rest, [], keep);
  }

  // ----- a statement with something swallowed inside reads back as another

  lemma {:induction false} StmtDiffers(s: Stmt, rest: seq<Token>, keep: bool)
    requires PrintableStmt(s) && !CleanStmt(s)
    ensures Statement(ShowStmt(s, rest), keep).node != Some(s)
    decreases s
  {
    hide Statement, ShowStmt, PrintableBody, NothingSwallowed, PrintableBranches, CleanBranches;
    match s
    case Scope(_) => ScopeDiffers(s, rest, keep);
    case Function(_, _, _, _) => FunctionDiffers(s, rest, keep);
    case While(_, _) => WhileDiffers(s, rest, keep);
    case If(_, _, _, _) => IfDiffers(s, rest, keep);
  }

  lemma {:induction false} ScopeDiffers(s: Stmt, rest: seq<Token>, keep: bool)
    requires s.Scope? && PrintableStmt(s) && !CleanStmt(s)
    ensures Statement(ShowStmt(s, rest), keep).node != Some(s)
    decreases s, 0
  {
    hide Block, ShowBody, PrintableBody, NothingSwallowed;
    var end := [END, SCOPE] + ([SEMICOLON] + rest);
    BodyDiffers(s.body, end, [], keep);
    assert [] + s.body == s.body;
    assert ShowStmt(s, rest)[1..] == ShowBody(s.body, end);
  }

  lemma {:induction false} FunctionDiffers(s: Stmt, rest: seq<Token>, keep: bool)
    requires s.Function? && PrintableStmt(s) && !CleanStmt(s)
    ensures Statement(ShowStmt(s, rest), keep).node != Some(s)
    decreases s, 0
  {
    hide Block, ShowBody, PrintableBody, NothingSwallowed, SignatureOf, ShowSignature;
    var body := ShowBody(s.body, [END, FUNCTION] + ([SEMICOLON] + rest));
    var ts := ShowStmt(s, rest);
    BodyDiffers(s.body, [END, FUNCTION] + ([SEMICOLON] + rest), [], keep);
    assert [] + s.body == s.body;
    SignatureRead(Signature(s.name, s.params, s.typ), body, keep);
    assert ts[1..] == ShowSignature(Signature(s.name, s.params, s.typ), body);
    assert FunctionStmt(ts[1..], keep).node != Some(s);
  }

  lemma {:induction false} WhileDiffers(s: Stmt, rest: seq<Token>, keep: bool)
    requires s.While? && PrintableStmt(s) && !CleanStmt(s)
    ensures Statement(ShowStmt(s, rest), keep).node != Some(s)
    decreases s, 0
  {
    hide Block, ShowBody, PrintableBody, NothingSwallowed, NotExpr, Show, Shown, WhileStmt;
    var end := [LOOP] + ([SEMICOLON] + rest);
    var body := ShowBody(s.body, end);
    var more := [SEMICOLON] + body;
    Reads(s.cond, more, keep);
    BodyDiffers(s.body, end, [], keep);
    assert [] + s.body == s.body && more[1..] == body;
    assert ShowStmt(s, rest)[1..] == [WHILE] + Show(s.cond, more);
    WhileOther(Show(s.cond, more), s.cond, more, s.body, keep);
  }

  lemma WhileOther(ts: seq<Token>, c: Expr, more: seq<Token>, body: seq<Stmt>, keep: bool)
    requires NotExpr(ts, keep) == Res(Some(c), more) && Peek(more) == SEMICOLON
    requires Block(more[1..], [], keep).node != Some(body)
    ensures WhileStmt([WHILE] + ts, keep).node != Some(While(c, body))
  {
    hide NotExpr, Block;
    assert ([WHILE] + ts)[1..] == ts;
  }

  lemma {:induction false} IfDiffers(s: Stmt, rest: seq<Token>, keep: bool)
    requires s.If? && PrintableStmt(s) && !CleanStmt(s)
    ensures Statement(ShowStmt(s, rest), keep).node != Some(s)
    decreases s, 0
  {
    hide Block, ShowBody, PrintableBody, NothingSwallowed, NotExpr, Show, Shown, ShowElseIfs;
    hide PrintableBranches, CleanBranches, Guarded, IfRest, ShowBranch;
    var semi := [SEMICOLON] + rest;
    var end := [END, IF] + semi;
    var last := match s.otherwise case NoElse => end case Else(b) => [ELSE] + ShowBody(b, end);
    var first := Branch(s.cond, s.body);
    var tail := ShowElseIfs(s.elseIfs, last);
    IfShown(s, rest, tail);
    BranchEnd(s.elseIfs, s.otherwise, last, semi, s.body, keep);
    var ts := ShowBranch(first, tail);
    var g := Guarded(ts, keep);
    if NothingSwallowed(s.body) {
      var coming := Coming(s.elseIfs, s.otherwise, last, semi);
      FirstBranchReads(s.cond, s.body, tail, coming, keep);
      if !CleanElse(s.otherwise) { ElseDiffers(s.otherwise, end, keep); }
      ElseIfsDiffer(first, [], s.elseIfs, s.otherwise, end, semi, keep);
      assert [] + s.elseIfs == s.elseIfs;
    } else {
      FirstBranchDiffers(s.cond, s.body, tail, keep);
      if g.node.Some? { IfKeeps(g.node.value, [], g.rest, keep); }
    }
    IfOther(ts, s, keep);
  }

  lemma IfOther(ts: seq<Token>, s: Stmt, keep: bool)
    requires var g := Guarded(ts, keep); g.node.Some? ==> IfRest(g.node.value, [], g.rest, keep).node != Some(s)
    ensures Statement([IF] + ts, keep).node != Some(s)
  {
    hide NotExpr, Block, Guarded, IfRest;
    assert ([IF] + ts)[1..] == ts;
    assert IfStmt(ts, keep).node != Some(s);
  }

  lemma {:induction false} FirstBranchDiffers(c: Expr, body: seq<Stmt>, rest: seq<Token>, keep: bool)
    requires Shown(c) && PrintableBody(body) && !NothingSwallowed(body) && Ends(Peek(rest))
    ensures var g := Guarded(ShowBranch(Branch(c, body), rest), keep); g.node.Some? ==> g.node.value.body != body
    decreases body, 1
  {
    hide Block, ShowBody, PrintableBody, NothingSwallowed, NotExpr, Show, Shown;
    var more := [THEN] + ShowBody(body, rest);
    Reads(c, more, keep);
    assert more[1..] == ShowBody(body, rest);
    BodyDiffers(body, rest, [], keep);
    assert [] + body == body;
  }

  lemma {:induction false} BranchDiffers(b: Branch, rest: seq<Token>, keep: bool)
    requires PrintableBranch(b) && !CleanBranch(b) && Ends(Peek(rest))
    ensures var g := Guarded(ShowBranch(b, rest), keep); g.node.Some? ==> g.node.value.body != b.body
    decreases b
  {
    hide Guarded, ShowBranch, PrintableBody, NothingSwallowed;
    FirstBranchDiffers(b.cond, b.body, rest, keep);
    assert Branch(b.cond, b.body) == b;
  }

  /** The `else` block reads back as another one. */
  predicate ElseOther(otherwise: Else, end: seq<Token>, keep: bool) {
    otherwise.Else? && Block(ShowBody(otherwise.stmts, end), [], keep).node != Some(otherwise.stmts)
  }

  predicate CleanElse(otherwise: Else) { otherwise.Else? ==> NothingSwallowed(otherwise.stmts) }

  /** The `elseif`s and the `else`, one of which has something swallowed inside. */
  lemma {:induction false} ElseIfsDiffer(first: Branch, before: seq<Branch>, bs: seq<Branch>,
    otherwise: Else, end: seq<Token>, rest: seq<Token>, keep: bool)
    requires PrintableBranches(bs) && (otherwise.Else? ==> PrintableBody(otherwise.stmts))
    requires end == [END, IF] + rest && !(CleanBranches(bs) && CleanElse(otherwise))
    requires !CleanElse(otherwise) ==> ElseOther(otherwise, end, keep)
    ensures var last := match otherwise case NoElse => end case Else(b) => [ELSE] + ShowBody(b, end);
      IfRest(first, before, Coming(bs, otherwise, last, rest), keep).node
        != Some(If(first.cond, first.body, before + bs, otherwise))
    decreases bs
  {
    hide Block, Guarded, ShowBranch, ShowBody, PrintableBranch, CleanBranch, PrintableBody, NothingSwallowed;
    var last := match otherwise case NoElse => end case Else(b) => [ELSE] + ShowBody(b, end);
    if bs == [] {
      var b := otherwise.stmts;
      assert last[1..] == ShowBody(b, end) && Coming(bs, otherwise, last, rest) == last;
    } else {
      var tail := ShowElseIfs(bs[1..], last);
      var ts := [ELSEIF] + ShowBranch(bs[0], tail);
      assert ts[1..] == ShowBranch(bs[0], tail);
      BranchEnd(bs[1..], otherwise, last, rest, bs[0].body, keep);
      if CleanBranch(bs[0]) {
        BranchReads(bs[0], tail, Coming(bs[1..], otherwise, last, rest), keep);
        ElseIfsDiffer(first, before + [bs[0]], bs[1..], otherwise, end, rest, keep);
        assert before + [bs[0]] + bs[1..] == before + bs;
      } else {
        BranchDiffers(bs[0], tail, keep);
        var g := Guarded(ts[1..], keep);
        if g.node.Some? {
          IfKeeps(first, before + [g.node.value], g.rest, keep);
          assert (before + bs)[|before|] == bs[0] && (before + [g.node.value])[|before|] == g.node.value;
        }
      }
    }
  }

  lemma {:induction false} ElseDiffers(otherwise: Else, end: seq<Token>, keep: bool)
    requires otherwise.Else? && PrintableBody(otherwise.stmts) && !NothingSwallowed(otherwise.stmts) && Ends(Peek(end))
    ensures ElseOther(otherwise, end, keep)
    decreases otherwise
  {
    hide Block, ShowBody, PrintableBody, NothingSwallowed;
    BodyDiffers(otherwise.stmts, end, [], keep);
    assert [] + otherwise.stmts == otherwise.stmts;
  }

  /** The first statement reads back as another one: it contains something swallowed, or swallows. */
  lemma {:induction false} HeadDiffers(body: seq<Stmt>, rest: seq<Token>, keep: bool)
    requires body != [] && PrintableBody(body)
    requires !CleanStmt(body[0]) || (|body| > 1 && Swallows(body[0], body[1]))
    ensures Statement(ShowBody(body, rest), keep).node != Some(body[0])
    decreases body, 0
  {
    hide Statement, ShowStmt, PrintableStmt, CleanStmt;
    if !CleanStmt(body[0]) {
      StmtDiffers(body[0], ShowBody(body[1..], rest), keep);
    } else {
      var after := ShowBody(body[1..][1..], rest);
      assert ShowBody(body[1..], rest) == ShowStmt(body[1], after);
      PrintSwallows(body[0], body[1], after, keep);
    }
  }

  lemma {:induction false} BodyDiffers(body: seq<Stmt>, rest: seq<Token>, stmts: seq<Stmt>, keep: bool)
    requires PrintableBody(body) && !NothingSwallowed(body) && Ends(Peek(rest))
    ensures Block(ShowBody(body, rest), stmts, keep).node != Some(stmts + body)
    decreases body, 1, |body|
  {
    hide Statement, Block, ShowStmt, PrintableStmt, CleanStmt, ReadsAs;
    var tail := ShowBody(body[1..], rest);
    var ts := ShowStmt(body[0], tail);
    StmtFirst(body[0], tail);
    if !CleanStmt(body[0]) || (|body| > 1 && Swallows(body[0], body[1])) {
      HeadDiffers(body, rest, keep);
      var r := Statement(ts, keep);
      OneRead(ts, stmts, keep);
      if r.node.Some? {
        BlockGrows(After(r.rest, SEMICOLON), stmts + [r.node.value], keep);
        assert (stmts + body)[|stmts|] == body[0] && (stmts + [r.node.value])[|stmts|] == r.node.value;
      }
    } else {
      BodyFirst(body[1..], rest, body[0]);
      StmtReads(body[0], tail, keep);
      BlockStep(ts, body[0], tail, stmts, keep);
      BodyDiffers(body[1..], rest, stmts + [body[0]], keep);
      assert stmts + [body[0]] + body[1..] == stmts + body;
    }
  }

  lemma OneRead(ts: seq<Token>, stmts: seq<Stmt>, keep: bool)
    requires !Ends(Peek(ts))
    ensures var r := Statement(ts, keep);
      Block(ts, stmts, keep) == if r.node.None? then Res(None, r.rest)
        else Block(After(r.rest, SEMICOLON), stmts + [r.node.value], keep)
  {
    hide Statement;
  }

  lemma {:induction false} ProgramDiffers(body: seq<Stmt>, stmts: seq<Stmt>, keep: bool)
    requires PrintableBody(body) && !NothingSwallowed(body)
    ensures Program(ShowBody(body, []), stmts, keep).node != Some(stmts + body)
    decreases |body|
  {
    hide Statement, ShowStmt, PrintableStmt, CleanStmt, ReadsAs;
    var tail := ShowBody(body[1..], []);
    var ts := ShowStmt(body[0], tail);
    StmtFirst(body[0], tail);
    if !CleanStmt(body[0]) || (|body| > 1 && Swallows(body[0], body[1])) {
      HeadDiffers(body, [], keep);
      var r := Statement(ts, keep);
      if r.node.Some? {
        StmtsGrow(After(r.rest, SEMICOLON), stmts + [r.node.value], keep);
        assert (stmts + body)[|stmts|] == body[0] && (stmts + [r.node.value])[|stmts|] == r.node.value;
      }
    } else {
      BodyFirst(body[1..], [], body[0]);
      StmtReads(body[0], tail, keep);
      NextProgram(ts, body[0], tail, stmts, keep);
      ProgramDiffers(body[1..], stmts + [body[0]], keep);
      assert stmts + [body[0]] + body[1..] == stmts + body;
    }
  }

  /** A printable program reads back as itself exactly when nowhere, at any depth, a `print` with
      values is directly followed by an expression statement. */
  lemma ProgramRoundTripIff(body: seq<Stmt>, keep: bool)
    requires PrintableBody(body)
    ensures Program(ShowBody(body, []), [], keep) == Res(Some(body), []) <==> NothingSwallowed(body)
  {
    hide Program, ShowBody, PrintableBody, NothingSwallowed;
    assert [] + body == body;
    if NothingSwallowed(body) {
      ProgramReads(body, [], keep);
    } else {
      ProgramDiffers(body, [], keep);
    }
  }
}
