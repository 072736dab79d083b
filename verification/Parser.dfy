/** The recursive-descent parser over a stream of tokens. Every method leaves the stream, and
    returns the tree, that the corresponding function of `ParserSpec` says. */
module Parser {
  import opened Options
  import opened Tokens
  import opened Ast
  import opened Productions
  import Spec = ParserSpec

  class Parser {
    /** The current token and everything the lexer has still to deliver. */
    var toks: seq<Token>

    constructor (toks: seq<Token>)
      ensures this.toks == toks
    {
      this.toks := toks;
    }

    /** `next`; asking for more after the end of the source is not allowed. */
    method Next()
      requires Peek(toks) != EOS
      modifies this
      ensures toks == old(toks)[1..]
    {
      toks := toks[1..];
    }

    method Accept(t: Token) returns (accepted: bool)
      requires t != EOS
      modifies this
      ensures accepted == (Peek(old(toks)) == t)
      ensures toks == Spec.After(old(toks), t)
    {
      accepted := Peek(toks) == t;
      if accepted {
        Next();
      }
    }

    // ----- expressions

    method ParenExpr() returns (node: Option<Expr>)
      modifies this
      ensures Peek(old(toks)) == LPAREN ==> Spec.Res(node, toks) == Spec.PrimaryExpr(old(toks), false)
      ensures Peek(old(toks)) != LPAREN ==> node.None? && toks == old(toks)
      decreases |toks|, 1
    {
      hide Spec.NotExpr, Spec.ArgList, Spec.HashPairs;
      var ok := Accept(LPAREN);
      if !ok {
        return None;
      }
      node := NotExpr();
      if node.None? {
        return;
      }
      ok := Accept(RPAREN);
      if !ok {
        return None;
      }
    }

    method ArgList(delim: Token, before: seq<Expr>) returns (vals: Option<seq<Expr>>)
      modifies this
      ensures Spec.Res(vals, toks) == Spec.ArgList(old(toks), delim, before, false)
      decreases |toks|, 21
    {
      hide Spec.NotExpr;
      if Peek(toks) == delim {
        return Some(before);
      }
      var val := NotExpr();
      if val.None? {
        return None;
      }
      vals := Some(before + [val.value]);
      var comma := Accept(COMMA);
      if comma {
        vals := ArgList(delim, before + [val.value]);
      }
    }

    method ArrayExpr() returns (node: Option<Expr>)
      requires Peek(toks) == LBRACK
      modifies this
      ensures Spec.Res(node, toks) == Spec.PrimaryExpr(old(toks), false)
      decreases |toks|, 1
    {
      hide Spec.NotExpr, Spec.ArgList, Spec.HashPairs;
      Next();
      var vals := ArgList(RBRACK, []);
      if vals.None? {
        return None;
      }
      var ok := Accept(RBRACK);
      node := if ok then Some(Array(vals.value)) else None;
    }

    method HashPairs(delim: Token, before: seq<Pair>) returns (pairs: Option<seq<Pair>>)
      modifies this
      ensures Spec.Res(pairs, toks) == Spec.HashPairs(old(toks), delim, before, false)
      decreases |toks|, 21
    {
      hide Spec.NotExpr;
      if Peek(toks) == delim {
        return Some(before);
      }
      var key := NotExpr();
      if key.None? {
        return None;
      }
      var ok := Accept(AS);
      if !ok {
        return None;
      }
      var val := NotExpr();
      if val.None? {
        return None;
      }
      var all := before + [Pair(key.value, val.value)];
      pairs := Some(all);
      ok := Accept(COMMA);
      if ok {
        pairs := HashPairs(delim, all);
      }
    }

    method HashExpr() returns (node: Option<Expr>)
      requires Peek(toks) == LBRACE
      modifies this
      ensures Spec.Res(node, toks) == Spec.PrimaryExpr(old(toks), false)
      decreases |toks|, 1
    {
      hide Spec.NotExpr, Spec.ArgList, Spec.HashPairs;
      Next();
      var pairs := HashPairs(RBRACE, []);
      if pairs.None? {
        return None;
      }
      var ok := Accept(RBRACE);
      node := if ok then Some(Hash(pairs.value)) else None;
    }

    method PrimaryExpr() returns (node: Option<Expr>)
      modifies this
      ensures Spec.Res(node, toks) == Spec.PrimaryExpr(old(toks), false)
      decreases |toks|, 2
    {
      hide Spec.NotExpr, Spec.ArgList, Spec.HashPairs;
      node := None;
      match Peek(toks) {
        case ID(n) => node := Some(Id(n));
        case INT(n) => node := Some(Int(n));
        case DOUBLE(d) => node := Some(Double(d));
        case STRING(s) => node := Some(Str(s));
        case LBRACK =>
          node := ArrayExpr();
          return;
        case LBRACE =>
          node := HashExpr();
          return;
        case _ =>
      }
      if node.Some? {
        Next();
        return;
      }
      node := ParenExpr();
    }

    method CallArgs() returns (args: Option<Args>)
      modifies this
      ensures Spec.Res(args, toks) == Spec.CallArgs(old(toks), [], [], false)
      decreases |toks|, 21
    {
      hide Spec.NotExpr;
      var vals: seq<Expr>, named: seq<Named> := [], [];
      var more := true;
      while more
        invariant |toks| <= |old(toks)|
        invariant more ==> Spec.CallArgs(toks, vals, named, false) == Spec.CallArgs(old(toks), [], [], false)
        invariant !more ==> Spec.Res(Some(Args(vals, named)), toks) == Spec.CallArgs(old(toks), [], [], false)
        decreases more, |toks|
      {
        var node := NotExpr();
        if node.None? {
          return None;
        }
        var keyword := Accept(AS);
        if keyword {
          if !node.value.Str? && !node.value.Id? {
            return None;
          }
          var val := NotExpr();
          var key := if node.value.Str? then node.value.text else node.value.name;
          named := SetNamed(named, key, Spec.OrMissing(val));
        } else {
          vals := vals + [node.value];
        }
        more := Accept(COMMA);
      }
      args := Some(Args(vals, named));
    }

    method CallExpr(left: Option<Expr>) returns (node: Option<Expr>)
      modifies this
      ensures Spec.Res(node, toks)
           == if left.Some? then Spec.CallRest(left.value, old(toks), false) else Spec.CallExpr(old(toks), false)
      decreases |toks|, if left.Some? then 0 else 3
    {
      hide Spec.PrimaryExpr, Spec.CallArgs;
      node := left;
      if left.None? {
        node := PrimaryExpr();
        if node.None? {
          return;
        }
      }
      var open := Accept(LPAREN);
      if open {
        var args: Option<Args> := Some(Args([], []));
        if Peek(toks) != RPAREN {
          args := CallArgs();
          if Peek(toks) != RPAREN {
            return None;
          }
        }
        Next();
        node := Some(Call(node.value, if args.Some? then args.value else NoArgs));
      }
      assert Peek(toks) != LPAREN ==> Spec.CallRest(node.value, toks, false) == Spec.Res(node, toks);
      if Peek(toks) == OP(Dot) && left.Some? {
        return;
      } else if Peek(toks) == LPAREN {
        node := CallExpr(node);
      }
    }

    method PowExpr() returns (node: Option<Expr>)
      modifies this
      ensures Spec.Res(node, toks) == Spec.PowExpr(old(toks), false)
      decreases |toks|, 4
    {
      hide Spec.CallExpr;
      node := CallExpr(None);
      if node.None? {
        return;
      }
      var pow := Accept(OP(Pow));
      if pow {
        var right := CallExpr(None);
        node := if right.Some? then Some(Binary(Pow, node.value, right.value)) else None;
      }
    }

    method PostfixExpr() returns (node: Option<Expr>)
      modifies this
      ensures Spec.Res(node, toks) == Spec.PostfixExpr(old(toks), false)
      decreases |toks|, 5
    {
      hide Spec.PowExpr;
      node := PowExpr();
      if node.None? {
        return;
      }
      if Spec.IsPostfix(Peek(toks)) {
        node := Some(Unary(Peek(toks).op, node.value, true));
        Next();
      }
    }

    method UnaryExpr() returns (node: Option<Expr>)
      modifies this
      ensures Spec.Res(node, toks) == Spec.UnaryExpr(old(toks), false)
      decreases |toks|, 6
    {
      hide Spec.PostfixExpr;
      if Spec.IsPrefix(Peek(toks)) {
        var op := Peek(toks).op;
        Next();
        var operand := UnaryExpr();
        return Some(Unary(op, Spec.OrMissing(operand), false));
      }
      node := PostfixExpr();
    }

    /** The ten functions from `multiplicative_expr` to the loop of `logical_or_expr`. */
    method BinaryExpr(l: nat) returns (node: Option<Expr>)
      requires LOGICAL_OR <= l <= UNARY
      modifies this
      ensures Spec.Res(node, toks) == Spec.BinaryExpr(l, old(toks), false)
      decreases |toks|, 20 - l
    {
      hide Spec.UnaryExpr;
      if l == UNARY {
        node := UnaryExpr();
        return;
      }
      node := BinaryExpr(l + 1);
      if node.None? {
        return;
      }
      while Spec.AtLevel(Peek(toks), l)
        invariant |toks| <= |old(toks)| && node.Some?
        invariant Spec.BinaryLoop(l, node.value, toks, false) == Spec.BinaryExpr(l, old(toks), false)
        decreases |toks|
      {
        var op := Peek(toks).op;
        Next();
        var right := BinaryExpr(l + 1);
        if right.None? {
          return None;
        }
        node := Some(Binary(op, node.value, right.value));
      }
    }

    /** `logical_or_expr`: the chain, then an optional `&`. */
    method ForkExpr() returns (node: Option<Expr>)
      modifies this
      ensures Spec.Res(node, toks) == Spec.ForkExpr(old(toks), false)
      decreases |toks|, 18
    {
      hide Spec.BinaryExpr;
      node := BinaryExpr(LOGICAL_OR);
      if node.None? {
        return;
      }
      var fork := Accept(OP(Fork));
      if fork {
        node := Some(Call(Id("fork"), Args([node.value], [])));
      }
    }

    method AssignExpr() returns (node: Option<Expr>)
      modifies this
      ensures Spec.Res(node, toks) == Spec.AssignExpr(old(toks), false)
      decreases |toks|, 19
    {
      hide Spec.ForkExpr, Spec.NotExpr, Spec.DimExpr;
      var dim := Accept(DIM);
      if dim {
        node := DimExpr();
        return;
      }
      node := ForkExpr();
      if node.None? {
        return;
      }
      if Spec.IsAssign(Peek(toks)) {
        var op := Peek(toks).op;
        Next();
        var right := NotExpr();
        if right.None? {
          return None;
        }
        node := Some(Binary(op, node.value, right.value));
      }
    }

    method NotExpr() returns (node: Option<Expr>)
      modifies this
      ensures Spec.Res(node, toks) == Spec.NotExpr(old(toks), false)
      decreases |toks|, 20
    {
      hide Spec.AssignExpr;
      var lnot := Accept(OP(LNot));
      if lnot {
        var operand := NotExpr();
        if operand.None? {
          return None;
        }
        return Some(Unary(LNot, operand.value, false));
      }
      node := AssignExpr();
    }

    // ----- declarations

    method DeclExpr() returns (decl: Option<Decl>)
      modifies this
      ensures Spec.Res(decl, toks) == Spec.DeclExpr(old(toks))
      decreases |toks|, 0
    {
      if !Peek(toks).ID? {
        return None;
      }
      var ids: seq<string> := [];
      var more := true;
      while more && Peek(toks).ID?
        invariant |toks| <= |old(toks)|
        invariant more ==> Spec.DeclIds(toks, ids) == Spec.DeclIds(old(toks), [])
        invariant !more ==> (ids, toks) == Spec.DeclIds(old(toks), [])
        decreases |toks|
      {
        ids := ids + [Peek(toks).name];
        Next();
        more := Accept(COMMA);
      }
      var ok := Accept(AS);
      if !ok || !Peek(toks).ID? {
        return None;
      }
      var typ := Peek(toks).name;
      Next();
      return Some(Decl(ids, typ));
    }

    /** The comma-separated declarations of `dim` and of a parameter list. */
    method Items() returns (items: Option<seq<Item>>)
      modifies this
      ensures Spec.Res(items, toks) == Spec.Items(old(toks), [], false)
      decreases |toks|, 21
    {
      hide Spec.NotExpr, Spec.DeclExpr;
      var all: seq<Item> := [];
      var more := true;
      while more
        invariant |toks| <= |old(toks)|
        invariant more ==> Spec.Items(toks, all, false) == Spec.Items(old(toks), [], false)
        invariant !more ==> Spec.Res(Some(all), toks) == Spec.Items(old(toks), [], false)
        decreases more, |toks|
      {
        var decl := DeclExpr();
        if decl.None? {
          return None;
        }
        var val: Option<Expr> := None;
        var assign := Accept(OP(Assign));
        if assign {
          val := NotExpr();
          if val.None? {
            return None;
          }
        }
        all := all + [Item(decl.value, val)];
        more := Accept(COMMA);
      }
      items := Some(all);
    }

    method DimExpr() returns (node: Option<Expr>)
      modifies this
      ensures Spec.Res(node, toks) == Spec.DimExpr(old(toks), false)
      decreases |toks|, 22
    {
      hide Spec.Items;
      var items := Items();
      node := if items.None? then None else Some(Dim(items.value));
    }

    method FunctionParams() returns (params: Option<seq<Item>>)
      modifies this
      ensures Spec.Res(params, toks) == Spec.FunctionParams(old(toks), false)
      decreases |toks|, 22
    {
      hide Spec.Items;
      if !Peek(toks).ID? {
        return Some([]);
      }
      params := Items();
    }

    // ----- statements

    /** `('(' params ')')?` */
    method SignatureParams() returns (params: Option<seq<Item>>)
      modifies this
      ensures Spec.Res(params, toks) ==
        if Peek(old(toks)) == LPAREN then Spec.Params(old(toks)[1..], false) else Spec.Res(Some([]), old(toks))
    {
      hide Spec.FunctionParams;
      var ok := Accept(LPAREN);
      if !ok {
        return Some([]);
      }
      params := FunctionParams();
      if params.Some? {
        ok := Accept(RPAREN);
        if !ok {
          return None;
        }
      }
    }

    /** The common part of `func_declare` and `function_stmt`. */
    method SignatureOf() returns (sig: Option<Spec.Signature>)
      modifies this
      ensures Spec.Res(sig, toks) == Spec.SignatureOf(old(toks), false)
    {
      hide Spec.Params;
      if !Peek(toks).ID? {
        return None;
      }
      var name := Peek(toks).name;
      Next();
      var params := SignatureParams();
      if params.None? {
        return None;
      }
      var typ: Option<string> := None;
      var ok := Accept(AS);
      if ok {
        if !Peek(toks).ID? {
          return None;
        }
        typ := Some(Peek(toks).name);
        Next();
      }
      ok := Accept(SEMICOLON);
      return Some(Spec.Signature(name, params.value, typ));
    }

    method PrintStmt() returns (stmt: Option<Stmt>)
      requires Peek(toks) == PRINT
      modifies this
      ensures Spec.Res(stmt, toks) == Spec.Statement(old(toks), false)
    {
      hide Spec.NotExpr;
      Next();
      var values: seq<Expr> := [];
      var more := true;
      while more
        invariant |toks| < |old(toks)|
        invariant more ==> Spec.PrintValues(toks, values, false) == Spec.PrintValues(old(toks)[1..], [], false)
        invariant !more ==> (values, toks) == Spec.PrintValues(old(toks)[1..], [], false)
        decreases more, |toks|
      {
        var param := NotExpr();
        if param.None? {
          more := false;
        } else {
          values := values + [param.value];
          more := Accept(SEMICOLON);
        }
      }
      stmt := Some(Print(values));
    }

    method InputStmt() returns (stmt: Option<Stmt>)
      requires Peek(toks) == INPUT
      modifies this
      ensures Spec.Res(stmt, toks) == Spec.Statement(old(toks), false)
    {
      hide Spec.NotExpr;
      Next();
      var param := NotExpr();
      var semi := Accept(SEMICOLON);
      stmt := Some(Input(Spec.OrMissing(param)));
    }

    method TypeStmt() returns (stmt: Option<Stmt>)
      requires Peek(toks) == TYPE
      modifies this
      ensures Spec.Res(stmt, toks) == Spec.Statement(old(toks), false)
    {
      hide Spec.DeclExpr;
      Next();
      if !Peek(toks).ID? {
        return None;
      }
      var name := Peek(toks).name;
      Next();
      var semi := Accept(SEMICOLON);
      ghost var start := toks;
      var fields: seq<Decl> := [];
      var end := false;
      while !end
        invariant !end ==> Spec.TypeFields(toks, fields) == Spec.TypeFields(start, [])
        invariant end ==> Spec.Res(Some(fields), toks) == Spec.TypeFields(start, [])
        decreases !end, |toks|
      {
        var decl := DeclExpr();
        if decl.None? {
          return None;
        }
        semi := Accept(SEMICOLON);
        fields := fields + [decl.value];
        end := Accept(END);
      }
      stmt := Some(TypeDef(name, fields));
    }

    method ReturnStmt() returns (stmt: Option<Stmt>)
      requires Peek(toks) == RETURN
      modifies this
      ensures Spec.Res(stmt, toks) == Spec.Statement(old(toks), false)
    {
      hide Spec.NotExpr;
      Next();
      var semi := Accept(SEMICOLON);
      if semi {
        return Some(Return(None));
      }
      var node := NotExpr();
      stmt := if node.None? then None else Some(Return(node));
    }

    method DeclareStmt() returns (stmt: Option<Stmt>)
      requires Peek(toks) == DECLARE
      modifies this
      ensures Spec.Res(stmt, toks) == Spec.Statement(old(toks), false)
    {
      hide Spec.SignatureOf;
      Next();
      var ok := Accept(FUNCTION);
      if !ok {
        return None;
      }
      var sig := SignatureOf();
      stmt := if sig.None? then None else Some(Declare(sig.value.name, sig.value.params, sig.value.typ));
    }

    method FunctionStmt() returns (stmt: Option<Stmt>)
      requires Peek(toks) == FUNCTION
      modifies this
      ensures Spec.Res(stmt, toks) == Spec.FunctionStmt(old(toks)[1..], false)
      decreases |toks|, 0
    {
      hide Spec.SignatureOf, Spec.Block;
      Next();
      var sig := SignatureOf();
      if sig.None? {
        return None;
      }
      var body := Block();
      stmt := if body.None? then None
              else Some(Function(sig.value.name, sig.value.params, sig.value.typ, body.value));
    }

    method ScopeStmt() returns (stmt: Option<Stmt>)
      requires Peek(toks) == SCOPE
      modifies this
      ensures Spec.Res(stmt, toks) == Spec.Statement(old(toks), false)
      decreases |toks|, 0
    {
      hide Spec.Block, Spec.NotExpr;
      Next();
      var body := Block();
      stmt := if body.None? then None else Some(Scope(body.value));
    }

    /** `cond 'then' block` */
    method Guarded() returns (branch: Option<Branch>)
      modifies this
      ensures Spec.Res(branch, toks) == Spec.Guarded(old(toks), false)
      decreases |toks|, 3
    {
      hide Spec.Block, Spec.NotExpr;
      var cond := NotExpr();
      if cond.None? {
        return None;
      }
      var ok := Accept(THEN);
      if !ok {
        return None;
      }
      var body := Block();
      branch := if body.None? then None else Some(Branch(cond.value, body.value));
    }

    method IfStmt() returns (stmt: Option<Stmt>)
      requires Peek(toks) == IF
      modifies this
      ensures Spec.Res(stmt, toks) == Spec.IfStmt(old(toks)[1..], false)
      decreases |toks|, 0
    {
      hide Spec.Block, Spec.Guarded;
      Next();
      var first := Guarded();
      if first.None? {
        return None;
      }
      var elseIfs: seq<Branch> := [];
      while Peek(toks) == ELSEIF
        invariant |toks| < |old(toks)|
        invariant Spec.IfRest(first.value, elseIfs, toks, false) == Spec.IfStmt(old(toks)[1..], false)
        decreases |toks|
      {
        Next();
        var branch := Guarded();
        if branch.None? {
          return None;
        }
        elseIfs := elseIfs + [branch.value];
      }
      var otherwise := NoElse;
      var ok := Accept(ELSE);
      if ok {
        var body := Block();
        if body.None? {
          return None;
        }
        otherwise := Else(body.value);
      }
      return Some(If(first.value.cond, first.value.body, elseIfs, otherwise));
    }

    method WhileStmt() returns (stmt: Option<Stmt>)
      requires Peek(toks) == DO
      modifies this
      ensures Spec.Res(stmt, toks) == Spec.WhileStmt(old(toks)[1..], false)
      decreases |toks|, 0
    {
      hide Spec.Block, Spec.NotExpr;
      Next();
      var ok := Accept(WHILE);
      if !ok {
        return None;
      }
      var cond := NotExpr();
      if cond.None? {
        return None;
      }
      var semi := Accept(SEMICOLON);
      var body := Block();
      stmt := if body.None? then None else Some(While(cond.value, body.value));
    }

    method Statement() returns (stmt: Option<Stmt>)
      modifies this
      ensures Spec.Res(stmt, toks) == Spec.Statement(old(toks), false)
      decreases |toks|, 1
    {
      hide Spec.Block, Spec.NotExpr, Spec.IfStmt, Spec.WhileStmt, Spec.FunctionStmt, Spec.TypeStmt, Spec.SignatureOf, Spec.PrintValues;
      match Peek(toks) {
        case PRINT => stmt := PrintStmt();
        case INPUT => stmt := InputStmt();
        case IF => stmt := IfStmt();
        case DO => stmt := WhileStmt();
        case RETURN => stmt := ReturnStmt();
        case SCOPE => stmt := ScopeStmt();
        case DECLARE => stmt := DeclareStmt();
        case FUNCTION => stmt := FunctionStmt();
        case TYPE => stmt := TypeStmt();
        case _ =>
          var e := NotExpr();
          stmt := if e.None? then None else Some(Eval(e.value));
      }
    }

    method Block() returns (stmts: Option<seq<Stmt>>)
      modifies this
      ensures Spec.Res(stmts, toks) == Spec.Block(old(toks), [], false)
      decreases |toks|, 2
    {
      hide Spec.Statement;
      var all: seq<Stmt> := [];
      while true
        invariant |toks| <= |old(toks)|
        invariant Spec.Block(toks, all, false) == Spec.Block(old(toks), [], false)
        decreases |toks|
      {
        if Peek(toks) == ELSE || Peek(toks) == ELSEIF {
          break;
        }
        var ok := Accept(LOOP);
        if ok {
          return Some(all);
        }
        ok := Accept(END);
        if ok {
          if Peek(toks) == FUNCTION || Peek(toks) == SCOPE || Peek(toks) == IF {
            Next();
            return Some(all);
          }
          return None;
        }
        var node := Statement();
        if node.None? {
          return None;
        }
        ok := Accept(SEMICOLON);
        all := all + [node.value];
      }
      stmts := Some(all);
    }

    /** `ifj17_parse` */
    method Program() returns (stmts: Option<seq<Stmt>>)
      modifies this
      ensures Spec.Res(stmts, toks) == Spec.Program(old(toks), [], false)
    {
      hide Spec.Statement;
      var all: seq<Stmt> := [];
      while Peek(toks) != EOS
        invariant Spec.Program(toks, all, false) == Spec.Program(old(toks), [], false)
        decreases |toks|
      {
        var node := Statement();
        if node.None? {
          return None;
        }
        var semi := Accept(SEMICOLON);
        all := all + [node.value];
      }
      stmts := Some(all);
    }
  }
}
