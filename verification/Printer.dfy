/** Printing a syntax tree with the fewest parentheses the precedence levels need, and reading it back. */
module Printer {
  import opened Options
  import opened Tokens
  import opened Ast
  import opened Productions
  import opened ParserSpec
  import opened Grammar
  import opened ExprComplete
  import opened ExprSound
  import opened Collapse

  /** Trees that have a phrase: operators in their places, no null child. */
  predicate Printable(e: Expr) {
    match e
    case Missing => false
    case Array(vals) => forall v :: v in vals ==> Printable(v)
    case Hash(pairs) => forall p :: p in pairs ==> Printable(p.key) && Printable(p.val)
    case Unary(op, x, postfix) =>
      (if postfix then PostfixToken(OP(op)) else op == LNot || PrefixToken(OP(op))) && Printable(x)
    case Binary(op, x, y) =>
      (AssignToken(OP(op)) || op == Pow || Rank(op) > 0) && Printable(x) && Printable(y)
    case Call(f, args) =>
      Printable(f) && PrintableArgs(args)
    case Dim(items) => items != [] && PrintableItems(items)
    case _ => true
  }

  predicate PrintableArgs(args: Args)
    decreases args
  {
    args.Args? && (forall v :: v in args.vals ==> Printable(v)) && forall n :: n in args.named ==> PrintableNamed(n)
  }

  predicate PrintableNamed(n: Named)
    decreases n
  {
    Printable(n.val)
  }

  predicate PrintableItems(items: seq<Item>) {
    forall i :: i in items ==> PrintableItem(i)
  }

  predicate PrintableItem(i: Item) {
    i.decl.ids != [] && (i.init.Some? ==> Printable(i.init.value))
  }

  /** The tree's phrase, parenthesised only when its own level is looser than `l`. */
  function At(l: nat, e: Expr): Cst
    decreases e, 1
  {
    if Own(Phrase(e)) >= l then Phrase(e) else Paren(Phrase(e))
  }

  function Phrase(e: Expr): Cst
    decreases e, 0
  {
    match e
    case Missing => Atom(EOS)
    case Id(n) => Atom(ID(n))
    case Int(n) => Atom(INT(n))
    case Double(d) => Atom(DOUBLE(d))
    case Str(s) => Atom(STRING(s))
    case Array(vals) => ArrayC(Elems(vals), false)
    case Hash(pairs) => HashC(Pairs(pairs), false)
    case Unary(op, x, postfix) =>
      if postfix then PostC(At(POWER, x), op)
      else if op == LNot then NotC(At(NOT, x))
      else PreC(op, At(UNARY, x))
    case Binary(op, x, y) =>
      if AssignToken(OP(op)) then AssignC(At(FORK, x), op, At(NOT, y))
      else if op == Pow then PowC(At(CALL, x), At(CALL, y))
      else BinC(At(Rank(op), x), op, At(Rank(op) + 1, y))
    case Call(f, args) => CallC(At(CALL, f), ArgPhrases(args))
    case Dim(items) => DimC(ItemList(items))
  }

  /** A list member that a comma follows must not end in an open declaration list. */
  function Member(e: Expr, last: bool): Cst
    decreases e, 2
  {
    if !last && OpenDim(At(NOT, e)) then Paren(At(NOT, e)) else At(NOT, e)
  }

  function Elems(vals: seq<Expr>): List<Cst> {
    if vals == [] then Nil else Cons(Member(vals[0], |vals| == 1), Elems(vals[1..]))
  }

  /** Positional arguments first, unless the last of them ends in an open declaration list, which
      costs nothing at the very end. */
  function ArgPhrases(args: Args): List<CArg>
    decreases args
  {
    match args
    case NoArgs => Nil
    case Args(vals, named) =>
      if named != [] && vals != [] && OpenDim(At(NOT, vals[|vals| - 1]))
      then Append(Keywords(named, true), Positionals(vals, false))
      else Append(Positionals(vals, named != []), Keywords(named, false))
  }

  /** `more`: other arguments follow. */
  function Positionals(vals: seq<Expr>, more: bool): List<CArg>
    decreases vals
  {
    if vals == [] then Nil
    else Cons(Positional(Member(vals[0], |vals| == 1 && !more)), Positionals(vals[1..], more))
  }

  function Keywords(named: seq<Named>, more: bool): List<CArg>
    decreases named
  {
    if named == [] then Nil else Cons(KeywordC(named[0], |named| == 1 && !more), Keywords(named[1..], more))
  }

  function KeywordC(n: Named, last: bool): CArg
    decreases n
  {
    Keyword(Atom(ID(n.key)), Member(n.val, last))
  }

  function Append(a: List<CArg>, b: List<CArg>): List<CArg> {
    match a
    case Nil => b
    case Cons(x, t) => Cons(x, Append(t, b))
  }

  function Pairs(pairs: seq<Pair>): List<CPair> {
    if pairs == [] then Nil
    else Cons(PairC(pairs[0], |pairs| == 1), Pairs(pairs[1..]))
  }

  function PairC(p: Pair, last: bool): CPair {
    CPair(At(NOT, p.key), Member(p.val, last))
  }

  function ItemList(items: seq<Item>): List<CItem> {
    if items == [] then Nil else Cons(ItemC(items[0], |items| == 1), ItemList(items[1..]))
  }

  function ItemC(i: Item, last: bool): CItem {
    CItem(i.decl.ids, false, i.decl.typ, if i.init.Some? then Some(Member(i.init.value, last)) else None)
  }

  // ----- a printed phrase derives, and means the tree

  lemma {:induction false} AtDerives(l: nat, e: Expr)
    requires Printable(e) && l <= PRIMARY
    ensures Derives(l, At(l, e)) && Erase(At(l, e)) == e
    decreases e, 1
  {
    PhraseDerives(e);
  }

  lemma {:induction false} PhraseDerives(e: Expr)
    requires Printable(e)
    ensures Derives(NOT, Phrase(e)) && Erase(Phrase(e)) == e
    decreases e, 0, 1
  {
    hide DerivesElems, DerivesPairs, DerivesArgs, DerivesItems, EraseElems, ErasePairs, EraseArgs, EraseItems;
    hide Elems, Pairs, ArgPhrases, ItemList, At;
    match e
    case Array(vals) => ElemsDerive(vals);
    case Hash(pairs) => PairsDerive(pairs);
    case Unary(_, _, _) | Binary(_, _, _) => OperatorDerives(e);
    case Call(f, args) =>
      AtDerives(CALL, f);
      ArgsDerive(args);
    case Dim(items) => ItemsDerive(items);
    case _ =>
  }

  lemma {:induction false} OperatorDerives(e: Expr)
    requires Printable(e) && (e.Unary? || e.Binary?)
    ensures Derives(NOT, Phrase(e)) && Erase(Phrase(e)) == e
    decreases e, 0, 0, 1
  {
    hide Derives, Erase, Phrase, Printable;
    if e.Unary? {
      UnaryDerives(e);
    } else if AssignToken(OP(e.op)) {
      AssignDerives(e);
    } else if e.op == Pow {
      PowDerives(e);
    } else {
      ChainDerives(e);
    }
  }

  lemma {:induction false} UnaryDerives(e: Expr)
    requires Printable(e) && e.Unary?
    ensures Derives(NOT, Phrase(e)) && Erase(Phrase(e)) == e
    decreases e, 0, 0, 0
  {
    hide At;
    AtDerives(if e.postfix then POWER else if e.op == LNot then NOT else UNARY, e.expr);
  }

  lemma {:induction false} AssignDerives(e: Expr)
    requires Printable(e) && e.Binary? && AssignToken(OP(e.op))
    ensures Derives(NOT, Phrase(e)) && Erase(Phrase(e)) == e
    decreases e, 0, 0, 0
  {
    hide At;
    AtDerives(FORK, e.left);
    AtDerives(NOT, e.right);
  }

  lemma {:induction false} PowDerives(e: Expr)
    requires Printable(e) && e.Binary? && e.op == Pow
    ensures Derives(NOT, Phrase(e)) && Erase(Phrase(e)) == e
    decreases e, 0, 0, 0
  {
    hide At;
    AtDerives(CALL, e.left);
    AtDerives(CALL, e.right);
  }

  lemma {:induction false} ChainDerives(e: Expr)
    requires Printable(e) && e.Binary? && !AssignToken(OP(e.op)) && e.op != Pow
    ensures Derives(NOT, Phrase(e)) && Erase(Phrase(e)) == e
    decreases e, 0, 0, 0
  {
    hide At;
    AtDerives(Rank(e.op), e.left);
    AtDerives(Rank(e.op) + 1, e.right);
  }

  lemma {:induction false} MemberDerives(e: Expr, last: bool)
    requires Printable(e)
    ensures Derives(NOT, Member(e, last)) && Erase(Member(e, last)) == e && (!last ==> !OpenDim(Member(e, last)))
    decreases e, 2
  {
    AtDerives(NOT, e);
  }

  lemma {:induction false} ElemsDerive(vals: seq<Expr>)
    requires forall v :: v in vals ==> Printable(v)
    ensures DerivesElems(Elems(vals), false) && EraseElems(Elems(vals)) == vals
    ensures Elems(vals).Nil? <==> vals == []
  {
    hide Derives, Erase, Member, OpenDim, Printable;
    if vals != [] {
      MemberDerives(vals[0], |vals| == 1);
      ElemsDerive(vals[1..]);
    }
  }

  /** No argument ends in an open declaration list. */
  predicate AllClosed(args: List<CArg>) {
    match args
    case Nil => true
    case Cons(a, t) => !OpenDim(a.val) && AllClosed(t)
  }

  lemma {:induction false} PositionalsDerive(vals: seq<Expr>, more: bool, before: seq<Expr>, named: seq<Named>)
    requires forall v :: v in vals ==> Printable(v)
    ensures var list := Positionals(vals, more);
      && DerivesArgs(list) && EraseArgs(list, before, named) == Args(before + vals, named)
      && (more ==> AllClosed(list)) && (list.Nil? <==> vals == [])
    decreases vals
  {
    hide Derives, Erase, Member, OpenDim, Printable;
    if vals == [] {
      assert before + vals == before;
    } else {
      MemberDerives(vals[0], |vals| == 1 && !more);
      PositionalsDerive(vals[1..], more, before + [vals[0]], named);
      assert before + [vals[0]] + vals[1..] == before + vals;
    }
  }

  lemma {:induction false} KeywordsDerive(named: seq<Named>, more: bool, vals: seq<Expr>, before: seq<Named>)
    requires forall n :: n in named ==> PrintableNamed(n)
    ensures var list := Keywords(named, more);
      && DerivesArgs(list) && EraseArgs(list, vals, before) == Args(vals, before + named)
      && (more ==> AllClosed(list)) && (list.Nil? <==> named == [])
    decreases named
  {
    hide Derives, Erase, OpenDim, KeywordC;
    if named == [] {
      assert before + named == before;
    } else {
      KeywordDerives(named[0], |named| == 1 && !more);
      KeywordsDerive(named[1..], more, vals, before + [named[0]]);
      assert before + [named[0]] + named[1..] == before + named;
    }
  }

  lemma {:induction false} KeywordDerives(n: Named, last: bool)
    requires PrintableNamed(n)
    ensures var a := KeywordC(n, last);
      && a.Keyword? && Derives(NOT, a.key) && Erase(a.key) == Id(n.key)
      && Derives(NOT, a.val) && Erase(a.val) == n.val && (!last ==> !OpenDim(a.val))
    decreases n
  {
    hide Member, OpenDim;
    MemberDerives(n.val, last);
  }

  lemma {:induction false} AppendDerives(a: List<CArg>, b: List<CArg>, vals: seq<Expr>, named: seq<Named>)
    requires DerivesArgs(a) && DerivesArgs(b) && (b.Cons? ==> AllClosed(a))
    ensures DerivesArgs(Append(a, b))
    ensures var r := EraseArgs(a, vals, named);
      r.Args? && EraseArgs(Append(a, b), vals, named) == EraseArgs(b, r.vals, r.named)
    ensures Append(a, b).Nil? <==> a.Nil? && b.Nil?
    decreases a
  {
    hide Derives, Erase, OpenDim;
    if a.Cons? {
      var x := a.head;
      if x.Positional? {
        AppendDerives(a.tail, b, vals + [Erase(x.val)], named);
      } else {
        AppendDerives(a.tail, b, vals, named + [Named(KeyName(Erase(x.key)), Erase(x.val))]);
      }
    }
  }

  lemma {:induction false} ArgsDerive(args: Args)
    requires PrintableArgs(args)
    ensures DerivesArgs(ArgPhrases(args)) && EraseArgs(ArgPhrases(args), [], []) == args
    decreases args
  {
    hide Printable, PrintableNamed, Positionals, Keywords, DerivesArgs, EraseArgs, AllClosed, At, OpenDim, Append;
    var vals, named := args.vals, args.named;
    assert [] + vals == vals && [] + named == named;
    if named != [] && vals != [] && OpenDim(At(NOT, vals[|vals| - 1])) {
      KeywordsDerive(named, true, [], []);
      PositionalsDerive(vals, false, [], named);
      AppendDerives(Keywords(named, true), Positionals(vals, false), [], []);
    } else {
      PositionalsDerive(vals, named != [], [], []);
      KeywordsDerive(named, false, vals, []);
      AppendDerives(Positionals(vals, named != []), Keywords(named, false), [], []);
    }
  }

  lemma {:induction false} PairsDerive(pairs: seq<Pair>)
    requires forall p :: p in pairs ==> Printable(p.key) && Printable(p.val)
    ensures DerivesPairs(Pairs(pairs), false) && ErasePairs(Pairs(pairs)) == pairs
    ensures Pairs(pairs).Nil? <==> pairs == []
  {
    hide Derives, Erase, Member, OpenDim, Printable, At;
    if pairs != [] {
      PairDerives(pairs[0], |pairs| == 1);
      PairsDerive(pairs[1..]);
    }
  }

  lemma {:induction false} PairDerives(p: Pair, last: bool)
    requires Printable(p.key) && Printable(p.val)
    ensures var c := PairC(p, last);
      && Derives(NOT, c.key) && Erase(c.key) == p.key
      && Derives(NOT, c.val) && Erase(c.val) == p.val && (!last ==> !OpenDim(c.val))
  {
    hide Derives, Erase, Member, OpenDim, Printable, At;
    AtDerives(NOT, p.key);
    MemberDerives(p.val, last);
  }

  lemma {:induction false} ItemsDerive(items: seq<Item>)
    requires PrintableItems(items)
    ensures DerivesItems(ItemList(items)) && EraseItems(ItemList(items)) == items
    ensures ItemList(items).Nil? <==> items == []
  {
    hide Derives, Erase, Member, OpenDim, Printable;
    if items != [] {
      ItemDerives(items[0], |items| == 1);
      ItemsDerive(items[1..]);
    }
  }

  lemma {:induction false} ItemDerives(i: Item, last: bool)
    requires PrintableItem(i)
    ensures var c := ItemC(i, last);
      && c.ids != [] && EraseItem(c) == i
      && (c.init.Some? ==> Derives(NOT, c.init.value) && (!last ==> !OpenDim(c.init.value)))
  {
    hide Derives, Erase, Member, OpenDim, Printable;
    if i.init.Some? { MemberDerives(i.init.value, last); }
  }

  /** Print an expression, put any token after it that does not extend it, and the parser reads the
      expression and stops at that token. */
  lemma RoundTrip(e: Expr, rest: seq<Token>)
    requires Printable(e) && Stops(NOT, At(NOT, e), rest)
    ensures NotExpr(Emit(At(NOT, e), rest), true) == Res(Some(e), rest)
    ensures NotExpr(Emit(At(NOT, e), rest), false) == Res(Some(Collapsed(e)), rest)
    ensures NoRepeats(e) ==> Collapsed(e) == e
  {
    hide Printable, Collapsed, NoRepeats, NotExpr, At, Emit, Derives, Erase;
    AtDerives(NOT, e);
    Complete(NOT, At(NOT, e), rest);
    NotCollapses(Emit(At(NOT, e), rest));
    if NoRepeats(e) { NothingCollapses(e); }
  }

  // ----- the parser's trees are printable

  lemma {:induction false} ErasePrintable(l: nat, c: Cst)
    requires Derives(l, c)
    ensures Printable(Erase(c))
    decreases c
  {
    hide EraseElems, ErasePairs, EraseArgs, EraseItems, DerivesElems, DerivesPairs, DerivesArgs, DerivesItems, PrintableArgs;
    match c
    case Paren(i) => ErasePrintable(NOT, i);
    case ArrayC(es, trailing) => ElemsPrintable(es, trailing);
    case HashC(ps, trailing) => PairsPrintable(ps, trailing);
    case CallC(f, args) =>
      ErasePrintable(CALL, f);
      NoArgsPrintable();
      ArgsPrintable(args, [], []);
    case PowC(x, y) => ErasePrintable(CALL, x); ErasePrintable(CALL, y);
    case PostC(i, op) => ErasePrintable(POWER, i);
    case PreC(op, i) => ErasePrintable(UNARY, i);
    case BinC(x, op, y) => ErasePrintable(Rank(op), x); ErasePrintable(Rank(op) + 1, y);
    case ForkC(i) =>
      ErasePrintable(LOGICAL_OR, i);
      OnePrintable(Erase(i));
    case AssignC(x, op, y) => ErasePrintable(FORK, x); ErasePrintable(NOT, y);
    case DimC(items) => ItemsPrintable(items);
    case NotC(i) => ErasePrintable(NOT, i);
    case Atom(_) =>
  }

  lemma NoArgsPrintable()
    ensures PrintableArgs(Args([], []))
  {
  }

  lemma OnePrintable(e: Expr)
    requires Printable(e)
    ensures PrintableArgs(Args([e], []))
  {
  }

  lemma {:induction false} ElemsPrintable(es: List<Cst>, trailing: bool)
    requires DerivesElems(es, trailing)
    ensures forall v :: v in EraseElems(es) ==> Printable(v)
    decreases es
  {
    hide Derives, Erase, Printable, OpenDim;
    if es.Cons? {
      ErasePrintable(NOT, es.head);
      if es.tail.Cons? { ElemsPrintable(es.tail, trailing); } else { assert EraseElems(es.tail) == []; }
    }
  }

  lemma {:induction false} PairsPrintable(ps: List<CPair>, trailing: bool)
    requires DerivesPairs(ps, trailing)
    ensures forall p :: p in ErasePairs(ps) ==> Printable(p.key) && Printable(p.val)
    decreases ps
  {
    hide Derives, Erase, Printable, OpenDim;
    if ps.Cons? {
      ErasePrintable(NOT, ps.head.key);
      ErasePrintable(NOT, ps.head.val);
      if ps.tail.Cons? { PairsPrintable(ps.tail, trailing); } else { assert ErasePairs(ps.tail) == []; }
    }
  }

  lemma {:induction false} ArgsGrow(args: List<CArg>, vals: seq<Expr>, named: seq<Named>)
    ensures var r := EraseArgs(args, vals, named);
      r.Args? && vals <= r.vals && named <= r.named
    decreases args
  {
    hide Erase;
    if args.Cons? {
      var a := args.head;
      if a.Positional? {
        ArgsGrow(args.tail, vals + [Erase(a.val)], named);
      } else {
        ArgsGrow(args.tail, vals, named + [Named(KeyName(Erase(a.key)), Erase(a.val))]);
      }
    }
  }

  lemma {:induction false} ArgsPrintable(args: List<CArg>, vals: seq<Expr>, named: seq<Named>)
    requires DerivesArgs(args) && PrintableArgs(Args(vals, named))
    ensures PrintableArgs(EraseArgs(args, vals, named))
    decreases args
  {
    hide Derives, Erase, Printable, OpenDim;
    if args.Cons? {
      var a := args.head;
      ErasePrintable(NOT, a.val);
      if a.Positional? {
        ArgsPrintable(args.tail, vals + [Erase(a.val)], named);
      } else {
        ArgsPrintable(args.tail, vals, named + [Named(KeyName(Erase(a.key)), Erase(a.val))]);
      }
    }
  }

  lemma {:induction false} ItemsPrintable(items: List<CItem>)
    requires DerivesItems(items)
    ensures PrintableItems(EraseItems(items)) && (items.Cons? ==> EraseItems(items) != [])
    decreases items
  {
    hide Derives, Erase, Printable, OpenDim;
    if items.Cons? {
      if items.head.init.Some? { ErasePrintable(NOT, items.head.init.value); }
      ItemsPrintable(items.tail);
    }
  }

  // ----- and so are the trees it builds from them

  lemma {:induction false} CollapsedPrintable(e: Expr)
    requires Printable(e)
    ensures Printable(Collapsed(e)) && NoRepeats(Collapsed(e))
    decreases e
  {
    hide AllCollapsed, PairsCollapsed, ArgsCollapsed, ItemsCollapsed, PrintableArgs, PrintableItems;
    match e
    case Array(vals) => AllPrintable(vals);
    case Hash(pairs) => PairsCollapsedPrintable(pairs);
    case Unary(_, x, _) => CollapsedPrintable(x);
    case Binary(_, x, y) =>
      CollapsedPrintable(x);
      CollapsedPrintable(y);
    case Call(f, args) =>
      CollapsedPrintable(f);
      ArgsCollapsedPrintable(args);
    case Dim(items) => ItemsCollapsedPrintable(items);
    case _ =>
  }

  lemma {:induction false} AllPrintable(vals: seq<Expr>)
    requires forall v :: v in vals ==> Printable(v)
    ensures forall v :: v in AllCollapsed(vals) ==> Printable(v) && NoRepeats(v)
    decreases vals
  {
    hide Printable, NoRepeats, Collapsed;
    if vals != [] {
      AllPrintable(vals[..|vals| - 1]);
      CollapsedPrintable(vals[|vals| - 1]);
    }
  }

  lemma {:induction false} PairsCollapsedPrintable(pairs: seq<Pair>)
    requires forall p :: p in pairs ==> Printable(p.key) && Printable(p.val)
    ensures forall p :: p in PairsCollapsed(pairs) ==>
      Printable(p.key) && Printable(p.val) && NoRepeats(p.key) && NoRepeats(p.val)
    decreases pairs
  {
    hide Printable, NoRepeats, Collapsed;
    if pairs != [] {
      PairsCollapsedPrintable(pairs[..|pairs| - 1]);
      PairCollapsedPrintable(pairs[|pairs| - 1]);
    }
  }

  lemma {:induction false} PairCollapsedPrintable(p: Pair)
    requires Printable(p.key) && Printable(p.val)
    ensures var q := PairCollapsed(p);
      Printable(q.key) && Printable(q.val) && NoRepeats(q.key) && NoRepeats(q.val)
    decreases p
  {
    CollapsedPrintable(p.key);
    CollapsedPrintable(p.val);
  }

  predicate GoodNamed(named: seq<Named>) {
    Distinct(named) && forall n :: n in named ==> PrintableNamed(n) && NoRepeats(n.val)
  }

  lemma {:induction false} ArgsCollapsedPrintable(args: Args)
    requires PrintableArgs(args)
    ensures var r := ArgsCollapsed(args);
      && PrintableArgs(r) && r.Args? && (forall v :: v in r.vals ==> NoRepeats(v))
      && Distinct(r.named) && forall n :: n in r.named ==> NoRepeats(n.val)
    decreases args
  {
    hide Printable, PrintableNamed, NoRepeats, Collapsed, Distinct, AllCollapsed, NamedCollapsed;
    AllPrintable(args.vals);
    NamedPrintable(args.named);
  }

  lemma {:induction false} NamedPrintable(named: seq<Named>)
    requires forall n :: n in named ==> PrintableNamed(n)
    ensures GoodNamed(NamedCollapsed(named))
    decreases named
  {
    hide PrintableNamed, NoRepeats, LastCollapsed, SetNamed;
    if named != [] {
      var last := named[|named| - 1];
      NamedPrintable(named[..|named| - 1]);
      LastPrintable(last);
      SetGood(NamedCollapsed(named[..|named| - 1]), last.key, LastCollapsed(last));
    }
  }

  lemma {:induction false} LastPrintable(n: Named)
    requires PrintableNamed(n)
    ensures Printable(LastCollapsed(n)) && NoRepeats(LastCollapsed(n))
    decreases n
  {
    CollapsedPrintable(n.val);
  }

  lemma {:induction false} SetGood(named: seq<Named>, key: string, val: Expr)
    requires GoodNamed(named) && Printable(val) && NoRepeats(val)
    ensures GoodNamed(SetNamed(named, key, val))
    ensures forall n :: n in SetNamed(named, key, val) ==> n.key == key || exists m :: m in named && m.key == n.key
  {
    hide Printable, NoRepeats;
    if named != [] && named[0].key != key {
      SetGood(named[1..], key, val);
      var more := SetNamed(named[1..], key, val);
      forall n | n in more ensures n.key != named[0].key {
        if n.key != key {
          var m :| m in named[1..] && m.key == n.key;
        }
      }
    }
  }

  lemma {:induction false} ItemsCollapsedPrintable(items: seq<Item>)
    requires PrintableItems(items)
    ensures PrintableItems(ItemsCollapsed(items)) && |ItemsCollapsed(items)| == |items|
    ensures forall i :: i in ItemsCollapsed(items) ==> i.init.Some? ==> NoRepeats(i.init.value)
    decreases items
  {
    hide Printable, NoRepeats, Collapsed, PrintableItem, ItemCollapsed;
    if items != [] {
      ItemsCollapsedPrintable(items[..|items| - 1]);
      assert PrintableItem(items[|items| - 1]);
      ItemCollapsedPrintable(items[|items| - 1]);
    }
  }

  lemma {:induction false} ItemCollapsedPrintable(i: Item)
    requires PrintableItem(i)
    ensures var j := ItemCollapsed(i); PrintableItem(j) && (j.init.Some? ==> NoRepeats(j.init.value))
    decreases i
  {
    OptionCollapsedPrintable(i.init);
  }

  lemma {:induction false} OptionCollapsedPrintable(e: Option<Expr>)
    requires e.Some? ==> Printable(e.value)
    ensures var f := OptionCollapsed(e); f.Some? ==> Printable(f.value) && NoRepeats(f.value)
    decreases e
  {
    if e.Some? { CollapsedPrintable(e.value); }
  }

  /** What the parser builds from tokens without a hole, printed and read again, is the same tree. */
  lemma ReadPrintRead(ts: seq<Token>, e: Expr, rest: seq<Token>, after: seq<Token>)
    requires NotExpr(ts, true) == Res(Some(e), rest) && Whole(e)
    ensures var t := Collapsed(e);
      && NotExpr(ts, false) == Res(Some(t), rest) && Printable(t)
      && (Stops(NOT, At(NOT, t), after) ==> NotExpr(Emit(At(NOT, t), after), false) == Res(Some(t), after))
  {
    hide Printable, Collapsed, NoRepeats, NotExpr, At, Emit, Derives, Erase, Whole;
    var c := SoundNot(ts, e, rest);
    ErasePrintable(NOT, c);
    NotCollapses(ts);
    CollapsedPrintable(e);
    if Stops(NOT, At(NOT, Collapsed(e)), after) { RoundTrip(Collapsed(e), after); }
  }
}
