/** No phrase of a tree has fewer parentheses than the printed one. */
module Fewest {
  import opened Tokens
  import opened Ast
  import opened Productions
  import opened Grammar
  import opened Printer

  function Parens(c: Cst): nat {
    match c
    case Atom(_) => 0
    case Paren(i) => 1 + Parens(i)
    case ArrayC(es, _) => ParensElems(es)
    case HashC(ps, _) => ParensPairs(ps)
    case CallC(f, args) => Parens(f) + ParensArgs(args)
    case PowC(x, y) => Parens(x) + Parens(y)
    case PostC(i, _) => Parens(i)
    case PreC(_, i) => Parens(i)
    case BinC(x, _, y) => Parens(x) + Parens(y)
    case ForkC(i) => Parens(i)
    case AssignC(x, _, y) => Parens(x) + Parens(y)
    case DimC(items) => ParensItems(items)
    case NotC(i) => Parens(i)
  }

  function ParensElems(es: List<Cst>): nat {
    match es
    case Nil => 0
    case Cons(c, t) => Parens(c) + ParensElems(t)
  }

  function ParensPairs(ps: List<CPair>): nat {
    match ps
    case Nil => 0
    case Cons(p, t) => Parens(p.key) + Parens(p.val) + ParensPairs(t)
  }

  function ParensArgs(args: List<CArg>): nat {
    match args
    case Nil => 0
    case Cons(a, t) => Parens(a.val) + (if a.Keyword? then Parens(a.key) else 0) + ParensArgs(t)
  }

  function ParensItems(items: List<CItem>): nat {
    match items
    case Nil => 0
    case Cons(i, t) => (if i.init.Some? then Parens(i.init.value) else 0) + ParensItems(t)
  }

  lemma {:induction false} FewestParens(l: nat, c: Cst)
    requires Derives(l, c) && Printable(Erase(c))
    ensures Parens(At(l, Erase(c))) <= Parens(c)
    decreases c, 1
  {
    if c.Paren? {
      FewestParens(NOT, c.inner);
    } else {
      PhraseFewest(c);
    }
  }

  lemma {:induction false} PhraseFewest(c: Cst)
    requires !c.Paren? && Derives(Own(c), c) && Printable(Erase(c))
    ensures Parens(Phrase(Erase(c))) <= Parens(c) && Own(c) <= Own(Phrase(Erase(c)))
    decreases c, 0, 1
  {
    hide ParensElems, ParensPairs, ParensItems, DerivesElems, DerivesPairs, DerivesArgs, DerivesItems;
    hide Elems, Pairs, ItemList, ArgPhrases, PrintableArgs, At, EraseElems, ErasePairs, EraseArgs, EraseItems;
    match c
    case Atom(_) =>
    case ArrayC(es, trailing) => ElemsFewest(es, trailing);
    case HashC(ps, trailing) => PairsFewest(ps, trailing);
    case CallC(f, args) =>
      FewestParens(CALL, f);
      CallFewest(args);
    case ForkC(i) => ForkFewest(i);
    case DimC(items) => ItemsFewest(items);
    case PostC(_, _) | PreC(_, _) | NotC(_) => UnaryFewest(c);
    case PowC(_, _) | BinC(_, _, _) | AssignC(_, _, _) => BinaryFewest(c);
  }

  lemma {:induction false} UnaryFewest(c: Cst)
    requires c.PostC? || c.PreC? || c.NotC?
    requires Derives(Own(c), c) && Printable(Erase(c))
    ensures Parens(Phrase(Erase(c))) <= Parens(c) && Own(c) <= Own(Phrase(Erase(c)))
    decreases c, 0, 0
  {
    hide At;
    match c
    case PostC(i, _) => FewestParens(POWER, i);
    case PreC(_, i) => FewestParens(UNARY, i);
    case NotC(i) => FewestParens(NOT, i);
  }

  lemma {:induction false} BinaryFewest(c: Cst)
    requires c.PowC? || c.BinC? || c.AssignC?
    requires Derives(Own(c), c) && Printable(Erase(c))
    ensures Parens(Phrase(Erase(c))) <= Parens(c) && Own(c) <= Own(Phrase(Erase(c)))
    decreases c, 0, 0
  {
    var x, y := c.left, c.right;
    var l, r := if c.PowC? then CALL else if c.BinC? then Rank(c.op) else FORK,
                if c.PowC? then CALL else if c.BinC? then Rank(c.op) + 1 else NOT;
    FewestParens(l, x);
    FewestParens(r, y);
    BinaryPhrase(c, l, r);
  }

  lemma BinaryPhrase(c: Cst, l: nat, r: nat)
    requires c.PowC? || (c.BinC? && Rank(c.op) > 0) || (c.AssignC? && AssignToken(OP(c.op)))
    requires l == if c.PowC? then CALL else if c.BinC? then Rank(c.op) else FORK
    requires r == if c.PowC? then CALL else if c.BinC? then Rank(c.op) + 1 else NOT
    ensures Parens(c) == Parens(c.left) + Parens(c.right)
    ensures Parens(Phrase(Erase(c))) == Parens(At(l, Erase(c.left))) + Parens(At(r, Erase(c.right)))
    ensures Own(c) == Own(Phrase(Erase(c)))
  {
    hide At, Phrase, Erase;
    TwoSided(c);
    PhraseOf(c.left, Erase(c.left), c.right, Erase(c.right), c);
  }

  lemma TwoSided(c: Cst)
    requires c.PowC? || c.BinC? || c.AssignC?
    ensures Erase(c) == Binary(if c.PowC? then Pow else c.op, Erase(c.left), Erase(c.right))
  {
  }

  lemma PhraseOf(l: Cst, x: Expr, r: Cst, y: Expr, c: Cst)
    requires c == PowC(l, r) || (c.BinC? && Rank(c.op) > 0) || (c.AssignC? && AssignToken(OP(c.op)))
    ensures c.PowC? ==> Phrase(Binary(Pow, x, y)) == PowC(At(CALL, x), At(CALL, y))
    ensures c.BinC? ==> Phrase(Binary(c.op, x, y)) == BinC(At(Rank(c.op), x), c.op, At(Rank(c.op) + 1, y))
    ensures c.AssignC? ==> Phrase(Binary(c.op, x, y)) == AssignC(At(FORK, x), c.op, At(NOT, y))
  {
    hide At;
  }

  lemma {:induction false} ForkFewest(i: Cst)
    requires Derives(LOGICAL_OR, i) && Printable(Erase(ForkC(i)))
    ensures Parens(Phrase(Erase(ForkC(i)))) <= Parens(i) && FORK <= Own(Phrase(Erase(ForkC(i))))
    decreases i, 3
  {
    var e := Erase(i);
    PrintableFork(e);
    FewestParens(LOGICAL_OR, i);
    assert Parens(At(NOT, e)) <= Parens(At(LOGICAL_OR, e));
    ForkPhrase(e);
  }

  lemma PrintableFork(e: Expr)
    requires Printable(Call(Id("fork"), Args([e], [])))
    ensures Printable(e)
  {
    assert PrintableArgs(Args([e], [])) && e in [e];
  }

  lemma ForkPhrase(e: Expr)
    ensures Parens(Phrase(Call(Id("fork"), Args([e], [])))) == Parens(At(NOT, e))
  {
    var p := Positionals([e], false);
    assert p == Cons(Positional(Member(e, true)), Positionals([e][1..], false));
    assert Positionals([e][1..], false) == Nil && Keywords([], false) == Nil;
    assert Append(p, Nil) == Cons(p.head, Append(Nil, Nil));
    assert ArgPhrases(Args([e], [])) == p;
    assert Parens(At(CALL, Id("fork"))) == 0;
    assert ParensArgs(p) == Parens(At(NOT, e));
  }

  /** A comma follows: the phrase at hand does not end in an open declaration list, and making the
      printed one not do so costs no more. */
  lemma {:induction false} MemberFewest(c: Cst, last: bool)
    requires Derives(NOT, c) && Printable(Erase(c)) && (!last ==> !OpenDim(c))
    ensures Parens(Member(Erase(c), last)) <= Parens(c)
    decreases c, 2
  {
    FewestParens(NOT, c);
    if !last && OpenDim(Phrase(Erase(c))) {
      match c
      case NotC(i) => MemberFewest(i, false);
      case AssignC(x, _, y) => FewestParens(FORK, x); MemberFewest(y, false);
      case Paren(i) => FewestParens(NOT, i);
      case CallC(_, _) =>
      case _ =>
    }
  }

  lemma {:induction false} ElemsFewest(es: List<Cst>, trailing: bool)
    requires DerivesElems(es, trailing) && forall v :: v in EraseElems(es) ==> Printable(v)
    ensures ParensElems(Elems(EraseElems(es))) <= ParensElems(es)
    decreases es
  {
    hide Derives, Erase, Printable, OpenDim, Member, Parens;
    if es.Cons? {
      var vals, t := EraseElems(es), EraseElems(es.tail);
      assert vals[0] == Erase(es.head) && vals[1..] == t;
      assert forall v :: v in t ==> v in vals;
      assert t == [] <==> es.tail.Nil?;
      MemberFewest(es.head, |vals| == 1);
      if es.tail.Cons? { ElemsFewest(es.tail, trailing); }
      assert Elems(vals) == Cons(Member(vals[0], |vals| == 1), Elems(t));
    }
  }

  lemma {:induction false} PairsFewest(ps: List<CPair>, trailing: bool)
    requires DerivesPairs(ps, trailing) && forall p :: p in ErasePairs(ps) ==> Printable(p.key) && Printable(p.val)
    ensures ParensPairs(Pairs(ErasePairs(ps))) <= ParensPairs(ps)
    decreases ps
  {
    hide Derives, Erase, Printable, OpenDim, Member, Parens, At;
    if ps.Cons? {
      var pairs, t := ErasePairs(ps), ErasePairs(ps.tail);
      assert pairs[0] == Pair(Erase(ps.head.key), Erase(ps.head.val)) && pairs[1..] == t;
      assert forall v :: v in t ==> v in pairs;
      assert t == [] <==> ps.tail.Nil?;
      FewestParens(NOT, ps.head.key);
      MemberFewest(ps.head.val, |pairs| == 1);
      if ps.tail.Cons? { PairsFewest(ps.tail, trailing); }
      assert Pairs(pairs) == Cons(PairC(pairs[0], |pairs| == 1), Pairs(t));
    }
  }

  // ----- arguments: only the last one may end in an open declaration list

  /** The parentheses of an argument that a comma follows. */
  function Cost(e: Expr): nat { Parens(Member(e, false)) }

  /** What it saves to put the argument last. */
  function Saving(e: Expr): nat { if OpenDim(At(NOT, e)) then 1 else 0 }

  lemma LastCost(e: Expr)
    ensures Parens(Member(e, true)) == Cost(e) - Saving(e)
  {
  }

  function Costs(vals: seq<Expr>): nat {
    if vals == [] then 0 else Costs(vals[..|vals| - 1]) + Cost(vals[|vals| - 1])
  }

  function Values(named: seq<Named>): (vals: seq<Expr>)
    ensures |vals| == |named|
  {
    if named == [] then [] else Values(named[..|named| - 1]) + [named[|named| - 1].val]
  }

  function LastSaving(vals: seq<Expr>): nat { if vals == [] then 0 else Saving(vals[|vals| - 1]) }

  function Best(vals: seq<Expr>, named: seq<Expr>): nat {
    if LastSaving(vals) > LastSaving(named) then LastSaving(vals) else LastSaving(named)
  }

  lemma {:induction false} CostsFront(vals: seq<Expr>)
    requires vals != []
    ensures Costs(vals) == Cost(vals[0]) + Costs(vals[1..])
  {
    hide Cost;
    var n := |vals| - 1;
    if n > 0 {
      CostsFront(vals[..n]);
      assert vals[..n][1..] == vals[1..][..n - 1];
    } else {
      assert vals[..0] == [] && vals[1..] == [];
    }
  }

  lemma {:induction false} ValuesFront(named: seq<Named>)
    requires named != []
    ensures Values(named) == [named[0].val] + Values(named[1..])
  {
    var n := |named| - 1;
    if n > 0 {
      ValuesFront(named[..n]);
      assert named[..n][1..] == named[1..][..n - 1];
    } else {
      assert named[..0] == [] && named[1..] == [];
    }
  }

  lemma {:induction false} PositionalsCost(vals: seq<Expr>, more: bool)
    ensures ParensArgs(Positionals(vals, more)) == Costs(vals) - if more then 0 else LastSaving(vals)
    decreases vals
  {
    hide Cost, Saving, Parens, Member;
    if vals != [] {
      CostsFront(vals);
      LastCost(vals[0]);
      CostIs(vals[0]);
      PositionalsCost(vals[1..], more);
    }
  }

  lemma CostIs(e: Expr)
    ensures Parens(Member(e, false)) == Cost(e)
  {
  }

  lemma {:induction false} KeywordsCost(named: seq<Named>, more: bool)
    ensures ParensArgs(Keywords(named, more)) == Costs(Values(named)) - if more then 0 else LastSaving(Values(named))
    decreases named
  {
    hide Cost, Saving, KeywordC, Values;
    if named == [] {
      assert Values([]) == [];
    } else {
      ValuesFront(named);
      CostsFront(Values(named));
      KeywordCost(named[0], |named| == 1 && !more);
      KeywordsCost(named[1..], more);
      assert Values(named)[1..] == Values(named[1..]);
    }
  }

  lemma KeywordCost(n: Named, last: bool)
    ensures var a := KeywordC(n, last);
      && a.Keyword? && Parens(a.key) == 0
      && Parens(a.val) == Cost(n.val) - if last then Saving(n.val) else 0
  {
    hide Cost, Saving, Member;
    LastCost(n.val);
    CostIs(n.val);
  }

  lemma {:induction false} AppendParens(a: List<CArg>, b: List<CArg>)
    ensures ParensArgs(Append(a, b)) == ParensArgs(a) + ParensArgs(b)
  {
    hide Parens;
    if a.Cons? { AppendParens(a.tail, b); }
  }

  /** The printed arguments save what can be saved. */
  lemma PhrasesCost(vals: seq<Expr>, named: seq<Named>)
    ensures ParensArgs(ArgPhrases(Args(vals, named))) == Costs(vals) + Costs(Values(named)) - Best(vals, Values(named))
  {
    hide Costs, Positionals, Keywords, ParensArgs, Append, At;
    if named != [] && vals != [] && OpenDim(At(NOT, vals[|vals| - 1])) {
      AppendParens(Keywords(named, true), Positionals(vals, false));
      PositionalsCost(vals, false);
      KeywordsCost(named, true);
    } else {
      AppendParens(Positionals(vals, named != []), Keywords(named, false));
      PositionalsCost(vals, named != []);
      KeywordsCost(named, false);
    }
  }

  lemma CostsMore(vals: seq<Expr>, e: Expr)
    ensures Costs(vals + [e]) == Costs(vals) + Cost(e) && LastSaving(vals + [e]) == Saving(e)
  {
    hide Cost, Saving;
    assert (vals + [e])[..|vals|] == vals;
  }

  lemma ValuesMore(named: seq<Named>, n: Named)
    ensures Values(named + [n]) == Values(named) + [n.val]
  {
    assert (named + [n])[..|named|] == named;
  }

  /** An argument costs at least what it costs printed there. */
  lemma {:induction false} ArgFewest(c: Cst, last: bool)
    requires Derives(NOT, c) && Printable(Erase(c)) && (!last ==> !OpenDim(c))
    ensures Parens(c) >= Cost(Erase(c)) - if last then Saving(Erase(c)) else 0
    decreases c, 3
  {
    hide Parens, Member, Printable, Derives, Erase, OpenDim, Cost, Saving;
    MemberFewest(c, last);
    LastCost(Erase(c));
    CostIs(Erase(c));
  }

  lemma {:induction false} ArgsFewest(args: List<CArg>, vals: seq<Expr>, named: seq<Named>)
    requires args.Cons? && DerivesArgs(args) && PrintableArgs(EraseArgs(args, vals, named))
    ensures var r := EraseArgs(args, vals, named);
      ParensArgs(args) + Costs(vals) + Costs(Values(named)) + Best(r.vals, Values(r.named))
        >= Costs(r.vals) + Costs(Values(r.named))
    decreases args, 0
  {
    hide Derives, Erase, Printable, OpenDim, Parens, Costs, Values, Cost, Saving;
    var a := args.head;
    var e := Erase(a.val);
    ArgPrintable(args, vals, named);
    ArgFewest(a.val, args.tail.Nil?);
    if a.Positional? {
      CostsMore(vals, e);
      if args.tail.Cons? { ArgsFewest(args.tail, vals + [e], named); }
    } else {
      var n := Named(KeyName(Erase(a.key)), e);
      ValuesMore(named, n);
      CostsMore(Values(named), e);
      if args.tail.Cons? { ArgsFewest(args.tail, vals, named + [n]); }
    }
  }

  lemma ArgPrintable(args: List<CArg>, vals: seq<Expr>, named: seq<Named>)
    requires args.Cons? && PrintableArgs(EraseArgs(args, vals, named))
    ensures Printable(Erase(args.head.val))
  {
    hide Erase, Printable;
    var a := args.head;
    var r := EraseArgs(args, vals, named);
    if a.Positional? {
      var more := vals + [Erase(a.val)];
      ArgsGrow(args.tail, more, named);
      assert r.vals[|vals|] == more[|vals|];
    } else {
      var more := named + [Named(KeyName(Erase(a.key)), Erase(a.val))];
      ArgsGrow(args.tail, vals, more);
      assert r.named[|named|] == more[|named|] && PrintableNamed(r.named[|named|]);
    }
  }

  lemma {:induction false} CallFewest(args: List<CArg>)
    requires DerivesArgs(args) && PrintableArgs(EraseArgs(args, [], []))
    ensures ParensArgs(ArgPhrases(EraseArgs(args, [], []))) <= ParensArgs(args)
    decreases args, 1
  {
    hide Derives, Erase, Printable, OpenDim, Parens, ArgPhrases, Cost, Saving;
    var r := EraseArgs(args, [], []);
    PhrasesCost(r.vals, r.named);
    assert Costs([]) == 0 && Values([]) == [];
    if args.Cons? { ArgsFewest(args, [], []); }
  }

  lemma {:induction false} ItemsFewest(items: List<CItem>)
    requires DerivesItems(items) && PrintableItems(EraseItems(items))
    ensures ParensItems(ItemList(EraseItems(items))) <= ParensItems(items)
    decreases items
  {
    hide Derives, Erase, Printable, OpenDim, Member, Parens;
    if items.Cons? {
      var all, t := EraseItems(items), EraseItems(items.tail);
      assert all[0] == EraseItem(items.head) && all[1..] == t;
      assert forall v :: v in t ==> v in all;
      assert t == [] <==> items.tail.Nil?;
      assert PrintableItem(all[0]);
      if items.head.init.Some? { MemberFewest(items.head.init.value, |all| == 1); }
      ItemsFewest(items.tail);
      assert ItemList(all) == Cons(ItemC(all[0], |all| == 1), ItemList(t));
    }
  }
}
