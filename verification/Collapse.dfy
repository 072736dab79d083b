/** The tree the parser builds, from the tree that lists everything it read: of the keyword arguments
    of one name, only the last one's value is left, in the place of the first. */
module Collapse {
  import opened Options
  import opened Tokens
  import opened Ast
  import opened Productions
  import opened ParserSpec

  function Collapsed(e: Expr): Expr
    decreases e
  {
    match e
    case Array(vals) => Array(AllCollapsed(vals))
    case Hash(pairs) => Hash(PairsCollapsed(pairs))
    case Unary(op, x, postfix) => Unary(op, Collapsed(x), postfix)
    case Binary(op, x, y) => Binary(op, Collapsed(x), Collapsed(y))
    case Call(f, args) => Call(Collapsed(f), ArgsCollapsed(args))
    case Dim(items) => Dim(ItemsCollapsed(items))
    case _ => e
  }

  function AllCollapsed(vals: seq<Expr>): seq<Expr>
    decreases vals
  {
    if vals == [] then [] else AllCollapsed(vals[..|vals| - 1]) + [Collapsed(vals[|vals| - 1])]
  }

  function PairsCollapsed(pairs: seq<Pair>): seq<Pair>
    decreases pairs
  {
    if pairs == [] then [] else PairsCollapsed(pairs[..|pairs| - 1]) + [PairCollapsed(pairs[|pairs| - 1])]
  }

  function PairCollapsed(p: Pair): Pair
    decreases p
  {
    Pair(Collapsed(p.key), Collapsed(p.val))
  }

  function ArgsCollapsed(args: Args): Args
    decreases args
  {
    match args
    case NoArgs => NoArgs
    case Args(vals, named) => Args(AllCollapsed(vals), NamedCollapsed(named))
  }

  function NamedCollapsed(named: seq<Named>): seq<Named>
    decreases named
  {
    if named == [] then []
    else SetNamed(NamedCollapsed(named[..|named| - 1]), named[|named| - 1].key, LastCollapsed(named[|named| - 1]))
  }

  function LastCollapsed(n: Named): Expr
    decreases n
  {
    Collapsed(n.val)
  }

  function ItemsCollapsed(items: seq<Item>): seq<Item>
    decreases items
  {
    if items == [] then [] else ItemsCollapsed(items[..|items| - 1]) + [ItemCollapsed(items[|items| - 1])]
  }

  function ItemCollapsed(i: Item): Item
    decreases i
  {
    Item(i.decl, OptionCollapsed(i.init))
  }

  function OptionCollapsed(e: Option<Expr>): Option<Expr>
    decreases e
  {
    match e
    case None => None
    case Some(x) => Some(Collapsed(x))
  }

  // ----- the expression parser

  function OfExpr(r: Res<Expr>): Res<Expr> {
    Res(match r.node case None => None case Some(e) => Some(Collapsed(e)), r.rest)
  }

  function OfArgs(r: Res<Args>): Res<Args> {
    Res(match r.node case None => None case Some(a) => Some(ArgsCollapsed(a)), r.rest)
  }

  function OfAll(r: Res<seq<Expr>>): Res<seq<Expr>> {
    Res(match r.node case None => None case Some(a) => Some(AllCollapsed(a)), r.rest)
  }

  function OfPairs(r: Res<seq<Pair>>): Res<seq<Pair>> {
    Res(match r.node case None => None case Some(a) => Some(PairsCollapsed(a)), r.rest)
  }

  function OfItems(r: Res<seq<Item>>): Res<seq<Item>> {
    Res(match r.node case None => None case Some(a) => Some(ItemsCollapsed(a)), r.rest)
  }

  /** The parser's tree is the collapsed tree of what it read. */
  lemma {:induction false} NotCollapses(ts: seq<Token>)
    ensures NotExpr(ts, false) == OfExpr(NotExpr(ts, true))
    decreases |ts|, 20
  {
    hide AssignExpr;
    if Peek(ts) == OP(LNot) { NotCollapses(ts[1..]); } else { AssignCollapses(ts); }
  }

  lemma {:induction false} AssignCollapses(ts: seq<Token>)
    ensures AssignExpr(ts, false) == OfExpr(AssignExpr(ts, true))
    decreases |ts|, 19
  {
    hide NotExpr, ForkExpr, DimExpr;
    if Peek(ts) == DIM {
      DimCollapses(ts[1..]);
    } else {
      ForkCollapses(ts);
      var l := ForkExpr(ts, true);
      if l.node.Some? && IsAssign(Peek(l.rest)) { NotCollapses(l.rest[1..]); }
    }
  }

  lemma {:induction false} ForkCollapses(ts: seq<Token>)
    ensures ForkExpr(ts, false) == OfExpr(ForkExpr(ts, true))
    decreases |ts|, 18
  {
    hide BinaryExpr, Collapsed;
    BinaryCollapses(LOGICAL_OR, ts);
    var r := BinaryExpr(LOGICAL_OR, ts, true);
    if r.node.Some? { ForkCall(r.node.value); }
  }

  lemma ForkCall(e: Expr)
    ensures Collapsed(Call(Id("fork"), Args([e], []))) == Call(Id("fork"), Args([Collapsed(e)], []))
  {
    OneCollapsed(e);
    assert ArgsCollapsed(Args([e], [])) == Args([Collapsed(e)], []);
    assert Collapsed(Id("fork")) == Id("fork");
  }

  lemma OneCollapsed(e: Expr)
    ensures AllCollapsed([e]) == [Collapsed(e)] && NamedCollapsed([]) == []
  {
    hide Collapsed;
    assert [e][..0] == [] && AllCollapsed([]) == [];
  }

  lemma {:induction false} BinaryCollapses(l: nat, ts: seq<Token>)
    requires LOGICAL_OR <= l <= UNARY
    ensures BinaryExpr(l, ts, false) == OfExpr(BinaryExpr(l, ts, true))
    decreases |ts|, 20 - l
  {
    hide UnaryExpr, BinaryLoop;
    if l == UNARY {
      UnaryCollapses(ts);
    } else {
      BinaryCollapses(l + 1, ts);
      var r := BinaryExpr(l + 1, ts, true);
      if r.node.Some? { LoopCollapses(l, r.node.value, r.rest); }
    }
  }

  lemma {:induction false} LoopCollapses(l: nat, node: Expr, ts: seq<Token>)
    requires LOGICAL_OR <= l < UNARY
    ensures BinaryLoop(l, Collapsed(node), ts, false) == OfExpr(BinaryLoop(l, node, ts, true))
    decreases |ts|, 0
  {
    hide BinaryExpr;
    if AtLevel(Peek(ts), l) {
      BinaryCollapses(l + 1, ts[1..]);
      var r := BinaryExpr(l + 1, ts[1..], true);
      if r.node.Some? { LoopCollapses(l, Binary(ts[0].op, node, r.node.value), r.rest); }
    }
  }

  lemma {:induction false} UnaryCollapses(ts: seq<Token>)
    ensures UnaryExpr(ts, false) == OfExpr(UnaryExpr(ts, true))
    decreases |ts|, 6
  {
    hide PostfixExpr;
    if IsPrefix(Peek(ts)) { UnaryCollapses(ts[1..]); } else { PostfixCollapses(ts); }
  }

  lemma {:induction false} PostfixCollapses(ts: seq<Token>)
    ensures PostfixExpr(ts, false) == OfExpr(PostfixExpr(ts, true))
    decreases |ts|, 5
  {
    hide PowExpr;
    PowCollapses(ts);
  }

  lemma {:induction false} PowCollapses(ts: seq<Token>)
    ensures PowExpr(ts, false) == OfExpr(PowExpr(ts, true))
    decreases |ts|, 4
  {
    hide CallExpr;
    CallCollapses(ts);
    var l := CallExpr(ts, true);
    if l.node.Some? && Peek(l.rest) == OP(Pow) { CallCollapses(l.rest[1..]); }
  }

  lemma {:induction false} CallCollapses(ts: seq<Token>)
    ensures CallExpr(ts, false) == OfExpr(CallExpr(ts, true))
    decreases |ts|, 3
  {
    hide PrimaryExpr, CallRest;
    PrimaryCollapses(ts);
    var r := PrimaryExpr(ts, true);
    if r.node.Some? { CallRestCollapses(r.node.value, r.rest); }
  }

  lemma {:induction false} CallRestCollapses(left: Expr, ts: seq<Token>)
    ensures CallRest(Collapsed(left), ts, false) == OfExpr(CallRest(left, ts, true))
    decreases |ts|, 0
  {
    hide CallArgs;
    if Peek(ts) == LPAREN {
      NoneCollapsed();
      CallArgsCollapse(ts[1..], [], []);
      var a := if Peek(ts[1..]) == RPAREN then Res(Some(Args([], [])), ts[1..]) else CallArgs(ts[1..], [], [], true);
      var args := if a.node.Some? then a.node.value else NoArgs;
      if Peek(a.rest) == RPAREN { CallRestCollapses(Call(left, args), a.rest[1..]); }
    }
  }

  lemma NoneCollapsed()
    ensures AllCollapsed([]) == [] && NamedCollapsed([]) == [] && PairsCollapsed([]) == [] && ItemsCollapsed([]) == []
  {
  }

  lemma MoreCollapsed(vals: seq<Expr>, e: Expr)
    ensures AllCollapsed(vals + [e]) == AllCollapsed(vals) + [Collapsed(e)]
  {
    hide Collapsed;
    assert (vals + [e])[..|vals|] == vals;
  }

  lemma MoreNamed(named: seq<Named>, key: string, e: Expr)
    ensures NamedCollapsed(AddNamed(named, key, e, true)) == AddNamed(NamedCollapsed(named), key, Collapsed(e), false)
  {
    hide Collapsed, SetNamed;
    assert (named + [Named(key, e)])[..|named|] == named;
  }

  lemma {:induction false} CallArgsCollapse(ts: seq<Token>, vals: seq<Expr>, named: seq<Named>)
    ensures CallArgs(ts, AllCollapsed(vals), NamedCollapsed(named), false) == OfArgs(CallArgs(ts, vals, named, true))
    decreases |ts|, 21
  {
    hide NotExpr, AddNamed, AllCollapsed, NamedCollapsed;
    NotCollapses(ts);
    var e := NotExpr(ts, true);
    if e.node.Some? {
      KeyCollapsed(e.node.value);
      if Peek(e.rest) == AS {
        if e.node.value.Str? || e.node.value.Id? {
          NotCollapses(e.rest[1..]);
          var v := NotExpr(e.rest[1..], true);
          var key := if e.node.value.Str? then e.node.value.text else e.node.value.name;
          MoreNamed(named, key, OrMissing(v.node));
          if Peek(v.rest) == COMMA {
            CallArgsCollapse(v.rest[1..], vals, AddNamed(named, key, OrMissing(v.node), true));
          }
        }
      } else {
        MoreCollapsed(vals, e.node.value);
        if Peek(e.rest) == COMMA { CallArgsCollapse(e.rest[1..], vals + [e.node.value], named); }
      }
    }
  }

  lemma KeyCollapsed(e: Expr)
    ensures e.Str? || e.Id? || Collapsed(e).Str? || Collapsed(e).Id? ==> Collapsed(e) == e
    ensures Collapsed(Missing) == Missing
  {
  }

  lemma {:induction false} PrimaryCollapses(ts: seq<Token>)
    ensures PrimaryExpr(ts, false) == OfExpr(PrimaryExpr(ts, true))
    decreases |ts|, 2
  {
    hide NotExpr, ArgList, HashPairs, AllCollapsed, PairsCollapsed;
    NoneCollapsed();
    if ts != [] {
      if ts[0] == LBRACK { ListCollapses(ts[1..], RBRACK, []); }
      if ts[0] == LBRACE { HashCollapses(ts[1..], RBRACE, []); }
      if ts[0] == LPAREN { NotCollapses(ts[1..]); }
    }
  }

  lemma {:induction false} ListCollapses(ts: seq<Token>, delim: Token, vals: seq<Expr>)
    ensures ArgList(ts, delim, AllCollapsed(vals), false) == OfAll(ArgList(ts, delim, vals, true))
    decreases |ts|, 21
  {
    hide NotExpr, AllCollapsed, Collapsed;
    NotCollapses(ts);
    var e := NotExpr(ts, true);
    if e.node.Some? {
      MoreCollapsed(vals, e.node.value);
      if Peek(e.rest) == COMMA { ListCollapses(e.rest[1..], delim, vals + [e.node.value]); }
    }
  }

  lemma MorePairs(pairs: seq<Pair>, p: Pair)
    ensures PairsCollapsed(pairs + [p]) == PairsCollapsed(pairs) + [PairCollapsed(p)]
  {
    hide Collapsed;
    assert (pairs + [p])[..|pairs|] == pairs;
  }

  lemma {:induction false} HashCollapses(ts: seq<Token>, delim: Token, pairs: seq<Pair>)
    ensures HashPairs(ts, delim, PairsCollapsed(pairs), false) == OfPairs(HashPairs(ts, delim, pairs, true))
    decreases |ts|, 21
  {
    hide NotExpr, PairsCollapsed, Collapsed, HashPairs;
    PairsStep(ts, delim, pairs, true);
    PairsStep(ts, delim, PairsCollapsed(pairs), false);
    NotCollapses(ts);
    var k := NotExpr(ts, true);
    if Peek(ts) != delim && k.node.Some? && Peek(k.rest) == AS {
      NotCollapses(k.rest[1..]);
      var v := NotExpr(k.rest[1..], true);
      if v.node.Some? {
        var p := Pair(k.node.value, v.node.value);
        MorePairs(pairs, p);
        if Peek(v.rest) == COMMA { HashCollapses(v.rest[1..], delim, pairs + [p]); }
      }
    }
  }

  /** One pair of a hash. */
  lemma PairsStep(ts: seq<Token>, delim: Token, pairs: seq<Pair>, keep: bool)
    ensures HashPairs(ts, delim, pairs, keep) ==
      if Peek(ts) == delim then Res(Some(pairs), ts)
      else
        var k := NotExpr(ts, keep);
        if k.node.None? || Peek(k.rest) != AS then Res(None, k.rest)
        else
          var v := NotExpr(k.rest[1..], keep);
          if v.node.None? then Res(None, v.rest)
          else
            var all := pairs + [Pair(k.node.value, v.node.value)];
            if Peek(v.rest) == COMMA then HashPairs(v.rest[1..], delim, all, keep) else Res(Some(all), v.rest)
  {
    hide NotExpr;
  }

  lemma MoreItems(items: seq<Item>, i: Item)
    ensures ItemsCollapsed(items + [i]) == ItemsCollapsed(items) + [ItemCollapsed(i)]
  {
    hide Collapsed;
    assert (items + [i])[..|items|] == items;
  }

  lemma {:induction false} ItemsCollapse(ts: seq<Token>, items: seq<Item>)
    ensures Items(ts, ItemsCollapsed(items), false) == OfItems(Items(ts, items, true))
    decreases |ts|, 21
  {
    hide NotExpr, DeclExpr, ItemsCollapsed, ItemsRest;
    var d := DeclExpr(ts);
    if d.node.Some? {
      if Peek(d.rest) == OP(Assign) {
        NotCollapses(d.rest[1..]);
        var v := NotExpr(d.rest[1..], true);
        if v.node.Some? {
          MoreItems(items, Item(d.node.value, v.node));
          ItemsRestCollapse(v.rest, items + [Item(d.node.value, v.node)]);
        }
      } else {
        MoreItems(items, Item(d.node.value, None));
        ItemsRestCollapse(d.rest, items + [Item(d.node.value, None)]);
      }
    }
  }

  lemma {:induction false} ItemsRestCollapse(ts: seq<Token>, items: seq<Item>)
    ensures ItemsRest(ts, ItemsCollapsed(items), false) == OfItems(ItemsRest(ts, items, true))
    decreases |ts|, 22
  {
    hide Items, ItemsCollapsed;
    if Peek(ts) == COMMA { ItemsCollapse(ts[1..], items); }
  }

  lemma {:induction false} DimCollapses(ts: seq<Token>)
    ensures DimExpr(ts, false) == OfExpr(DimExpr(ts, true))
    decreases |ts|, 22
  {
    hide Items, ItemsCollapsed;
    NoneCollapsed();
    ItemsCollapse(ts, []);
  }

  // ----- which values are left

  /** The place of a key, or the end. */
  function Place(named: seq<Named>, key: string): (i: nat)
    ensures i <= |named| && (i < |named| ==> named[i].key == key)
    ensures forall j :: 0 <= j < i ==> named[j].key != key
  {
    if named == [] then 0 else if named[0].key == key then 0 else 1 + Place(named[1..], key)
  }

  /** A key given again keeps its place and gets the new value; a new one comes last. */
  lemma {:induction false} SetInPlace(named: seq<Named>, key: string, val: Expr)
    ensures var i := Place(named, key);
      SetNamed(named, key, val) == if i < |named| then named[i := Named(key, val)] else named + [Named(key, val)]
  {
    if named != [] && named[0].key != key {
      SetInPlace(named[1..], key, val);
      assert named == [named[0]] + named[1..];
    }
  }

  /** Of the arguments of one name the last is left, once. */
  lemma {:induction false} LastValueWins(named: seq<Named>, i: nat)
    requires i < |named| && forall j :: i < j < |named| ==> named[j].key != named[i].key
    ensures Named(named[i].key, Collapsed(named[i].val)) in NamedCollapsed(named)
    ensures Distinct(NamedCollapsed(named))
    decreases |named|
  {
    hide Collapsed;
    OnceEach(named);
    var m := |named| - 1;
    var before := NamedCollapsed(named[..m]);
    var k, val := Place(before, named[m].key), LastCollapsed(named[m]);
    SetInPlace(before, named[m].key, val);
    var r := NamedCollapsed(named);
    if i < m {
      LastValueWins(named[..m], i);
      var one := Named(named[i].key, Collapsed(named[i].val));
      var j :| 0 <= j < |before| && before[j] == one;
      assert r[j] == one;
    } else {
      assert r[k] == Named(named[m].key, val);
    }
  }

  /** No name is left twice. */
  lemma {:induction false} OnceEach(named: seq<Named>)
    ensures Distinct(NamedCollapsed(named))
    decreases |named|
  {
    hide Collapsed;
    if named != [] {
      var m := |named| - 1;
      OnceEach(named[..m]);
      SetInPlace(NamedCollapsed(named[..m]), named[m].key, LastCollapsed(named[m]));
    }
  }

  // ----- trees without repeated keywords

  predicate Distinct(named: seq<Named>) {
    forall i, j :: 0 <= i < j < |named| ==> named[i].key != named[j].key
  }

  /** No call gives a keyword twice. */
  predicate NoRepeats(e: Expr) {
    match e
    case Array(vals) => forall v :: v in vals ==> NoRepeats(v)
    case Hash(pairs) => forall p :: p in pairs ==> NoRepeats(p.key) && NoRepeats(p.val)
    case Unary(_, x, _) => NoRepeats(x)
    case Binary(_, x, y) => NoRepeats(x) && NoRepeats(y)
    case Call(f, args) =>
      NoRepeats(f) && (args.Args? ==>
        && (forall v :: v in args.vals ==> NoRepeats(v))
        && Distinct(args.named) && forall n :: n in args.named ==> NoRepeats(n.val))
    case Dim(items) => forall i :: i in items ==> i.init.Some? ==> NoRepeats(i.init.value)
    case _ => true
  }

  /** Then the parser's tree lists all that was read. */
  lemma {:induction false} NothingCollapses(e: Expr)
    requires NoRepeats(e)
    ensures Collapsed(e) == e
    decreases e
  {
    hide AllCollapsed, PairsCollapsed, NamedCollapsed, ItemsCollapsed;
    match e
    case Array(vals) => AllSame(vals);
    case Hash(pairs) => PairsSame(pairs);
    case Unary(_, x, _) => NothingCollapses(x);
    case Binary(_, x, y) =>
      NothingCollapses(x);
      NothingCollapses(y);
    case Call(f, args) =>
      NothingCollapses(f);
      if args.Args? {
        AllSame(args.vals);
        NamedSame(args.named);
      }
    case Dim(items) => ItemsSame(items);
    case _ =>
  }

  lemma {:induction false} AllSame(vals: seq<Expr>)
    requires forall v :: v in vals ==> NoRepeats(v)
    ensures AllCollapsed(vals) == vals
    decreases vals
  {
    hide Collapsed, NoRepeats;
    if vals != [] {
      var m := |vals| - 1;
      assert vals == vals[..m] + [vals[m]];
      AllSame(vals[..m]);
      assert vals[m] in vals;
      NothingCollapses(vals[m]);
    }
  }

  lemma {:induction false} PairsSame(pairs: seq<Pair>)
    requires forall p :: p in pairs ==> NoRepeats(p.key) && NoRepeats(p.val)
    ensures PairsCollapsed(pairs) == pairs
    decreases pairs
  {
    hide Collapsed, NoRepeats;
    if pairs != [] {
      PairsSame(pairs[..|pairs| - 1]);
      PairSame(pairs[|pairs| - 1]);
    }
  }

  lemma {:induction false} PairSame(p: Pair)
    requires NoRepeats(p.key) && NoRepeats(p.val)
    ensures PairCollapsed(p) == p
    decreases p
  {
    NothingCollapses(p.key);
    NothingCollapses(p.val);
  }

  lemma {:induction false} NewName(named: seq<Named>, key: string, val: Expr)
    requires forall n :: n in named ==> n.key != key
    ensures SetNamed(named, key, val) == named + [Named(key, val)]
  {
    if named != [] { NewName(named[1..], key, val); }
  }

  lemma {:induction false} NamedSame(named: seq<Named>)
    requires Distinct(named) && forall n :: n in named ==> NoRepeats(n.val)
    ensures NamedCollapsed(named) == named
    decreases named
  {
    hide Collapsed, NoRepeats, SetNamed;
    if named != [] {
      var m := |named| - 1;
      NamedSame(named[..m]);
      LastSame(named[m]);
      NewName(named[..m], named[m].key, named[m].val);
      assert named == named[..m] + [named[m]];
    }
  }

  lemma {:induction false} LastSame(n: Named)
    requires NoRepeats(n.val)
    ensures LastCollapsed(n) == n.val
    decreases n
  {
    NothingCollapses(n.val);
  }

  lemma {:induction false} ItemsSame(items: seq<Item>)
    requires forall i :: i in items ==> i.init.Some? ==> NoRepeats(i.init.value)
    ensures ItemsCollapsed(items) == items
    decreases items
  {
    hide Collapsed, NoRepeats;
    if items != [] {
      ItemsSame(items[..|items| - 1]);
      ItemSame(items[|items| - 1]);
    }
  }

  lemma {:induction false} ItemSame(i: Item)
    requires i.init.Some? ==> NoRepeats(i.init.value)
    ensures ItemCollapsed(i) == i
    decreases i
  {
    OptionSame(i.init);
  }

  lemma {:induction false} OptionSame(e: Option<Expr>)
    requires e.Some? ==> NoRepeats(e.value)
    ensures OptionCollapsed(e) == e
    decreases e
  {
    if e.Some? { NothingCollapses(e.value); }
  }
}
