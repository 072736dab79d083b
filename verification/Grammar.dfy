/** The language's expression grammar as derivation trees, independent of any parser: which
    trees the precedence levels allow, what tokens each one spells, which syntax tree it means. */
module Grammar {
  import opened Options
  import opened Tokens
  import opened Ast
  import opened Productions

  datatype List<+T> = Nil | Cons(head: T, tail: List<T>)

  datatype Cst =
    | Atom(tok: Token)
    | Paren(inner: Cst)
    | ArrayC(elems: List<Cst>, trailing: bool)
    | HashC(pairs: List<CPair>, trailing: bool)
    | CallC(fn: Cst, args: List<CArg>)
    | PowC(left: Cst, right: Cst)
    | PostC(inner: Cst, op: Op)
    | PreC(op: Op, inner: Cst)
    | BinC(left: Cst, op: Op, right: Cst)
    | ForkC(inner: Cst)
    | AssignC(left: Cst, op: Op, right: Cst)
    | DimC(items: List<CItem>)
    | NotC(inner: Cst)

  datatype CPair = CPair(key: Cst, val: Cst)

  datatype CArg = Positional(val: Cst) | Keyword(key: Cst, val: Cst)

  /** `trailing`: a comma after the last name, which the language allows. */
  datatype CItem = CItem(ids: seq<string>, trailing: bool, typ: string, init: Option<Cst>)

  /** The level of the production at the root. */
  function Own(c: Cst): nat {
    match c
    case NotC(_) => NOT
    case AssignC(_, _, _) => ASSIGNMENT
    case DimC(_) => ASSIGNMENT
    case ForkC(_) => FORK
    case BinC(_, op, _) => Rank(op)
    case PreC(_, _) => UNARY
    case PostC(_, _) => POSTFIX
    case PowC(_, _) => POWER
    case CallC(_, _) => CALL
    case _ => PRIMARY
  }

  /** The tree ends in a declaration list, which takes a comma that follows for its own. */
  predicate OpenDim(c: Cst) {
    match c
    case NotC(i) => OpenDim(i)
    case AssignC(_, _, r) => OpenDim(r)
    case DimC(_) => true
    case _ => false
  }

  /** A derivation of the grammar at level `l`: operands of a binary operator at its own level on
      the left and one tighter on the right, assignment the other way round, `**` on neither side. */
  predicate Derives(l: nat, c: Cst)
    decreases c
  {
    Own(c) >= l &&
    match c
    case Atom(t) => t.ID? || t.INT? || t.DOUBLE? || t.STRING?
    case Paren(i) => Derives(NOT, i)
    case ArrayC(es, trailing) => DerivesElems(es, trailing)
    case HashC(ps, trailing) => DerivesPairs(ps, trailing)
    case CallC(f, args) => Derives(CALL, f) && DerivesArgs(args)
    case PowC(x, y) => Derives(CALL, x) && Derives(CALL, y)
    case PostC(i, op) => Derives(POWER, i) && PostfixToken(OP(op))
    case PreC(op, i) => PrefixToken(OP(op)) && Derives(UNARY, i)
    case BinC(x, op, y) =>
      Rank(op) > 0 && Derives(Rank(op), x) && Derives(Rank(op) + 1, y)
    case ForkC(i) => Derives(LOGICAL_OR, i)
    case AssignC(x, op, y) => Derives(FORK, x) && AssignToken(OP(op)) && Derives(NOT, y)
    case DimC(items) => items.Cons? && DerivesItems(items)
    case NotC(i) => Derives(NOT, i)
  }

  predicate DerivesElems(es: List<Cst>, trailing: bool) {
    match es
    case Nil => !trailing
    case Cons(c, t) =>
      && Derives(NOT, c) && (trailing || t.Cons? ==> !OpenDim(c))
      && (t.Cons? ==> DerivesElems(t, trailing))
  }

  predicate DerivesPairs(ps: List<CPair>, trailing: bool) {
    match ps
    case Nil => !trailing
    case Cons(p, t) =>
      && Derives(NOT, p.key) && Derives(NOT, p.val) && (trailing || t.Cons? ==> !OpenDim(p.val))
      && (t.Cons? ==> DerivesPairs(t, trailing))
  }

  predicate DerivesArgs(args: List<CArg>) {
    match args
    case Nil => true
    case Cons(a, t) =>
      && Derives(NOT, a.val) && (t.Cons? ==> !OpenDim(a.val))
      && (a.Keyword? ==> Derives(NOT, a.key) && (Erase(a.key).Str? || Erase(a.key).Id?))
      && DerivesArgs(t)
  }

  predicate DerivesItems(items: List<CItem>) {
    match items
    case Nil => true
    case Cons(i, t) =>
      && i.ids != []
      && (i.init.Some? ==> Derives(NOT, i.init.value) && (t.Cons? ==> !OpenDim(i.init.value)))
      && DerivesItems(t)
  }

  // ----- the syntax tree meant

  function Erase(c: Cst): Expr {
    match c
    case Atom(t) =>
      (match t
       case ID(n) => Id(n)
       case INT(n) => Int(n)
       case DOUBLE(d) => Double(d)
       case STRING(s) => Str(s)
       case _ => Missing)
    case Paren(i) => Erase(i)
    case ArrayC(es, _) => Array(EraseElems(es))
    case HashC(ps, _) => Hash(ErasePairs(ps))
    case CallC(f, args) => Call(Erase(f), EraseArgs(args, [], []))
    case PowC(x, y) => Binary(Pow, Erase(x), Erase(y))
    case PostC(i, op) => Unary(op, Erase(i), true)
    case PreC(op, i) => Unary(op, Erase(i), false)
    case BinC(x, op, y) => Binary(op, Erase(x), Erase(y))
    case ForkC(i) => Call(Id("fork"), Args([Erase(i)], []))
    case AssignC(x, op, y) => Binary(op, Erase(x), Erase(y))
    case DimC(items) => Dim(EraseItems(items))
    case NotC(i) => Unary(LNot, Erase(i), false)
  }

  function EraseElems(es: List<Cst>): seq<Expr> {
    match es
    case Nil => []
    case Cons(c, t) => [Erase(c)] + EraseElems(t)
  }

  function ErasePairs(ps: List<CPair>): seq<Pair> {
    match ps
    case Nil => []
    case Cons(p, t) => [Pair(Erase(p.key), Erase(p.val))] + ErasePairs(t)
  }

  function KeyName(e: Expr): string {
    if e.Str? then e.text else if e.Id? then e.name else ""
  }

  function EraseArgs(args: List<CArg>, vals: seq<Expr>, named: seq<Named>): Args {
    match args
    case Nil => Args(vals, named)
    case Cons(a, t) =>
      if a.Positional? then EraseArgs(t, vals + [Erase(a.val)], named)
      else EraseArgs(t, vals, named + [Named(KeyName(Erase(a.key)), Erase(a.val))])
  }

  function EraseItem(i: CItem): Item {
    Item(Decl(i.ids, i.typ), if i.init.Some? then Some(Erase(i.init.value)) else None)
  }

  function EraseItems(items: List<CItem>): seq<Item> {
    match items
    case Nil => []
    case Cons(i, t) => [EraseItem(i)] + EraseItems(t)
  }

  // ----- the tokens spelt, followed by `rest`

  function Emit(c: Cst, rest: seq<Token>): seq<Token> {
    match c
    case Atom(t) => [t] + rest
    case Paren(i) => [LPAREN] + Emit(i, [RPAREN] + rest)
    case ArrayC(es, trailing) => [LBRACK] + EmitElems(es, trailing, [RBRACK] + rest)
    case HashC(ps, trailing) => [LBRACE] + EmitPairs(ps, trailing, [RBRACE] + rest)
    case CallC(f, args) => Emit(f, [LPAREN] + EmitArgs(args, [RPAREN] + rest))
    case PowC(x, y) => Emit(x, [OP(Pow)] + Emit(y, rest))
    case PostC(i, op) => Emit(i, [OP(op)] + rest)
    case PreC(op, i) => [OP(op)] + Emit(i, rest)
    case BinC(x, op, y) => Emit(x, [OP(op)] + Emit(y, rest))
    case ForkC(i) => Emit(i, [OP(Fork)] + rest)
    case AssignC(x, op, y) => Emit(x, [OP(op)] + Emit(y, rest))
    case DimC(items) => [DIM] + EmitItems(items, rest)
    case NotC(i) => [OP(LNot)] + Emit(i, rest)
  }

  function EmitElems(es: List<Cst>, trailing: bool, rest: seq<Token>): seq<Token> {
    match es
    case Nil => rest
    case Cons(c, Nil) => Emit(c, if trailing then [COMMA] + rest else rest)
    case Cons(c, t) => Emit(c, [COMMA] + EmitElems(t, trailing, rest))
  }

  function EmitPairs(ps: List<CPair>, trailing: bool, rest: seq<Token>): seq<Token> {
    match ps
    case Nil => rest
    case Cons(p, Nil) => Emit(p.key, [AS] + Emit(p.val, if trailing then [COMMA] + rest else rest))
    case Cons(p, t) => Emit(p.key, [AS] + Emit(p.val, [COMMA] + EmitPairs(t, trailing, rest)))
  }

  function EmitArg(a: CArg, rest: seq<Token>): seq<Token> {
    if a.Positional? then Emit(a.val, rest) else Emit(a.key, [AS] + Emit(a.val, rest))
  }

  function EmitArgs(args: List<CArg>, rest: seq<Token>): seq<Token> {
    match args
    case Nil => rest
    case Cons(a, Nil) => EmitArg(a, rest)
    case Cons(a, t) => EmitArg(a, [COMMA] + EmitArgs(t, rest))
  }

  function EmitIds(ids: seq<string>, trailing: bool, rest: seq<Token>): seq<Token> {
    if ids == [] then rest
    else if |ids| == 1 then [ID(ids[0])] + if trailing then [COMMA] + rest else rest
    else [ID(ids[0]), COMMA] + EmitIds(ids[1..], trailing, rest)
  }

  function EmitItem(i: CItem, rest: seq<Token>): seq<Token> {
    EmitIds(i.ids, i.trailing, [AS, ID(i.typ)]
      + if i.init.Some? then [OP(Assign)] + Emit(i.init.value, rest) else rest)
  }

  function EmitItems(items: List<CItem>, rest: seq<Token>): seq<Token> {
    match items
    case Nil => rest
    case Cons(i, Nil) => EmitItem(i, rest)
    case Cons(i, t) => EmitItem(i, [COMMA] + EmitItems(t, rest))
  }

  /** A token that some expression of level `l` would go on with. */
  predicate Extends(l: nat, t: Token) {
    || (t.OP? && Rank(t.op) > 0 && Rank(t.op) >= l)
    || (l <= FORK && t == OP(Fork))
    || (l <= ASSIGNMENT && AssignToken(t))
    || (l <= POSTFIX && PostfixToken(t))
    || (l <= POWER && t == OP(Pow))
    || (l <= CALL && t == LPAREN)
  }

  /** A complete operand of level `o` takes `t` at some level from `l` up. */
  predicate Grows(o: nat, l: nat, t: Token) {
    || (t.OP? && Rank(t.op) > 0 && l <= Rank(t.op) <= o)
    || (l <= FORK < o && t == OP(Fork))
    || (l <= ASSIGNMENT < o && AssignToken(t))
    || (l <= POSTFIX < o && PostfixToken(t))
    || (l <= POWER < o && t == OP(Pow))
    || (l <= CALL <= o && t == LPAREN)
  }

  /** Read at level `l`, the phrase would go on with `t`: at its root or at its right edge. */
  predicate Takes(l: nat, c: Cst, t: Token)
    decreases c
  {
    Grows(Own(c), l, t) ||
    match c
    case PowC(_, y) => Takes(CALL, y, t)
    case PreC(_, i) => Takes(UNARY, i, t)
    case BinC(_, op, y) => Takes(Rank(op) + 1, y, t)
    case AssignC(_, _, y) => Takes(NOT, y, t)
    case NotC(i) => Takes(NOT, i, t)
    case DimC(items) => t == COMMA || LastTakes(items, t)
    case _ => false
  }

  predicate LastTakes(items: List<CItem>, t: Token) {
    match items
    case Nil => false
    case Cons(i, Nil) => if i.init.Some? then Takes(NOT, i.init.value, t) else t == OP(Assign)
    case Cons(_, more) => LastTakes(more, t)
  }

  /** Where the phrase ends. */
  predicate Stops(l: nat, c: Cst, rest: seq<Token>) { !Takes(l, c, Peek(rest)) }

  lemma {:induction false} TakesExtends(l: nat, c: Cst, t: Token)
    requires Derives(l, c)
    ensures Takes(l, c, t) ==> Extends(l, t) || (t == COMMA && OpenDim(c))
    decreases c, 1
  {
    hide LastTakes, DerivesElems, DerivesPairs, DerivesArgs, DerivesItems, Erase, Extends, Grows;
    GrowsExtends(Own(c), l, t);
    match c
    case PowC(_, y) =>
      TakesExtends(CALL, y, t);
      ExtendsBelow(l, CALL, t);
    case PreC(_, i) =>
      TakesExtends(UNARY, i, t);
      ExtendsBelow(l, UNARY, t);
    case BinC(_, op, y) =>
      TakesExtends(Rank(op) + 1, y, t);
      ExtendsBelow(l, Rank(op) + 1, t);
    case AssignC(_, _, _) => LooseExtends(l, c, t);
    case NotC(_) => LooseExtends(l, c, t);
    case DimC(_) => LooseExtends(l, c, t);
    case _ =>
  }

  lemma {:induction false} LooseExtends(l: nat, c: Cst, t: Token)
    requires Derives(l, c) && (c.AssignC? || c.NotC? || c.DimC?)
    ensures Takes(l, c, t) ==> Extends(l, t) || (t == COMMA && OpenDim(c))
    decreases c, 0
  {
    hide LastTakes, DerivesElems, DerivesPairs, DerivesArgs, DerivesItems, Erase, Extends, Grows;
    GrowsExtends(Own(c), l, t);
    match c
    case AssignC(_, _, y) =>
      TakesExtends(NOT, y, t);
      ExtendsBelow(l, NOT, t);
    case NotC(i) =>
      TakesExtends(NOT, i, t);
      ExtendsBelow(l, NOT, t);
    case DimC(items) =>
      LastExtends(items, t);
      ExtendsBelow(l, NOT, t);
  }

  lemma GrowsExtends(o: nat, l: nat, t: Token)
    ensures Grows(o, l, t) ==> Extends(l, t)
  {
  }

  /** A token some tighter level goes on with; from assignment down the levels differ in nothing. */
  lemma ExtendsBelow(l: nat, m: nat, t: Token)
    ensures l <= m && Extends(m, t) ==> Extends(l, t)
    ensures l <= ASSIGNMENT && Extends(m, t) ==> Extends(l, t)
  {
  }

  lemma {:induction false} LastExtends(items: List<CItem>, t: Token)
    requires DerivesItems(items)
    ensures LastTakes(items, t) ==> Extends(NOT, t) || t == COMMA
  {
    match items
    case Nil =>
    case Cons(i, Nil) => if i.init.Some? { TakesExtends(NOT, i.init.value, t); }
    case Cons(_, more) => LastExtends(more, t);
  }

  lemma StopsBefore(l: nat, c: Cst, rest: seq<Token>)
    requires Derives(l, c) && !Extends(l, Peek(rest)) && (OpenDim(c) ==> Peek(rest) != COMMA)
    ensures Stops(l, c, rest)
  {
    TakesExtends(l, c, Peek(rest));
  }

  lemma {:induction false} TakesLess(l: nat, c: Cst, t: Token)
    requires Takes(l + 1, c, t)
    ensures Takes(l, c, t)
  {
  }

  /** An open declaration list takes the comma. */
  lemma {:induction false} OpenTakesComma(l: nat, c: Cst)
    ensures OpenDim(c) ==> Takes(l, c, COMMA)
    decreases c
  {
    match c
    case NotC(i) => OpenTakesComma(NOT, i);
    case AssignC(_, _, y) => OpenTakesComma(NOT, y);
    case _ =>
  }
}
