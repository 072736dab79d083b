/** The statements the parser accepts, as derivation trees: what tokens each one spells, which syntax
    tree it means, and where it ends. A block ends at any closing word, whatever opened it. */
module StmtGrammar {
  import opened Options
  import opened Tokens
  import opened Ast
  import opened Productions
  import opened Grammar
  import opened ExprComplete
  import opened ExprSound

  /** `semi`: one of the optional ';' is there. */
  datatype CLine = CLine(stmt: CStmt, semi: bool)

  /** What ends a block: an `else` or `elseif` left to the statement around it, `loop`, or `end` with one
      of three words. */
  datatype Closer = BeforeElse | AtLoop | AtEnd(what: Token)

  datatype CBlock = CBlock(lines: List<CLine>, closer: Closer)

  datatype CBranch = CBranch(cond: Cst, body: CBlock)

  datatype CElse = NoElseC | ElseC(body: CBlock)

  /** The parentheses of a function without parameters may be missing. */
  datatype CSig = CSig(name: string, params: Option<List<CItem>>, typ: Option<string>, semi: bool)

  datatype CField = CField(ids: seq<string>, trailing: bool, typ: string, semi: bool)

  datatype CStmt =
    | EvalC(expr: Cst)
    | PrintC(values: List<Cst>, trailing: bool)
    | InputC(param: Cst, semi: bool)
    | IfC(first: CBranch, elseIfs: List<CBranch>, otherwise: CElse)
    | WhileC(cond: Cst, semi: bool, body: CBlock)
    | ReturnC(result: Option<Cst>)
    | ScopeC(body: CBlock)
    | DeclareC(sig: CSig)
    | FunctionC(sig: CSig, body: CBlock)
    | TypeC(name: string, semi: bool, fields: List<CField>)

  // ----- the tokens spelled

  function Semi(semi: bool, rest: seq<Token>): seq<Token> { if semi then [SEMICOLON] + rest else rest }

  function EmitStmt(s: CStmt, rest: seq<Token>): seq<Token>
    decreases s
  {
    match s
    case EvalC(e) => Emit(e, rest)
    case PrintC(values, trailing) => [PRINT] + EmitValues(values, trailing, rest)
    case InputC(e, semi) => [INPUT] + Emit(e, Semi(semi, rest))
    case IfC(first, elseIfs, o) => [IF] + EmitBranch(first, EmitBranches(elseIfs, EmitElse(o, rest)))
    case WhileC(c, semi, b) => [DO] + ([WHILE] + Emit(c, Semi(semi, EmitBlock(b, rest))))
    case ReturnC(None) => [RETURN] + ([SEMICOLON] + rest)
    case ReturnC(Some(e)) => [RETURN] + Emit(e, rest)
    case ScopeC(b) => [SCOPE] + EmitBlock(b, rest)
    case DeclareC(sig) => [DECLARE] + ([FUNCTION] + EmitSig(sig, rest))
    case FunctionC(sig, b) => [FUNCTION] + EmitSig(sig, EmitBlock(b, rest))
    case TypeC(name, semi, fields) => [TYPE] + ([ID(name)] + Semi(semi, EmitFields(fields, [END] + rest)))
  }

  function EmitValues(values: List<Cst>, trailing: bool, rest: seq<Token>): seq<Token> {
    match values
    case Nil => rest
    case Cons(c, Nil) => Emit(c, Semi(trailing, rest))
    case Cons(c, t) => Emit(c, [SEMICOLON] + EmitValues(t, trailing, rest))
  }

  function EmitLines(lines: List<CLine>, rest: seq<Token>): seq<Token>
    decreases lines
  {
    match lines
    case Nil => rest
    case Cons(l, t) => EmitLine(l, EmitLines(t, rest))
  }

  function EmitLine(l: CLine, rest: seq<Token>): seq<Token>
    decreases l
  {
    EmitStmt(l.stmt, Semi(l.semi, rest))
  }

  function EmitCloser(c: Closer, rest: seq<Token>): seq<Token> {
    match c
    case BeforeElse => rest
    case AtLoop => [LOOP] + rest
    case AtEnd(t) => [END] + ([t] + rest)
  }

  function EmitBlock(b: CBlock, rest: seq<Token>): seq<Token>
    decreases b
  {
    EmitLines(b.lines, EmitCloser(b.closer, rest))
  }

  function EmitBranch(b: CBranch, rest: seq<Token>): seq<Token>
    decreases b
  {
    Emit(b.cond, [THEN] + EmitBlock(b.body, rest))
  }

  function EmitBranches(bs: List<CBranch>, rest: seq<Token>): seq<Token>
    decreases bs
  {
    match bs
    case Nil => rest
    case Cons(b, t) => [ELSEIF] + EmitBranch(b, EmitBranches(t, rest))
  }

  function EmitElse(o: CElse, rest: seq<Token>): seq<Token>
    decreases o
  {
    match o
    case NoElseC => rest
    case ElseC(b) => [ELSE] + EmitBlock(b, rest)
  }

  function EmitParams(params: Option<List<CItem>>, rest: seq<Token>): seq<Token> {
    match params
    case None => rest
    case Some(items) => [LPAREN] + EmitItems(items, [RPAREN] + rest)
  }

  function EmitType(typ: Option<string>, rest: seq<Token>): seq<Token> {
    match typ
    case None => rest
    case Some(t) => [AS] + ([ID(t)] + rest)
  }

  function EmitSig(sig: CSig, rest: seq<Token>): seq<Token> {
    [ID(sig.name)] + EmitParams(sig.params, EmitType(sig.typ, Semi(sig.semi, rest)))
  }

  function EmitField(f: CField, rest: seq<Token>): seq<Token> {
    EmitIds(f.ids, f.trailing, [AS, ID(f.typ)] + Semi(f.semi, rest))
  }

  function EmitFields(fields: List<CField>, rest: seq<Token>): seq<Token> {
    match fields
    case Nil => rest
    case Cons(f, t) => EmitField(f, EmitFields(t, rest))
  }

  // ----- the syntax tree meant

  function EraseStmt(s: CStmt): Stmt
    decreases s
  {
    match s
    case EvalC(e) => Eval(Erase(e))
    case PrintC(values, _) => Print(EraseElems(values))
    case InputC(e, _) => Input(Erase(e))
    case IfC(first, elseIfs, o) =>
      If(Erase(first.cond), EraseBlock(first.body), EraseBranches(elseIfs), EraseElse(o))
    case WhileC(c, _, b) => While(Erase(c), EraseBlock(b))
    case ReturnC(None) => Return(None)
    case ReturnC(Some(e)) => Return(Some(Erase(e)))
    case ScopeC(b) => Scope(EraseBlock(b))
    case DeclareC(sig) => Declare(sig.name, EraseParams(sig.params), sig.typ)
    case FunctionC(sig, b) => Function(sig.name, EraseParams(sig.params), sig.typ, EraseBlock(b))
    case TypeC(name, _, fields) => TypeDef(name, EraseFields(fields))
  }

  function EraseLines(lines: List<CLine>): seq<Stmt>
    decreases lines
  {
    match lines
    case Nil => []
    case Cons(l, t) => [EraseLine(l)] + EraseLines(t)
  }

  function EraseLine(l: CLine): Stmt
    decreases l
  {
    EraseStmt(l.stmt)
  }

  function EraseBlock(b: CBlock): seq<Stmt>
    decreases b
  {
    EraseLines(b.lines)
  }

  function EraseBranch(b: CBranch): Branch
    decreases b
  {
    Branch(Erase(b.cond), EraseBlock(b.body))
  }

  function EraseBranches(bs: List<CBranch>): seq<Branch>
    decreases bs
  {
    match bs
    case Nil => []
    case Cons(b, t) => [EraseBranch(b)] + EraseBranches(t)
  }

  function EraseElse(o: CElse): Else
    decreases o
  {
    match o
    case NoElseC => NoElse
    case ElseC(b) => Else(EraseBlock(b))
  }

  function EraseParams(params: Option<List<CItem>>): seq<Item> {
    match params
    case None => []
    case Some(items) => EraseItems(items)
  }

  function EraseFields(fields: List<CField>): seq<Decl> {
    match fields
    case Nil => []
    case Cons(f, t) => [Decl(f.ids, f.typ)] + EraseFields(t)
  }

  // ----- what derives, and goes no further before `rest`

  predicate LegalExpr(c: Cst, rest: seq<Token>) { Derives(NOT, c) && Stops(NOT, c, rest) }

  /** A ';' that is there is taken. */
  predicate Settled(semi: bool, rest: seq<Token>) { semi || Peek(rest) != SEMICOLON }

  predicate LegalStmt(s: CStmt, rest: seq<Token>)
    decreases s
  {
    match s
    case EvalC(e) => LegalExpr(e, rest)
    case PrintC(values, trailing) => LegalValues(values, trailing, rest)
    case InputC(e, semi) => LegalExpr(e, Semi(semi, rest)) && Settled(semi, rest)
    case IfC(first, elseIfs, o) =>
      && LegalBranch(first, EmitBranches(elseIfs, EmitElse(o, rest)))
      && LegalBranches(elseIfs, EmitElse(o, rest)) && LegalElse(o, rest)
    case WhileC(c, semi, b) =>
      && LegalExpr(c, Semi(semi, EmitBlock(b, rest))) && Settled(semi, EmitBlock(b, rest)) && LegalBlock(b, rest)
    case ReturnC(None) => true
    case ReturnC(Some(e)) => LegalExpr(e, rest)
    case ScopeC(b) => LegalBlock(b, rest)
    case DeclareC(sig) => LegalSig(sig, rest)
    case FunctionC(sig, b) => LegalSig(sig, EmitBlock(b, rest)) && LegalBlock(b, rest)
    case TypeC(name, semi, fields) =>
      fields.Cons? && Settled(semi, EmitFields(fields, [END] + rest)) && LegalFields(fields, [END] + rest)
  }

  /** `print` takes all it can get. */
  predicate LegalValues(values: List<Cst>, trailing: bool, rest: seq<Token>) {
    match values
    case Nil => !trailing && !Starts(Peek(rest))
    case Cons(c, Nil) =>
      LegalExpr(c, Semi(trailing, rest)) && if trailing then !Starts(Peek(rest)) else Peek(rest) != SEMICOLON
    case Cons(c, t) => LegalExpr(c, [SEMICOLON] + EmitValues(t, trailing, rest)) && LegalValues(t, trailing, rest)
  }

  predicate LegalLines(lines: List<CLine>, rest: seq<Token>)
    decreases lines
  {
    match lines
    case Nil => true
    case Cons(l, t) => LegalLine(l, EmitLines(t, rest)) && LegalLines(t, rest)
  }

  predicate LegalLine(l: CLine, rest: seq<Token>)
    decreases l
  {
    LegalStmt(l.stmt, Semi(l.semi, rest)) && Settled(l.semi, rest)
  }

  predicate LegalCloser(c: Closer, rest: seq<Token>) {
    match c
    case BeforeElse => Peek(rest) == ELSE || Peek(rest) == ELSEIF
    case AtLoop => true
    case AtEnd(t) => t == FUNCTION || t == SCOPE || t == IF
  }

  predicate LegalBlock(b: CBlock, rest: seq<Token>)
    decreases b
  {
    LegalLines(b.lines, EmitCloser(b.closer, rest)) && LegalCloser(b.closer, rest)
  }

  predicate LegalBranch(b: CBranch, rest: seq<Token>)
    decreases b
  {
    LegalExpr(b.cond, [THEN] + EmitBlock(b.body, rest)) && LegalBlock(b.body, rest)
  }

  predicate LegalBranches(bs: List<CBranch>, rest: seq<Token>)
    decreases bs
  {
    match bs
    case Nil => true
    case Cons(b, t) => LegalBranch(b, EmitBranches(t, rest)) && LegalBranches(t, rest)
  }

  predicate LegalElse(o: CElse, rest: seq<Token>)
    decreases o
  {
    match o
    case NoElseC => Peek(rest) != ELSE && Peek(rest) != ELSEIF
    case ElseC(b) => LegalBlock(b, rest)
  }

  predicate LegalSig(sig: CSig, rest: seq<Token>) {
    var end := Semi(sig.semi, rest);
    && (match sig.params
        case None => Peek(EmitType(sig.typ, end)) != LPAREN
        case Some(items) => DerivesItems(items))
    && (sig.typ.None? ==> Peek(end) != AS)
    && Settled(sig.semi, rest)
  }

  predicate LegalFields(fields: List<CField>, rest: seq<Token>) {
    match fields
    case Nil => true
    case Cons(f, t) => f.ids != [] && Settled(f.semi, EmitFields(t, rest)) && LegalFields(t, rest)
  }

  // ----- trees without holes

  predicate WholeStmt(s: Stmt)
    decreases s
  {
    match s
    case Eval(e) => Whole(e)
    case Print(values) => forall v :: v in values ==> Whole(v)
    case Input(e) => Whole(e)
    case If(c, body, elseIfs, otherwise) =>
      && Whole(c) && WholeBody(body) && (forall b :: b in elseIfs ==> Whole(b.cond) && WholeBody(b.body))
      && (match otherwise case NoElse => true case Else(b) => WholeBody(b))
    case While(c, body) => Whole(c) && WholeBody(body)
    case Return(r) => r.Some? ==> Whole(r.value)
    case Scope(body) => WholeBody(body)
    case Declare(_, params, _) => WholeItems(params)
    case Function(_, params, _, body) => WholeItems(params) && WholeBody(body)
    case TypeDef(_, _) => true
  }

  predicate WholeBody(body: seq<Stmt>)
    decreases body
  {
    forall s :: s in body ==> WholeStmt(s)
  }

  predicate WholeItems(items: seq<Item>) { forall i :: i in items ==> i.init.Some? ==> Whole(i.init.value) }
}
