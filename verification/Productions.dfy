/** The operators of the expression grammar: one production per level, loosest first, with the operators
    that join its phrases. */
module Productions {
  import opened Tokens

  const NOT: nat := 0
  const ASSIGNMENT: nat := 1
  const FORK: nat := 2
  const LOGICAL_OR: nat := 3
  const MULTIPLICATIVE: nat := 12
  const UNARY: nat := 13
  const POSTFIX: nat := 14
  const POWER: nat := 15
  const CALL: nat := 16
  const PRIMARY: nat := 17

  /** The operators between the operands of a binary phrase of level `l`, which are phrases of the next
      level. */
  predicate Joins(l: nat, op: Op) {
    match l
    case 3 => op == Or
    case 4 => op == And
    case 5 => op == BitOr
    case 6 => op == BitXor
    case 7 => op == BitAnd
    case 8 => op == Eq || op == Neq
    case 9 => op == Lt || op == Lte || op == Gt || op == Gte
    case 10 => op == BitShl || op == BitShr
    case 11 => op == Plus || op == Minus
    case 12 => op == Mul || op == Div || op == Mod
    case _ => false
  }

  /** The level an operator joins at, 0 if it joins at none. */
  function Rank(op: Op): (l: nat)
    ensures l == 0 || LOGICAL_OR <= l <= MULTIPLICATIVE
    ensures l > 0 ==> Joins(l, op)
  {
    match op
    case Or => 3
    case And => 4
    case BitOr => 5
    case BitXor => 6
    case BitAnd => 7
    case Eq => 8
    case Neq => 8
    case Lt => 9
    case Lte => 9
    case Gt => 9
    case Gte => 9
    case BitShl => 10
    case BitShr => 10
    case Plus => 11
    case Minus => 11
    case Mul => 12
    case Div => 12
    case Mod => 12
    case _ => 0
  }

  /** No operator joins at two levels. */
  lemma JoinsOnce(l: nat, op: Op)
    ensures Joins(l, op) <==> l > 0 && Rank(op) == l
  {
    if Joins(l, op) {
      if l < 8 { LooseRank(l, op); } else { TightRank(l, op); }
    }
  }

  lemma LooseRank(l: nat, op: Op)
    requires l < 8 && Joins(l, op)
    ensures Rank(op) == l
  {
  }

  lemma TightRank(l: nat, op: Op)
    requires 8 <= l && Joins(l, op)
    ensures Rank(op) == l
  {
  }

  predicate AssignToken(t: Token) {
    t in {OP(Assign), OP(PlusAssign), OP(MinusAssign), OP(MulAssign), OP(DivAssign), OP(AndAssign), OP(OrAssign)}
  }

  predicate PrefixToken(t: Token) { t in {OP(Incr), OP(Decr), OP(BitNot), OP(Plus), OP(Minus), OP(Not)} }

  predicate PostfixToken(t: Token) { t in {OP(Incr), OP(Decr)} }
}
