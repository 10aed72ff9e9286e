/** The grammar of the condition language as syntax trees, one datatype per
    precedence level, with the meaning of a tree given by recursion on it.
    This is the reference the cursor parser is measured against. */
module Grammar {
  import opened Values
  import opened Tokens

  datatype OrExpr = OrOne(a: AndExpr) | OrMore(a: AndExpr, rest: OrExpr)
  datatype AndExpr = AndOne(u: UnaryExpr) | AndMore(u: UnaryExpr, rest: AndExpr)
  datatype UnaryExpr = Negate(u: UnaryExpr) | Plain(c: CmpExpr)
  datatype CmpExpr = Single(p: Primary) | Binary(left: Primary, op: Token, right: Primary)
  datatype Primary =
    | StrLit(s: string)
    | NumLit(text: string, num: real)
    | BoolLit(b: bool)
    | NullLit
    | Paren(e: OrExpr)
    | Path(root: string, fields: seq<string>)

  // ---- the tokens a tree is written with --------------------------------

  const AND := Sym(And, "&&")
  const OR := Sym(Or, "||")
  const NOT := Sym(Not, "!")
  const DOT := Sym(Dot, ".")
  const LPAREN := Sym(LParen, "(")
  const RPAREN := Sym(RParen, ")")
  const END := Sym(EOF, "")

  function FieldTokens(fields: seq<string>): (ts: seq<Token>)
  {
    if fields == [] then [] else [DOT, Sym(Ident, fields[0])] + FieldTokens(fields[1..])
  }

  function OrTokens(e: OrExpr): (ts: seq<Token>)
    ensures |ts| > 0
  {
    match e
    case OrOne(a) => AndTokens(a)
    case OrMore(a, rest) => AndTokens(a) + [OR] + OrTokens(rest)
  }

  function AndTokens(e: AndExpr): (ts: seq<Token>)
    ensures |ts| > 0
  {
    match e
    case AndOne(u) => UnaryTokens(u)
    case AndMore(u, rest) => UnaryTokens(u) + [AND] + AndTokens(rest)
  }

  function UnaryTokens(e: UnaryExpr): (ts: seq<Token>)
    ensures |ts| > 0
  {
    match e
    case Negate(u) => [NOT] + UnaryTokens(u)
    case Plain(c) => CmpTokens(c)
  }

  function CmpTokens(e: CmpExpr): (ts: seq<Token>)
    ensures |ts| > 0
  {
    match e
    case Single(p) => PrimaryTokens(p)
    case Binary(l, op, r) => PrimaryTokens(l) + [op] + PrimaryTokens(r)
  }

  function PrimaryTokens(e: Primary): (ts: seq<Token>)
    ensures |ts| > 0
  {
    match e
    case StrLit(s) => [Sym(String, s)]
    case NumLit(text, num) => [Token(Number, text, num)]
    case BoolLit(b) => [if b then Token(Boolean, "true", 1.0) else Token(Boolean, "false", 0.0)]
    case NullLit => [Sym(Null, "null")]
    case Paren(e) => [LPAREN] + OrTokens(e) + [RPAREN]
    case Path(root, fields) => [Sym(Ident, root)] + FieldTokens(fields)
  }

  /** A comparison node carries a comparison operator. */
  predicate WellFormed(e: OrExpr)
  {
    WellFormedAnd(e.a) && (e.OrMore? ==> WellFormed(e.rest))
  }

  predicate WellFormedAnd(e: AndExpr)
  {
    WellFormedUnary(e.u) && (e.AndMore? ==> WellFormedAnd(e.rest))
  }

  predicate WellFormedUnary(e: UnaryExpr)
  {
    match e
    case Negate(u) => WellFormedUnary(u)
    case Plain(c) => WellFormedCmp(c)
  }

  predicate WellFormedCmp(e: CmpExpr)
  {
    match e
    case Single(p) => WellFormedPrimary(p)
    case Binary(l, op, r) => IsComparison(op.kind) && WellFormedPrimary(l) && WellFormedPrimary(r)
  }

  predicate WellFormedPrimary(e: Primary)
  {
    e.Paren? ==> WellFormed(e.e)
  }

  // ---- meaning ----------------------------------------------------------

  function Select(v: Value, fields: seq<string>): Value
    decreases fields
  {
    if fields == [] then v else Select(Field(v, fields[0]), fields[1..])
  }

  /** Operands are evaluated left to right; the first truthy one decides, and
      the operands after it are not evaluated at all. */
  function Meaning(e: OrExpr, vars: Vars): Outcome
    requires WellFormed(e)
  {
    var first := MeaningAnd(e.a, vars);
    if e.OrOne? || !first.Val? || Truthy(first.v) then first else Meaning(e.rest, vars)
  }

  function MeaningAnd(e: AndExpr, vars: Vars): Outcome
    requires WellFormedAnd(e)
  {
    var first := MeaningUnary(e.u, vars);
    if e.AndOne? || !first.Val? || !Truthy(first.v) then first else MeaningAnd(e.rest, vars)
  }

  function MeaningUnary(e: UnaryExpr, vars: Vars): Outcome
    requires WellFormedUnary(e)
  {
    match e
    case Negate(u) =>
      var r := MeaningUnary(u, vars);
      if r.Val? then Val(Bool(!Truthy(r.v))) else r
    case Plain(c) => MeaningCmp(c, vars)
  }

  function MeaningCmp(e: CmpExpr, vars: Vars): Outcome
    requires WellFormedCmp(e)
  {
    match e
    case Single(p) => MeaningPrimary(p, vars)
    case Binary(l, op, r) =>
      var a := MeaningPrimary(l, vars);
      if !a.Val? then a else
      var b := MeaningPrimary(r, vars);
      if !b.Val? then b else CompareValues(op.kind, a.v, b.v)
  }

  function MeaningPrimary(e: Primary, vars: Vars): Outcome
    requires WellFormedPrimary(e)
  {
    match e
    case StrLit(s) => Val(Str(s))
    case NumLit(_, num) => Val(Num(num))
    case BoolLit(b) => Val(Bool(b))
    case NullLit => Val(Nil)
    case Paren(e) => Meaning(e, vars)
    case Path(root, fields) =>
      if root in vars then Val(Select(vars[root], fields)) else Err(UnknownVariable(root))
  }
}
