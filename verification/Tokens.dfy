/** Tokens of the condition language and the outcomes of evaluating it. */
module Tokens {
  import opened Values

  datatype Kind =
    | EOF | Ident | String | Number | Boolean | Null
    | And | Or | Not | EqEq | NotEq | Greater | Less | GreaterEq | LessEq
    | Dot | LParen | RParen

  datatype Token = Token(kind: Kind, text: string, num: real)

  /** A token that carries no number. */
  function Sym(k: Kind, text: string): Token { Token(k, text, 0.0) }

  type Vars = map<string, Value>

  datatype ExprError =
    | UnexpectedToken(tok: Token)
    | MissingParen
    | UnknownVariable(name: string)
    | ExpectedField
    | IncompatibleOperands
    | BadCharacter(at: nat)
    | UnterminatedString(at: nat)
    | InvalidNumber(text: string)

  /** What evaluating a condition can come to. `Panic` is the run-time fault of
      indexing the token slice past its end, which no error value reports. */
  datatype Outcome = Val(v: Value) | Err(e: ExprError) | Panic

  predicate IsComparison(k: Kind)
  {
    k in {EqEq, NotEq, Greater, Less, GreaterEq, LessEq}
  }

  function OpOf(k: Kind): CmpOp
    requires IsComparison(k)
  {
    match k
    case EqEq => Eq
    case NotEq => Ne
    case Greater => Gt
    case Less => Lt
    case GreaterEq => Ge
    case _ => Le
  }

  function CompareValues(k: Kind, a: Value, b: Value): Outcome
    requires IsComparison(k)
  {
    match Compare(OpOf(k), a, b)
    case Some(r) => Val(Bool(r))
    case None => Err(IncompatibleOperands)
  }
}
