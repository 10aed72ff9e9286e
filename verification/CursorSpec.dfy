/** What each routine of the cursor parser does to the cursor, as functions of
    the token sequence and a starting position. Reading past the end of the
    tokens is an outcome of its own (`Panic`, `Overrun`), so the functions are
    defined on every token sequence, grammatical or not. */
module CursorSpec {
  import opened Values
  import opened Tokens

  datatype Res = Res(out: Outcome, pos: nat)
  datatype Skip = At(pos: nat) | Overrun

  /** A run of a routine that ended in `out` with the cursor at `pos` did what
      `r` says. After a run-time fault there is no cursor to speak of. */
  predicate Agrees(out: Outcome, pos: nat, r: Res)
  {
    out == r.out && (!out.Panic? ==> pos == r.pos)
  }

  // ---- skipping ---------------------------------------------------------

  /** Consumes tokens until `depth` open parentheses are closed, or through EOF. */
  function SkipParens(ts: seq<Token>, p: nat, depth: nat): (r: Skip)
    ensures r.At? ==> r.pos >= p
    decreases |ts| - p
  {
    if depth == 0 then At(p)
    else if p >= |ts| then Overrun
    else match ts[p].kind
      case EOF => At(p + 1)
      case LParen => SkipParens(ts, p + 1, depth + 1)
      case RParen => SkipParens(ts, p + 1, depth - 1)
      case _ => SkipParens(ts, p + 1, depth)
  }

  function SkipDots(ts: seq<Token>, p: nat): (r: Skip)
    ensures r.At? ==> r.pos >= p
    decreases |ts| - p
  {
    if p >= |ts| then Overrun
    else if ts[p].kind != Dot then At(p)
    else if p + 1 >= |ts| then Overrun
    else SkipDots(ts, p + 2)
  }

  function SkipPrimary(ts: seq<Token>, p: nat): (r: Skip)
    ensures r.At? ==> r.pos >= p
  {
    if p >= |ts| then Overrun
    else if ts[p].kind == LParen then SkipParens(ts, p + 1, 1)
    else if ts[p].kind == EOF then At(p)
    else SkipDots(ts, p + 1)
  }

  function SkipUnary(ts: seq<Token>, p: nat): (r: Skip)
    ensures r.At? ==> r.pos >= p
    decreases |ts| - p
  {
    if p >= |ts| then Overrun
    else if ts[p].kind == Not then SkipUnary(ts, p + 1)
    else match SkipPrimary(ts, p)
      case Overrun => Overrun
      case At(q) =>
        if q >= |ts| then Overrun
        else if IsComparison(ts[q].kind) then SkipPrimary(ts, q + 1)
        else At(q)
  }

  /** Skips `&& unary` as long as there is one. */
  function SkipAnds(ts: seq<Token>, p: nat): (r: Skip)
    ensures r.At? ==> r.pos >= p
    decreases |ts| - p
  {
    if p >= |ts| then Overrun
    else if ts[p].kind != And then At(p)
    else match SkipUnary(ts, p + 1)
      case Overrun => Overrun
      case At(q) => SkipAnds(ts, q)
  }

  function SkipAnd(ts: seq<Token>, p: nat): (r: Skip)
    ensures r.At? ==> r.pos >= p
  {
    match SkipUnary(ts, p)
    case Overrun => Overrun
    case At(q) => SkipAnds(ts, q)
  }

  /** Skips `|| and-expression` as long as there is one. */
  function SkipOrs(ts: seq<Token>, p: nat): (r: Skip)
    ensures r.At? ==> r.pos >= p
    decreases |ts| - p
  {
    if p >= |ts| then Overrun
    else if ts[p].kind != Or then At(p)
    else match SkipAnd(ts, p + 1)
      case Overrun => Overrun
      case At(q) => SkipOrs(ts, q)
  }

  // ---- evaluating -------------------------------------------------------

  function Left(ts: seq<Token>, p: nat): nat
  {
    if p <= |ts| then |ts| - p else 0
  }

  function ParseFields(ts: seq<Token>, p: nat, v: Value): (r: Res)
    ensures r.pos >= p
    decreases |ts| - p
  {
    if p >= |ts| then Res(Panic, p)
    else if ts[p].kind != Dot then Res(Val(v), p)
    else if p + 1 >= |ts| then Res(Panic, p + 1)
    else if ts[p + 1].kind != Ident then Res(Err(ExpectedField), p + 2)
    else ParseFields(ts, p + 2, Field(v, ts[p + 1].text))
  }

  function ParseOr(ts: seq<Token>, p: nat, vars: Vars): (r: Res)
    ensures r.pos >= p
    decreases Left(ts, p), 6
  {
    var l := ParseAnd(ts, p, vars);
    if l.out.Val? then OrLoop(ts, l.pos, l.out.v, vars) else l
  }

  function OrLoop(ts: seq<Token>, p: nat, left: Value, vars: Vars): (r: Res)
    ensures r.pos >= p
    decreases Left(ts, p), 5
  {
    if p >= |ts| then Res(Panic, p)
    else if ts[p].kind != Or then Res(Val(left), p)
    else if Truthy(left) then
      match SkipOrs(ts, p)
      case Overrun => Res(Panic, p)
      case At(q) => Res(Val(left), q)
    else
      var r := ParseAnd(ts, p + 1, vars);
      if r.out.Val? then OrLoop(ts, r.pos, r.out.v, vars) else r
  }

  function ParseAnd(ts: seq<Token>, p: nat, vars: Vars): (r: Res)
    ensures r.pos >= p
    decreases Left(ts, p), 4
  {
    var l := ParseUnary(ts, p, vars);
    if l.out.Val? then AndLoop(ts, l.pos, l.out.v, vars) else l
  }

  function AndLoop(ts: seq<Token>, p: nat, left: Value, vars: Vars): (r: Res)
    ensures r.pos >= p
    decreases Left(ts, p), 3
  {
    if p >= |ts| then Res(Panic, p)
    else if ts[p].kind != And then Res(Val(left), p)
    else if !Truthy(left) then
      match SkipAnds(ts, p)
      case Overrun => Res(Panic, p)
      case At(q) => Res(Val(left), q)
    else
      var r := ParseUnary(ts, p + 1, vars);
      if r.out.Val? then AndLoop(ts, r.pos, r.out.v, vars) else r
  }

  function ParseUnary(ts: seq<Token>, p: nat, vars: Vars): (r: Res)
    ensures r.pos >= p
    decreases Left(ts, p), 2
  {
    if p >= |ts| then Res(Panic, p)
    else if ts[p].kind == Not then
      var r := ParseUnary(ts, p + 1, vars);
      if r.out.Val? then Res(Val(Bool(!Truthy(r.out.v))), r.pos) else r
    else ParseComparison(ts, p, vars)
  }

  function ParseComparison(ts: seq<Token>, p: nat, vars: Vars): (r: Res)
    ensures r.pos >= p
    decreases Left(ts, p), 1
  {
    var l := ParsePrimary(ts, p, vars);
    if !l.out.Val? then l
    else if l.pos >= |ts| then Res(Panic, l.pos)
    else if IsComparison(ts[l.pos].kind) then
      var r := ParsePrimary(ts, l.pos + 1, vars);
      if r.out.Val? then Res(CompareValues(ts[l.pos].kind, l.out.v, r.out.v), r.pos) else r
    else l
  }

  function ParsePrimary(ts: seq<Token>, p: nat, vars: Vars): (r: Res)
    ensures r.pos >= p
    decreases Left(ts, p), 0
  {
    if p >= |ts| then Res(Panic, p) else
    var t := ts[p];
    match t.kind
    case String => Res(Val(Str(t.text)), p + 1)
    case Number => Res(Val(Num(t.num)), p + 1)
    case Boolean => Res(Val(Bool(t.num == 1.0)), p + 1)
    case Null => Res(Val(Nil), p + 1)
    case LParen =>
      var r := ParseOr(ts, p + 1, vars);
      if !r.out.Val? then r
      else if r.pos >= |ts| then Res(Panic, r.pos)
      else if ts[r.pos].kind != RParen then Res(Err(MissingParen), r.pos)
      else Res(r.out, r.pos + 1)
    case Ident =>
      if t.text !in vars then Res(Err(UnknownVariable(t.text)), p + 1)
      else ParseFields(ts, p + 1, vars[t.text])
    case _ => Res(Err(UnexpectedToken(t)), p)
  }

  /** A whole token sequence: evaluate, then insist on having reached EOF. */
  function EvalTokens(ts: seq<Token>, vars: Vars): Outcome
  {
    var r := ParseOr(ts, 0, vars);
    if !r.out.Val? then r.out
    else if r.pos >= |ts| then Panic
    else if ts[r.pos].kind != EOF then Err(UnexpectedToken(ts[r.pos]))
    else r.out
  }

  // ---- the short circuits an evaluation takes ----------------------------

  /** A taken short circuit: the position of its operator, `&&` or `||`. */
  datatype Short = Short(p: nat, op: Kind)

  function OrShorts(ts: seq<Token>, p: nat, vars: Vars): seq<Short>
    decreases Left(ts, p), 6
  {
    var l := ParseAnd(ts, p, vars);
    AndShorts(ts, p, vars) + if l.out.Val? then OrLoopShorts(ts, l.pos, l.out.v, vars) else []
  }

  function OrLoopShorts(ts: seq<Token>, p: nat, left: Value, vars: Vars): seq<Short>
    decreases Left(ts, p), 5
  {
    if p >= |ts| || ts[p].kind != Or then []
    else if Truthy(left) then [Short(p, Or)]
    else
      var r := ParseAnd(ts, p + 1, vars);
      AndShorts(ts, p + 1, vars) + if r.out.Val? then OrLoopShorts(ts, r.pos, r.out.v, vars) else []
  }

  function AndShorts(ts: seq<Token>, p: nat, vars: Vars): seq<Short>
    decreases Left(ts, p), 4
  {
    var l := ParseUnary(ts, p, vars);
    UnaryShorts(ts, p, vars) + if l.out.Val? then AndLoopShorts(ts, l.pos, l.out.v, vars) else []
  }

  function AndLoopShorts(ts: seq<Token>, p: nat, left: Value, vars: Vars): seq<Short>
    decreases Left(ts, p), 3
  {
    if p >= |ts| || ts[p].kind != And then []
    else if !Truthy(left) then [Short(p, And)]
    else
      var r := ParseUnary(ts, p + 1, vars);
      UnaryShorts(ts, p + 1, vars) + if r.out.Val? then AndLoopShorts(ts, r.pos, r.out.v, vars) else []
  }

  function UnaryShorts(ts: seq<Token>, p: nat, vars: Vars): seq<Short>
    decreases Left(ts, p), 2
  {
    if p >= |ts| then []
    else if ts[p].kind == Not then UnaryShorts(ts, p + 1, vars)
    else
      var l := ParsePrimary(ts, p, vars);
      PrimaryShorts(ts, p, vars) +
        if l.out.Val? && l.pos < |ts| && IsComparison(ts[l.pos].kind) then PrimaryShorts(ts, l.pos + 1, vars) else []
  }

  function PrimaryShorts(ts: seq<Token>, p: nat, vars: Vars): seq<Short>
    decreases Left(ts, p), 0
  {
    if p < |ts| && ts[p].kind == LParen then OrShorts(ts, p + 1, vars) else []
  }
}
