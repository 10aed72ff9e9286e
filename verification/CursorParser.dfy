/** The parser object: a cursor over the tokens that evaluates while it parses
    and, once a short circuit has decided the result, skips what is left. */
module CursorParser {
  import opened Values
  import opened Tokens
  import S = CursorSpec

  class Parser {
    const tokens: seq<Token>
    const vars: Vars
    var pos: nat

    constructor (tokens: seq<Token>, vars: Vars)
      ensures this.tokens == tokens && this.vars == vars && pos == 0
    {
      this.tokens, this.vars, pos := tokens, vars, 0;
    }

    /** The token under the cursor; `None` stands for the run-time fault. */
    function Peek(): (t: Option<Token>)
      reads this`pos
      ensures t.Some? <==> pos < |tokens|
      ensures t.Some? ==> t.value == tokens[pos]
    {
      if pos < |tokens| then Some(tokens[pos]) else None
    }

    method Next() returns (t: Option<Token>)
      modifies this`pos
      ensures t == old(Peek())
      ensures pos == if t.Some? then old(pos) + 1 else old(pos)
    {
      t := Peek();
      if t.Some? {
        pos := pos + 1;
      }
    }

    predicate Looking(k: Kind)
      reads this`pos
    {
      Peek().Some? && Peek().value.kind == k
    }

    /** The skipping routines report `false` for the run-time fault. */
    method SkipPrimary() returns (ok: bool)
      modifies this`pos
      ensures ok ==> S.SkipPrimary(tokens, old(pos)) == S.At(pos)
      ensures !ok ==> S.SkipPrimary(tokens, old(pos)) == S.Overrun
    {
      if Peek().None? {
        return false;
      }
      if Looking(LParen) {
        var _ := Next();
        var depth := 1;
        while depth > 0
          invariant depth >= 0 && pos >= old(pos)
          invariant S.SkipPrimary(tokens, old(pos)) == S.SkipParens(tokens, pos, depth)
          decreases S.Left(tokens, pos), depth
        {
          var cur := Next();
          if cur.None? {
            return false;
          }
          if cur.value.kind == EOF {
            return true;
          }
          if cur.value.kind == LParen {
            depth := depth + 1;
          }
          if cur.value.kind == RParen {
            depth := depth - 1;
          }
        }
        return true;
      }
      if Looking(EOF) {
        return true;
      }
      var _ := Next();
      while Looking(Dot)
        invariant pos >= old(pos)
        invariant S.SkipPrimary(tokens, old(pos)) == S.SkipDots(tokens, pos)
        decreases S.Left(tokens, pos)
      {
        var _ := Next();
        var fieldTok := Next();
        if fieldTok.None? {
          return false;
        }
      }
      ok := Peek().Some?;
    }

    method SkipUnary() returns (ok: bool)
      modifies this`pos
      ensures ok ==> S.SkipUnary(tokens, old(pos)) == S.At(pos)
      ensures !ok ==> S.SkipUnary(tokens, old(pos)) == S.Overrun
      decreases S.Left(tokens, pos)
    {
      if Peek().None? {
        return false;
      }
      if Looking(Not) {
        var _ := Next();
        ok := SkipUnary();
        return;
      }
      ok := SkipPrimary();
      if ok {
        if Peek().None? {
          return false;
        }
        if IsComparison(Peek().value.kind) {
          var _ := Next();
          ok := SkipPrimary();
        }
      }
    }

    method SkipAnds() returns (ok: bool)
      modifies this`pos
      ensures ok ==> S.SkipAnds(tokens, old(pos)) == S.At(pos)
      ensures !ok ==> S.SkipAnds(tokens, old(pos)) == S.Overrun
    {
      while Looking(And)
        invariant pos >= old(pos)
        invariant S.SkipAnds(tokens, old(pos)) == S.SkipAnds(tokens, pos)
        decreases S.Left(tokens, pos)
      {
        var _ := Next();
        ok := SkipUnary();
        if !ok {
          return;
        }
      }
      ok := Peek().Some?;
    }

    method SkipAnd() returns (ok: bool)
      modifies this`pos
      ensures ok ==> S.SkipAnd(tokens, old(pos)) == S.At(pos)
      ensures !ok ==> S.SkipAnd(tokens, old(pos)) == S.Overrun
    {
      ok := SkipUnary();
      if ok {
        ok := SkipAnds();
      }
    }

    method SkipOrs() returns (ok: bool)
      modifies this`pos
      ensures ok ==> S.SkipOrs(tokens, old(pos)) == S.At(pos)
      ensures !ok ==> S.SkipOrs(tokens, old(pos)) == S.Overrun
    {
      while Looking(Or)
        invariant pos >= old(pos)
        invariant S.SkipOrs(tokens, old(pos)) == S.SkipOrs(tokens, pos)
        decreases S.Left(tokens, pos)
      {
        var _ := Next();
        ok := SkipAnd();
        if !ok {
          return;
        }
      }
      ok := Peek().Some?;
    }

    method ParseFieldAccess(root: string) returns (out: Outcome)
      modifies this`pos
      ensures root in vars ==> S.Agrees(out, pos, S.ParseFields(tokens, old(pos), vars[root]))
      ensures root !in vars ==> out == Err(UnknownVariable(root)) && pos == old(pos)
    {
      if root !in vars {
        return Err(UnknownVariable(root));
      }
      var val := vars[root];
      while Looking(Dot)
        invariant pos >= old(pos)
        invariant S.ParseFields(tokens, old(pos), vars[root]) == S.ParseFields(tokens, pos, val)
        decreases S.Left(tokens, pos)
      {
        var _ := Next();
        var fieldTok := Next();
        if fieldTok.None? {
          return Panic;
        }
        if fieldTok.value.kind != Ident {
          return Err(ExpectedField);
        }
        val := Field(val, fieldTok.value.text);
      }
      out := if Peek().Some? then Val(val) else Panic;
    }

    method ParseOr() returns (out: Outcome)
      modifies this`pos
      ensures S.Agrees(out, pos, S.ParseOr(tokens, old(pos), vars))
      decreases S.Left(tokens, pos), 6
    {
      out := ParseAnd();
      while out.Val? && Looking(Or)
        invariant !out.Panic? ==> pos >= old(pos)
        invariant out.Val? ==> S.ParseOr(tokens, old(pos), vars) == S.OrLoop(tokens, pos, out.v, vars)
        invariant !out.Val? ==> S.Agrees(out, pos, S.ParseOr(tokens, old(pos), vars))
        decreases out.Val?, S.Left(tokens, pos)
      {
        if Truthy(out.v) {
          var ok := SkipOrs();
          return if ok then out else Panic;
        }
        var _ := Next();
        out := ParseAnd();
      }
      if out.Val? && Peek().None? {
        out := Panic;
      }
    }

    method ParseAnd() returns (out: Outcome)
      modifies this`pos
      ensures S.Agrees(out, pos, S.ParseAnd(tokens, old(pos), vars))
      decreases S.Left(tokens, pos), 4
    {
      out := ParseUnary();
      while out.Val? && Looking(And)
        invariant !out.Panic? ==> pos >= old(pos)
        invariant out.Val? ==> S.ParseAnd(tokens, old(pos), vars) == S.AndLoop(tokens, pos, out.v, vars)
        invariant !out.Val? ==> S.Agrees(out, pos, S.ParseAnd(tokens, old(pos), vars))
        decreases out.Val?, S.Left(tokens, pos)
      {
        if !Truthy(out.v) {
          var ok := SkipAnds();
          return if ok then out else Panic;
        }
        var _ := Next();
        out := ParseUnary();
      }
      if out.Val? && Peek().None? {
        out := Panic;
      }
    }

    method ParseUnary() returns (out: Outcome)
      modifies this`pos
      ensures S.Agrees(out, pos, S.ParseUnary(tokens, old(pos), vars))
      decreases S.Left(tokens, pos), 2
    {
      if Peek().None? {
        return Panic;
      }
      if Looking(Not) {
        var _ := Next();
        out := ParseUnary();
        if out.Val? {
          out := Val(Bool(!Truthy(out.v)));
        }
      } else {
        out := ParseComparison();
      }
    }

    method ParseComparison() returns (out: Outcome)
      modifies this`pos
      ensures S.Agrees(out, pos, S.ParseComparison(tokens, old(pos), vars))
      decreases S.Left(tokens, pos), 1
    {
      out := ParsePrimary();
      if !out.Val? {
        return;
      }
      if Peek().None? {
        return Panic;
      }
      if IsComparison(Peek().value.kind) {
        var left := out.v;
        var op := Next();
        out := ParsePrimary();
        if out.Val? {
          out := CompareValues(op.value.kind, left, out.v);
        }
      }
    }

    method ParsePrimary() returns (out: Outcome)
      modifies this`pos
      ensures S.Agrees(out, pos, S.ParsePrimary(tokens, old(pos), vars))
      decreases S.Left(tokens, pos), 0
    {
      if Peek().None? {
        return Panic;
      }
      var t := Peek().value;
      match t.kind {
        case String =>
          var _ := Next();
          out := Val(Str(t.text));
        case Number =>
          var _ := Next();
          out := Val(Num(t.num));
        case Boolean =>
          var _ := Next();
          out := Val(Bool(t.num == 1.0));
        case Null =>
          var _ := Next();
          out := Val(Nil);
        case LParen =>
          var _ := Next();
          out := ParseOr();
          if !out.Val? {
            return;
          }
          if Peek().None? {
            return Panic;
          }
          if !Looking(RParen) {
            return Err(MissingParen);
          }
          var _ := Next();
        case Ident =>
          var _ := Next();
          out := ParseFieldAccess(t.text);
        case _ =>
          out := Err(UnexpectedToken(t));
      }
    }
  }

  /** Evaluates a token sequence with a fresh parser. */
  method EvalTokens(tokens: seq<Token>, vars: Vars) returns (out: Outcome)
    ensures out == S.EvalTokens(tokens, vars)
  {
    var p := new Parser(tokens, vars);
    out := p.ParseOr();
    if out.Val? {
      if p.Peek().None? {
        return Panic;
      }
      if p.Peek().value.kind != EOF {
        return Err(UnexpectedToken(p.Peek().value));
      }
    }
  }
}
