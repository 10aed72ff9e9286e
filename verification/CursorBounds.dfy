/** When the cursor stays inside the token sequence. The skipping routines run
    past the end on some ungrammatical inputs. For each of them, and for
    evaluation as a whole, these lemmas say exactly when that happens; they also
    give inputs on which it does, and a condition on the tokens alone under which
    it cannot. */
module CursorBounds {
  import opened Values
  import opened Tokens
  import opened Grammar
  import opened CursorSpec

  /** EOF stands at the end and nowhere else, as the lexer leaves it. */
  predicate EofTerminated(ts: seq<Token>)
  {
    && |ts| > 0 && ts[|ts| - 1].kind == EOF
    && forall i :: 0 <= i < |ts| - 1 ==> ts[i].kind != EOF
  }

  /** Closing minus opening brackets among `ts[a..b]`. */
  function NetClose(ts: seq<Token>, a: nat, b: nat): int
    requires a <= b <= |ts|
    decreases b - a
  {
    if a == b then 0
    else (match ts[a].kind case RParen => 1 case LParen => -1 case _ => 0) + NetClose(ts, a + 1, b)
  }

  /** Read from the right, opening brackets never outnumber closing ones; and
      no dot stands just before EOF. */
  predicate Closed(ts: seq<Token>)
  {
    && (forall p :: 0 <= p <= |ts| ==> NetClose(ts, p, |ts|) >= 0)
    && (|ts| >= 2 ==> ts[|ts| - 2].kind != Dot)
  }

  predicate Inside(r: Skip, n: nat)
  {
    r.At? && r.pos < n
  }

  predicate StaysInside(r: Res, n: nat)
  {
    !r.out.Panic? && (r.out.Val? ==> r.pos < n)
  }

  /** Some prefix of `ts[p..]`, short of EOF, closes exactly `d` brackets more
      than it opens. */
  predicate Reaches(ts: seq<Token>, p: nat, d: nat)
  {
    exists b :: p <= b < |ts| && NetClose(ts, p, b) == d
  }

  function DepthAfter(t: Token, d: nat): nat
    requires d > 0
  {
    match t.kind case RParen => d - 1 case LParen => d + 1 case _ => d
  }

  lemma ReachesStep(ts: seq<Token>, p: nat, d: nat)
    requires p + 1 < |ts| && d > 0
    ensures Reaches(ts, p, d) <==> Reaches(ts, p + 1, DepthAfter(ts[p], d))
  {
    var d' := DepthAfter(ts[p], d);
    if Reaches(ts, p, d) {
      var b :| p <= b < |ts| && NetClose(ts, p, b) == d;
      assert NetClose(ts, p + 1, b) == d';
    }
    var next := p + 1;
    if Reaches(ts, next, d') {
      var b :| next <= b < |ts| && NetClose(ts, next, b) == d';
      assert NetClose(ts, p, b) == d;
    }
  }

  /** The bracket loop stops inside the tokens exactly when some later token
      brings the number of closing brackets up to `d`. */
  lemma {:induction false} SkipParensExact(ts: seq<Token>, p: nat, d: nat)
    requires EofTerminated(ts) && p < |ts|
    ensures Inside(SkipParens(ts, p, d), |ts|) <==> Reaches(ts, p, d)
    decreases |ts| - p
  {
    if d == 0 {
      assert NetClose(ts, p, p) == 0;
    } else if p < |ts| - 1 {
      SkipParensExact(ts, p + 1, DepthAfter(ts[p], d));
      ReachesStep(ts, p, d);
    }
  }

  /** Enough closing brackets in all: some prefix has exactly `d`. */
  lemma {:induction false} EnoughReaches(ts: seq<Token>, p: nat, d: nat)
    requires EofTerminated(ts) && p < |ts| && NetClose(ts, p, |ts|) >= d
    ensures Reaches(ts, p, d)
    decreases |ts| - p
  {
    if d == 0 {
      assert NetClose(ts, p, p) == 0;
    } else if p < |ts| - 1 {
      EnoughReaches(ts, p + 1, DepthAfter(ts[p], d));
      ReachesStep(ts, p, d);
    }
  }

  predicate DotAt(ts: seq<Token>, q: int)
  {
    0 <= q < |ts| && ts[q].kind == Dot
  }

  /** From `p` on, every other token is a dot, up to the one before EOF. */
  predicate DotsRunOut(ts: seq<Token>, p: nat)
  {
    && p + 2 <= |ts| && (|ts| - p) % 2 == 0
    && forall q :: p <= q < |ts| && (q - p) % 2 == 0 ==> DotAt(ts, q)
  }

  /** The field loop stops inside the tokens exactly when its dots do not run
      out into EOF. */
  lemma {:induction false} SkipDotsExact(ts: seq<Token>, p: nat)
    requires EofTerminated(ts) && p < |ts|
    ensures Inside(SkipDots(ts, p), |ts|) <==> !DotsRunOut(ts, p)
    decreases |ts| - p
  {
    if ts[p].kind == Dot {
      if p + 2 < |ts| {
        SkipDotsExact(ts, p + 2);
        forall q | p <= q < |ts| && (q - p) % 2 == 0 && DotsRunOut(ts, p + 2)
          ensures DotAt(ts, q)
        {
          assert q >= p + 2 ==> (q - (p + 2)) % 2 == 0;
        }
        forall q | p + 2 <= q < |ts| && (q - (p + 2)) % 2 == 0 && DotsRunOut(ts, p)
          ensures DotAt(ts, q)
        {
          assert (q - p) % 2 == 0;
        }
      }
    } else {
      assert !DotAt(ts, p);
    }
  }

  /** Skipping one operand stops inside the tokens exactly when its bracket, if
      it opens one, is closed and its field dots, if any, do not run out. */
  lemma SkipPrimaryExact(ts: seq<Token>, p: nat)
    requires EofTerminated(ts) && p < |ts|
    ensures Inside(SkipPrimary(ts, p), |ts|) <==>
            match ts[p].kind
            case LParen => Reaches(ts, p + 1, 1)
            case EOF => true
            case _ => !DotsRunOut(ts, p + 1)
  {
    match ts[p].kind {
      case LParen => SkipParensExact(ts, p + 1, 1);
      case EOF =>
      case _ => SkipDotsExact(ts, p + 1);
    }
  }

  lemma {:induction false} SkipDotsInside(ts: seq<Token>, p: nat)
    requires EofTerminated(ts) && Closed(ts) && p < |ts|
    ensures Inside(SkipDots(ts, p), |ts|)
    decreases |ts| - p
  {
    if ts[p].kind == Dot {
      assert p != |ts| - 1 && p != |ts| - 2;
      SkipDotsInside(ts, p + 2);
    }
  }

  lemma SkipPrimaryInside(ts: seq<Token>, p: nat)
    requires EofTerminated(ts) && Closed(ts) && p < |ts|
    ensures Inside(SkipPrimary(ts, p), |ts|)
  {
    if ts[p].kind == LParen {
      assert NetClose(ts, p, |ts|) == NetClose(ts, p + 1, |ts|) - 1;
      EnoughReaches(ts, p + 1, 1);
      SkipParensExact(ts, p + 1, 1);
    } else if ts[p].kind != EOF {
      SkipDotsInside(ts, p + 1);
    }
  }

  lemma {:induction false} SkipUnaryInside(ts: seq<Token>, p: nat)
    requires EofTerminated(ts) && Closed(ts) && p < |ts|
    ensures Inside(SkipUnary(ts, p), |ts|)
    decreases |ts| - p
  {
    if ts[p].kind == Not {
      SkipUnaryInside(ts, p + 1);
    } else {
      SkipPrimaryInside(ts, p);
      var q := SkipPrimary(ts, p).pos;
      if IsComparison(ts[q].kind) {
        SkipPrimaryInside(ts, q + 1);
      }
    }
  }

  lemma {:induction false} SkipAndsInside(ts: seq<Token>, p: nat)
    requires EofTerminated(ts) && Closed(ts) && p < |ts|
    ensures Inside(SkipAnds(ts, p), |ts|)
    decreases |ts| - p
  {
    if ts[p].kind == And {
      SkipUnaryInside(ts, p + 1);
      SkipAndsInside(ts, SkipUnary(ts, p + 1).pos);
    }
  }

  lemma {:induction false} SkipOrsInside(ts: seq<Token>, p: nat)
    requires EofTerminated(ts) && Closed(ts) && p < |ts|
    ensures Inside(SkipOrs(ts, p), |ts|)
    decreases |ts| - p
  {
    if ts[p].kind == Or {
      SkipUnaryInside(ts, p + 1);
      SkipAndsInside(ts, SkipUnary(ts, p + 1).pos);
      SkipOrsInside(ts, SkipAnd(ts, p + 1).pos);
    }
  }

  // ---- exactly when skipping and evaluating stay inside ------------------

  /** The bracket the operand at `p` opens, if any, is closed, and its field
      dots, if any, do not run out. */
  predicate OperandCloses(ts: seq<Token>, p: nat)
  {
    && p < |ts|
    && match ts[p].kind
       case LParen => Reaches(ts, p + 1, 1)
       case EOF => true
       case _ => !DotsRunOut(ts, p + 1)
  }

  /** Every operand of the negated or compared chain at `p` closes. */
  predicate UnaryCloses(ts: seq<Token>, p: nat)
    decreases |ts| - p
  {
    if p >= |ts| then false
    else if ts[p].kind == Not then UnaryCloses(ts, p + 1)
    else
      && OperandCloses(ts, p)
      && match SkipPrimary(ts, p)
         case At(q) => q < |ts| && IsComparison(ts[q].kind) ==> OperandCloses(ts, q + 1)
         case Overrun => true
  }

  /** Every operand of the `&&` chain continuing at `p` closes. */
  predicate AndChainCloses(ts: seq<Token>, p: nat)
    decreases |ts| - p
  {
    p < |ts| && ts[p].kind == And ==>
      && UnaryCloses(ts, p + 1)
      && match SkipUnary(ts, p + 1)
         case At(q) => AndChainCloses(ts, q)
         case Overrun => true
  }

  /** Every operand of the `||` chain continuing at `p` closes. */
  predicate OrChainCloses(ts: seq<Token>, p: nat)
    decreases |ts| - p
  {
    p < |ts| && ts[p].kind == Or ==>
      && UnaryCloses(ts, p + 1)
      && match SkipUnary(ts, p + 1)
         case Overrun => true
         case At(q) =>
           && AndChainCloses(ts, q)
           && match SkipAnds(ts, q)
              case At(r) => OrChainCloses(ts, r)
              case Overrun => true
  }

  lemma {:induction false} SkipUnaryExact(ts: seq<Token>, p: nat)
    requires EofTerminated(ts) && p < |ts|
    ensures Inside(SkipUnary(ts, p), |ts|) <==> UnaryCloses(ts, p)
    decreases |ts| - p
  {
    if ts[p].kind == Not {
      SkipUnaryExact(ts, p + 1);
    } else {
      SkipPrimaryExact(ts, p);
      var r := SkipPrimary(ts, p);
      if r.At? && r.pos < |ts| && IsComparison(ts[r.pos].kind) {
        SkipPrimaryExact(ts, r.pos + 1);
      }
    }
  }

  lemma {:induction false} SkipAndsExact(ts: seq<Token>, p: nat)
    requires EofTerminated(ts) && p < |ts|
    ensures Inside(SkipAnds(ts, p), |ts|) <==> AndChainCloses(ts, p)
    decreases |ts| - p
  {
    if ts[p].kind == And {
      SkipUnaryExact(ts, p + 1);
      var r := SkipUnary(ts, p + 1);
      if Inside(r, |ts|) {
        SkipAndsExact(ts, r.pos);
      }
    }
  }

  /** Skipping a whole `||` chain stops inside the tokens exactly when every
      operand in it closes. */
  lemma {:induction false} SkipOrsExact(ts: seq<Token>, p: nat)
    requires EofTerminated(ts) && p < |ts|
    ensures Inside(SkipOrs(ts, p), |ts|) <==> OrChainCloses(ts, p)
    decreases |ts| - p
  {
    if ts[p].kind == Or {
      SkipUnaryExact(ts, p + 1);
      var r := SkipUnary(ts, p + 1);
      if Inside(r, |ts|) {
        SkipAndsExact(ts, r.pos);
        var q := SkipAnds(ts, r.pos);
        if Inside(q, |ts|) {
          SkipOrsExact(ts, q.pos);
        }
      }
    }
  }

  /** The chain a taken short circuit skips closes. */
  predicate ShortCloses(ts: seq<Token>, s: Short)
  {
    if s.op == Or then OrChainCloses(ts, s.p) else AndChainCloses(ts, s.p)
  }

  predicate AllClose(ts: seq<Token>, ss: seq<Short>)
  {
    forall s :: s in ss ==> ShortCloses(ts, s)
  }

  lemma AllCloseConcat(ts: seq<Token>, a: seq<Short>, b: seq<Short>)
    ensures AllClose(ts, a + b) <==> AllClose(ts, a) && AllClose(ts, b)
  {
    assert forall s :: s in a + b <==> s in a || s in b;
  }

  lemma AllCloseOne(ts: seq<Token>, s: Short)
    ensures AllClose(ts, [s]) <==> ShortCloses(ts, s)
  {
    assert s in [s];
  }

  lemma {:induction false} FieldsInside(ts: seq<Token>, p: nat, v: Value)
    requires EofTerminated(ts) && p < |ts|
    ensures StaysInside(ParseFields(ts, p, v), |ts|)
    decreases |ts| - p
  {
    if ts[p].kind == Dot && ts[p + 1].kind == Ident {
      FieldsInside(ts, p + 2, Field(v, ts[p + 1].text));
    }
  }

  lemma {:induction false} PrimaryExact(ts: seq<Token>, p: nat, vars: Vars)
    requires EofTerminated(ts) && p < |ts|
    ensures StaysInside(ParsePrimary(ts, p, vars), |ts|) <==> AllClose(ts, PrimaryShorts(ts, p, vars))
    ensures ParsePrimary(ts, p, vars).out.Val? ==> ParsePrimary(ts, p, vars).pos < |ts|
    decreases |ts| - p, 0
  {
    if ts[p].kind == LParen {
      OrExact(ts, p + 1, vars);
    } else if ts[p].kind == Ident && ts[p].text in vars {
      FieldsInside(ts, p + 1, vars[ts[p].text]);
    }
  }

  lemma {:induction false} UnaryExact(ts: seq<Token>, p: nat, vars: Vars)
    requires EofTerminated(ts) && p < |ts|
    ensures StaysInside(ParseUnary(ts, p, vars), |ts|) <==> AllClose(ts, UnaryShorts(ts, p, vars))
    decreases |ts| - p, 1
  {
    hide ParsePrimary, PrimaryShorts, AllClose;
    if ts[p].kind == Not {
      UnaryExact(ts, p + 1, vars);
    } else {
      PrimaryExact(ts, p, vars);
      assert PrimaryShorts(ts, p, vars) + [] == PrimaryShorts(ts, p, vars);
      var l := ParsePrimary(ts, p, vars);
      if l.out.Val? && l.pos < |ts| && IsComparison(ts[l.pos].kind) {
        PrimaryExact(ts, l.pos + 1, vars);
        AllCloseConcat(ts, PrimaryShorts(ts, p, vars), PrimaryShorts(ts, l.pos + 1, vars));
      }
    }
  }

  lemma {:induction false} AndLoopExact(ts: seq<Token>, p: nat, left: Value, vars: Vars)
    requires EofTerminated(ts) && p < |ts|
    ensures StaysInside(AndLoop(ts, p, left, vars), |ts|) <==> AllClose(ts, AndLoopShorts(ts, p, left, vars))
    decreases |ts| - p, 2
  {
    if ts[p].kind == And {
      if Truthy(left) {
        UnaryExact(ts, p + 1, vars);
        var r := ParseUnary(ts, p + 1, vars);
        if r.out.Val? {
          if r.pos < |ts| {
            AndLoopExact(ts, r.pos, r.out.v, vars);
          }
          AllCloseConcat(ts, UnaryShorts(ts, p + 1, vars), AndLoopShorts(ts, r.pos, r.out.v, vars));
        }
      } else {
        SkipAndsExact(ts, p);
        AllCloseOne(ts, Short(p, And));
      }
    }
  }

  lemma {:induction false} AndExact(ts: seq<Token>, p: nat, vars: Vars)
    requires EofTerminated(ts) && p < |ts|
    ensures StaysInside(ParseAnd(ts, p, vars), |ts|) <==> AllClose(ts, AndShorts(ts, p, vars))
    decreases |ts| - p, 3
  {
    UnaryExact(ts, p, vars);
    var l := ParseUnary(ts, p, vars);
    if l.out.Val? {
      if l.pos < |ts| {
        AndLoopExact(ts, l.pos, l.out.v, vars);
      }
      AllCloseConcat(ts, UnaryShorts(ts, p, vars), AndLoopShorts(ts, l.pos, l.out.v, vars));
    }
  }

  lemma {:induction false} OrLoopExact(ts: seq<Token>, p: nat, left: Value, vars: Vars)
    requires EofTerminated(ts) && p < |ts|
    ensures StaysInside(OrLoop(ts, p, left, vars), |ts|) <==> AllClose(ts, OrLoopShorts(ts, p, left, vars))
    decreases |ts| - p, 4
  {
    if ts[p].kind == Or {
      if Truthy(left) {
        SkipOrsExact(ts, p);
        AllCloseOne(ts, Short(p, Or));
      } else {
        AndExact(ts, p + 1, vars);
        var r := ParseAnd(ts, p + 1, vars);
        if r.out.Val? {
          if r.pos < |ts| {
            OrLoopExact(ts, r.pos, r.out.v, vars);
          }
          AllCloseConcat(ts, AndShorts(ts, p + 1, vars), OrLoopShorts(ts, r.pos, r.out.v, vars));
        }
      }
    }
  }

  lemma {:induction false} OrExact(ts: seq<Token>, p: nat, vars: Vars)
    requires EofTerminated(ts) && p < |ts|
    ensures StaysInside(ParseOr(ts, p, vars), |ts|) <==> AllClose(ts, OrShorts(ts, p, vars))
    decreases |ts| - p, 5
  {
    AndExact(ts, p, vars);
    var l := ParseAnd(ts, p, vars);
    if l.out.Val? {
      if l.pos < |ts| {
        OrLoopExact(ts, l.pos, l.out.v, vars);
      }
      AllCloseConcat(ts, AndShorts(ts, p, vars), OrLoopShorts(ts, l.pos, l.out.v, vars));
    }
  }

  /** Evaluation faults exactly when some short circuit it takes skips a chain
      in which an operand does not close. */
  lemma PanicsExactly(ts: seq<Token>, vars: Vars)
    requires EofTerminated(ts)
    ensures EvalTokens(ts, vars).Panic? <==> !AllClose(ts, OrShorts(ts, 0, vars))
  {
    OrExact(ts, 0, vars);
  }

  /** On every closed token sequence, grammatical or not, evaluation comes to a
      value or an error and never faults. */
  lemma {:induction false} ClosedNeverPanics(ts: seq<Token>, vars: Vars)
    requires EofTerminated(ts) && Closed(ts)
    ensures !EvalTokens(ts, vars).Panic?
  {
    forall s | s in OrShorts(ts, 0, vars)
      ensures ShortCloses(ts, s)
    {
      if s.p < |ts| {
        if s.op == Or {
          SkipOrsInside(ts, s.p);
          SkipOrsExact(ts, s.p);
        } else {
          SkipAndsInside(ts, s.p);
          SkipAndsExact(ts, s.p);
        }
      }
    }
    PanicsExactly(ts, vars);
  }

  const TRUE := Token(Boolean, "true", 1.0)

  /** Both parts of the condition are needed: `true || (` and `true || x.` fault. */
  lemma UnclosedTailsPanic(vars: Vars, x: string)
    ensures EofTerminated([TRUE, OR, LPAREN, END]) && !Closed([TRUE, OR, LPAREN, END])
    ensures EvalTokens([TRUE, OR, LPAREN, END], vars) == Panic
    ensures EofTerminated([TRUE, OR, Sym(Ident, x), DOT, END]) && !Closed([TRUE, OR, Sym(Ident, x), DOT, END])
    ensures EvalTokens([TRUE, OR, Sym(Ident, x), DOT, END], vars) == Panic
  {
    var a := [TRUE, OR, LPAREN, END];
    assert NetClose(a, 3, 4) == 0 && NetClose(a, 2, 4) == -1;
    assert SkipPrimary(a, 2) == SkipParens(a, 3, 1) == At(4);
    assert SkipUnary(a, 2) == Overrun;
    assert ParseComparison(a, 0, vars) == Res(Val(Bool(true)), 1);
    assert ParseUnary(a, 0, vars) == Res(Val(Bool(true)), 1);
    assert ParseAnd(a, 0, vars) == Res(Val(Bool(true)), 1);
    assert OrLoop(a, 1, Bool(true), vars).out == Panic;
    var b := [TRUE, OR, Sym(Ident, x), DOT, END];
    assert SkipPrimary(b, 2) == SkipDots(b, 3) == SkipDots(b, 5) == Overrun;
    assert SkipUnary(b, 2) == Overrun;
    assert ParseComparison(b, 0, vars) == Res(Val(Bool(true)), 1);
    assert ParseUnary(b, 0, vars) == Res(Val(Bool(true)), 1);
    assert ParseAnd(b, 0, vars) == Res(Val(Bool(true)), 1);
    assert OrLoop(b, 1, Bool(true), vars).out == Panic;
  }

  // ---- acceptance is wider than the grammar ------------------------------

  lemma {:induction false} FieldsEndInOperands(fs: seq<string>)
    ensures fs != [] ==> FieldTokens(fs) != [] && FieldTokens(fs)[|FieldTokens(fs)| - 1].kind != Or
  {
    if fs != [] { FieldsEndInOperands(fs[1..]); }
  }

  lemma PrimariesEndInOperands(e: Primary)
    ensures PrimaryTokens(e)[|PrimaryTokens(e)| - 1].kind != Or
  {
    if e.Path? { FieldsEndInOperands(e.fields); }
  }

  lemma {:induction false} UnaryTreesEndInOperands(e: UnaryExpr)
    ensures UnaryTokens(e)[|UnaryTokens(e)| - 1].kind != Or
  {
    match e {
      case Negate(u) => UnaryTreesEndInOperands(u);
      case Plain(Single(p)) => PrimariesEndInOperands(p);
      case Plain(Binary(l, op, r)) => PrimariesEndInOperands(r);
    }
  }

  lemma {:induction false} AndTreesEndInOperands(e: AndExpr)
    ensures AndTokens(e)[|AndTokens(e)| - 1].kind != Or
  {
    if e.AndMore? { AndTreesEndInOperands(e.rest); } else { UnaryTreesEndInOperands(e.u); }
  }

  /** No tree ends in a binary operator. */
  lemma {:induction false} TreesEndInOperands(e: OrExpr)
    ensures OrTokens(e)[|OrTokens(e)| - 1].kind != Or
    decreases e
  {
    if e.OrMore? { TreesEndInOperands(e.rest); } else { AndTreesEndInOperands(e.a); }
  }

  /** `true ||` is accepted with value true although no tree is spelt that way. */
  lemma TruncatedInputAccepted(vars: Vars, e: OrExpr)
    ensures EvalTokens([TRUE, OR, END], vars) == Val(Bool(true))
    ensures OrTokens(e) != [TRUE, OR]
  {
    var a := [TRUE, OR, END];
    assert SkipUnary(a, 2) == At(2);
    assert SkipAnd(a, 2) == At(2);
    assert ParseComparison(a, 0, vars) == Res(Val(Bool(true)), 1);
    assert ParseUnary(a, 0, vars) == Res(Val(Bool(true)), 1);
    assert ParseAnd(a, 0, vars) == Res(Val(Bool(true)), 1);
    assert SkipOrs(a, 2) == At(2) && SkipOrs(a, 1) == At(2);
    assert OrLoop(a, 1, Bool(true), vars) == Res(Val(Bool(true)), 2);
    TreesEndInOperands(e);
  }
}
