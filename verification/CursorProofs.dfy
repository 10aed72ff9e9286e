/** The cursor parser computes the meaning of the tree its tokens spell, and
    its skipping half consumes exactly what its evaluating half would have. */
module CursorProofs {
  import opened Values
  import opened Tokens
  import opened Grammar
  import opened Spelling
  import opened CursorSpec

  /** What may follow an expression of each level without being part of it. */
  predicate EndsPrimary(k: Kind) { k != Dot }
  predicate EndsUnary(k: Kind) { EndsPrimary(k) && !IsComparison(k) }
  predicate EndsAnd(k: Kind) { EndsUnary(k) && k != And }
  predicate EndsOr(k: Kind) { EndsAnd(k) && k != Or }

  // ---- the bracket counter passes over whole expressions -----------------

  lemma {:induction false} PassFields(fs: seq<string>, ts: seq<Token>, p: nat, d: nat)
    requires SpellsFields(fs, ts, p) && d > 0
    ensures SkipParens(ts, p, d) == SkipParens(ts, p + 2 * |fs|, d)
  {
    if fs != [] {
      assert SkipParens(ts, p, d) == SkipParens(ts, p + 1, d) == SkipParens(ts, p + 2, d);
      PassFields(fs[1..], ts, p + 2, d);
    }
  }

  lemma {:induction false} PassPrimary(e: Primary, ts: seq<Token>, p: nat, d: nat)
    requires SpellsPrimary(e, ts, p) && WellFormedPrimary(e) && d > 0
    ensures SkipParens(ts, p, d) == SkipParens(ts, EndPrimary(e, p), d)
    decreases e, 0
  {
    match e {
      case Paren(inner) => PassOr(inner, ts, p + 1, d + 1);
      case Path(_, fields) => PassFields(fields, ts, p + 1, d);
      case _ =>
    }
  }

  lemma {:induction false} PassCmp(e: CmpExpr, ts: seq<Token>, p: nat, d: nat)
    requires SpellsCmp(e, ts, p) && WellFormedCmp(e) && d > 0
    ensures SkipParens(ts, p, d) == SkipParens(ts, EndCmp(e, p), d)
    decreases e, 1
  {
    match e {
      case Single(q) =>
        PassPrimary(q, ts, p, d);
      case Binary(l, op, r) =>
        PassPrimary(l, ts, p, d);
        PassPrimary(r, ts, EndPrimary(l, p) + 1, d);
    }
  }

  lemma {:induction false} PassUnary(e: UnaryExpr, ts: seq<Token>, p: nat, d: nat)
    requires SpellsUnary(e, ts, p) && WellFormedUnary(e) && d > 0
    ensures SkipParens(ts, p, d) == SkipParens(ts, EndUnary(e, p), d)
    decreases e, 2
  {
    match e {
      case Negate(u) => PassUnary(u, ts, p + 1, d);
      case Plain(c) => PassCmp(c, ts, p, d);
    }
  }

  lemma {:induction false} PassAnd(e: AndExpr, ts: seq<Token>, p: nat, d: nat)
    requires SpellsAnd(e, ts, p) && WellFormedAnd(e) && d > 0
    ensures SkipParens(ts, p, d) == SkipParens(ts, EndAnd(e, p), d)
    decreases e, 3
  {
    PassUnary(e.u, ts, p, d);
    if e.AndMore? {
      PassAnd(e.rest, ts, EndUnary(e.u, p) + 1, d);
    }
  }

  lemma {:induction false} PassOr(e: OrExpr, ts: seq<Token>, p: nat, d: nat)
    requires SpellsOr(e, ts, p) && WellFormed(e) && d > 0
    ensures SkipParens(ts, p, d) == SkipParens(ts, EndOr(e, p), d)
    decreases e, 4
  {
    PassAnd(e.a, ts, p, d);
    if e.OrMore? {
      PassOr(e.rest, ts, EndAnd(e.a, p) + 1, d);
    }
  }

  // ---- skipping lands on the end of the operand -------------------------

  lemma {:induction false} SkipsFields(fs: seq<string>, ts: seq<Token>, p: nat)
    requires SpellsFields(fs, ts, p)
    requires p + 2 * |fs| < |ts| && EndsPrimary(ts[p + 2 * |fs|].kind)
    ensures SkipDots(ts, p) == At(p + 2 * |fs|)
  {
    if fs != [] {
      SkipsFields(fs[1..], ts, p + 2);
    }
  }

  lemma SkipsPrimary(e: Primary, ts: seq<Token>, p: nat)
    requires SpellsPrimary(e, ts, p) && WellFormedPrimary(e)
    requires EndPrimary(e, p) < |ts| && EndsPrimary(ts[EndPrimary(e, p)].kind)
    ensures SkipPrimary(ts, p) == At(EndPrimary(e, p))
    ensures ts[p].kind != Not
  {
    hide ParseOr, ParsePrimary;
    match e {
      case Paren(inner) => PassOr(inner, ts, p + 1, 1);
      case Path(_, fields) => SkipsFields(fields, ts, p + 1);
      case _ =>
    }
  }

  lemma {:induction false} SkipsUnary(e: UnaryExpr, ts: seq<Token>, p: nat)
    requires SpellsUnary(e, ts, p) && WellFormedUnary(e)
    requires EndUnary(e, p) < |ts| && EndsUnary(ts[EndUnary(e, p)].kind)
    ensures SkipUnary(ts, p) == At(EndUnary(e, p))
  {
    match e {
      case Negate(u) =>
        SkipsUnary(u, ts, p + 1);
      case Plain(c) =>
        assert WellFormedCmp(c) && SpellsCmp(c, ts, p) && EndUnary(e, p) == EndCmp(c, p);
        match c {
          case Single(q) =>
            SkipsPrimary(q, ts, p);
          case Binary(l, op, r) =>
            SkipsPrimary(l, ts, p);
            SkipsPrimary(r, ts, EndPrimary(l, p) + 1);
        }
    }
  }

  lemma {:induction false} SkipsAnd(e: AndExpr, ts: seq<Token>, p: nat)
    requires SpellsAnd(e, ts, p) && WellFormedAnd(e)
    requires EndAnd(e, p) < |ts| && EndsAnd(ts[EndAnd(e, p)].kind)
    ensures SkipAnd(ts, p) == At(EndAnd(e, p))
  {
    SkipsUnary(e.u, ts, p);
    if e.AndMore? {
      SkipsAnd(e.rest, ts, EndUnary(e.u, p) + 1);
    }
  }

  lemma {:induction false} SkipsOrs(e: OrExpr, ts: seq<Token>, p: nat)
    requires p < |ts| && ts[p].kind == Or && SpellsOr(e, ts, p + 1) && WellFormed(e)
    requires EndOr(e, p + 1) < |ts| && EndsOr(ts[EndOr(e, p + 1)].kind)
    ensures SkipOrs(ts, p) == At(EndOr(e, p + 1))
  {
    SkipsAnd(e.a, ts, p + 1);
    if e.OrMore? {
      SkipsOrs(e.rest, ts, EndAnd(e.a, p + 1));
    }
  }

  // ---- evaluating yields the meaning ------------------------------------

  /** The parse came to the outcome `m`; if that is a value, the cursor is at `q`. */
  predicate Yields(r: Res, m: Outcome, q: nat)
  {
    r.out == m && (m.Val? ==> r.pos == q)
  }

  lemma {:induction false} FieldsAdequate(fs: seq<string>, ts: seq<Token>, p: nat, v: Value)
    requires SpellsFields(fs, ts, p)
    requires p + 2 * |fs| < |ts| && EndsPrimary(ts[p + 2 * |fs|].kind)
    ensures ParseFields(ts, p, v) == Res(Val(Select(v, fs)), p + 2 * |fs|)
    decreases fs
  {
    if fs != [] {
      FieldsAdequate(fs[1..], ts, p + 2, Field(v, fs[0]));
    }
  }

  lemma {:induction false} PrimaryAdequate(e: Primary, ts: seq<Token>, p: nat, vars: Vars)
    requires SpellsPrimary(e, ts, p) && WellFormedPrimary(e)
    requires EndPrimary(e, p) < |ts| && EndsPrimary(ts[EndPrimary(e, p)].kind)
    ensures Yields(ParsePrimary(ts, p, vars), MeaningPrimary(e, vars), EndPrimary(e, p))
    ensures ts[p].kind != Not
    decreases e, 0
  {
    match e {
      case Paren(inner) =>
        OrAdequate(inner, ts, p + 1, vars);
      case Path(root, fields) =>
        if root in vars {
          FieldsAdequate(fields, ts, p + 1, vars[root]);
        }
      case _ =>
    }
  }

  lemma {:induction false} CmpAdequate(e: CmpExpr, ts: seq<Token>, p: nat, vars: Vars)
    requires SpellsCmp(e, ts, p) && WellFormedCmp(e)
    requires EndCmp(e, p) < |ts| && EndsUnary(ts[EndCmp(e, p)].kind)
    ensures Yields(ParseComparison(ts, p, vars), MeaningCmp(e, vars), EndCmp(e, p))
    ensures p < |ts| && ts[p].kind != Not
    decreases e, 1
  {
    match e {
      case Single(q) =>
        PrimaryAdequate(q, ts, p, vars);
      case Binary(l, op, r) =>
        PrimaryAdequate(l, ts, p, vars);
        PrimaryAdequate(r, ts, EndPrimary(l, p) + 1, vars);
    }
  }

  lemma {:induction false} UnaryAdequate(e: UnaryExpr, ts: seq<Token>, p: nat, vars: Vars)
    requires SpellsUnary(e, ts, p) && WellFormedUnary(e)
    requires EndUnary(e, p) < |ts| && EndsUnary(ts[EndUnary(e, p)].kind)
    ensures Yields(ParseUnary(ts, p, vars), MeaningUnary(e, vars), EndUnary(e, p))
    decreases e, 2
  {
    match e {
      case Negate(u) => UnaryAdequate(u, ts, p + 1, vars);
      case Plain(c) => CmpAdequate(c, ts, p, vars);
    }
  }

  lemma AndStep(ts: seq<Token>, p: nat, vars: Vars, first: Outcome, q: nat, rest: Outcome, end: nat)
    requires q < |ts| && ts[q].kind == And && SkipAnds(ts, q) == At(end)
    requires Yields(ParseUnary(ts, p, vars), first, q) && Yields(ParseAnd(ts, q + 1, vars), rest, end)
    ensures Yields(ParseAnd(ts, p, vars), if !first.Val? || !Truthy(first.v) then first else rest, end)
  {
    hide ParseUnary, SkipAnds, Truthy;
    if first.Val? && Truthy(first.v) {
      assert AndLoop(ts, q, first.v, vars) == ParseAnd(ts, q + 1, vars);
    }
  }

  lemma OrStep(ts: seq<Token>, p: nat, vars: Vars, first: Outcome, q: nat, rest: Outcome, end: nat)
    requires q < |ts| && ts[q].kind == Or && SkipOrs(ts, q) == At(end)
    requires Yields(ParseAnd(ts, p, vars), first, q) && Yields(ParseOr(ts, q + 1, vars), rest, end)
    ensures Yields(ParseOr(ts, p, vars), if !first.Val? || Truthy(first.v) then first else rest, end)
  {
    hide ParseAnd, SkipOrs, Truthy;
    if first.Val? && !Truthy(first.v) {
      assert OrLoop(ts, q, first.v, vars) == ParseOr(ts, q + 1, vars);
    }
  }

  lemma {:induction false} AndAdequate(e: AndExpr, ts: seq<Token>, p: nat, vars: Vars)
    requires SpellsAnd(e, ts, p) && WellFormedAnd(e)
    requires EndAnd(e, p) < |ts| && EndsAnd(ts[EndAnd(e, p)].kind)
    ensures Yields(ParseAnd(ts, p, vars), MeaningAnd(e, vars), EndAnd(e, p))
    decreases e, 3
  {
    UnaryAdequate(e.u, ts, p, vars);
    if e.AndMore? {
      var q := EndUnary(e.u, p);
      AndAdequate(e.rest, ts, q + 1, vars);
      SkipsAnd(e.rest, ts, q + 1);
      assert SkipAnds(ts, q) == SkipAnd(ts, q + 1);
      AndStep(ts, p, vars, MeaningUnary(e.u, vars), q, MeaningAnd(e.rest, vars), EndAnd(e, p));
    }
  }

  /** Adequacy: wherever the tokens of a tree stand, followed by something that
      cannot continue them, the parser comes to exactly the tree's value or
      error, and on a value stops exactly at the tree's end. */
  lemma {:induction false} OrAdequate(e: OrExpr, ts: seq<Token>, p: nat, vars: Vars)
    requires SpellsOr(e, ts, p) && WellFormed(e)
    requires EndOr(e, p) < |ts| && EndsOr(ts[EndOr(e, p)].kind)
    ensures Yields(ParseOr(ts, p, vars), Meaning(e, vars), EndOr(e, p))
    decreases e, 4
  {
    AndAdequate(e.a, ts, p, vars);
    if e.OrMore? {
      var q := EndAnd(e.a, p);
      OrAdequate(e.rest, ts, q + 1, vars);
      SkipsOrs(e.rest, ts, q);
      OrStep(ts, p, vars, MeaningAnd(e.a, vars), q, Meaning(e.rest, vars), EndOr(e, p));
    }
  }

  /** On the tokens of any tree, the whole-sequence entry point returns the
      tree's meaning. */
  lemma EvalTokensAdequate(e: OrExpr, vars: Vars)
    requires WellFormed(e)
    ensures EvalTokens(OrTokens(e) + [END], vars) == Meaning(e, vars)
  {
    var ts := OrTokens(e) + [END];
    assert ts[0..|OrTokens(e)|] == OrTokens(e);
    OrSpelt(e, ts, 0);
    OrAdequate(e, ts, 0, vars);
  }

  /** Skip/parse agreement for one operand: it is skipped in bounds, and skipping
      stops at the token where evaluating it, if that gives a value, stops. */
  lemma SkipPrimaryAgrees(e: Primary, ts: seq<Token>, p: nat, vars: Vars)
    requires SpellsPrimary(e, ts, p) && WellFormedPrimary(e)
    requires EndPrimary(e, p) < |ts| && EndsPrimary(ts[EndPrimary(e, p)].kind)
    ensures SkipPrimary(ts, p).At? && SkipPrimary(ts, p).pos < |ts|
    ensures ParsePrimary(ts, p, vars).out.Val? ==> SkipPrimary(ts, p).pos == ParsePrimary(ts, p, vars).pos
  {
    PrimaryAdequate(e, ts, p, vars);
    SkipsPrimary(e, ts, p);
  }

  /** The same for a negated or compared operand. */
  lemma SkipUnaryAgrees(e: UnaryExpr, ts: seq<Token>, p: nat, vars: Vars)
    requires SpellsUnary(e, ts, p) && WellFormedUnary(e)
    requires EndUnary(e, p) < |ts| && EndsUnary(ts[EndUnary(e, p)].kind)
    ensures SkipUnary(ts, p).At? && SkipUnary(ts, p).pos < |ts|
    ensures ParseUnary(ts, p, vars).out.Val? ==> SkipUnary(ts, p).pos == ParseUnary(ts, p, vars).pos
  {
    UnaryAdequate(e, ts, p, vars);
    SkipsUnary(e, ts, p);
  }

  /** And for an operand of "or". */
  lemma SkipAndAgrees(e: AndExpr, ts: seq<Token>, p: nat, vars: Vars)
    requires SpellsAnd(e, ts, p) && WellFormedAnd(e)
    requires EndAnd(e, p) < |ts| && EndsAnd(ts[EndAnd(e, p)].kind)
    ensures SkipAnd(ts, p).At? && SkipAnd(ts, p).pos < |ts|
    ensures ParseAnd(ts, p, vars).out.Val? ==> SkipAnd(ts, p).pos == ParseAnd(ts, p, vars).pos
  {
    AndAdequate(e, ts, p, vars);
    SkipsAnd(e, ts, p);
  }

  /** Skipped operands contribute nothing: whatever stands after a truthy
      operand, unknown variables and unordered operands included, the outcome
      is that operand's value. */
  lemma ShortCircuitIgnoresOperands(a: AndExpr, rest: OrExpr, vars: Vars)
    requires WellFormedAnd(a) && WellFormed(rest)
    requires MeaningAnd(a, vars).Val? && Truthy(MeaningAnd(a, vars).v)
    ensures EvalTokens(OrTokens(OrMore(a, rest)) + [END], vars) == MeaningAnd(a, vars)
  {
    EvalTokensAdequate(OrMore(a, rest), vars);
  }

  /** The same after a falsy operand and `&&`. */
  lemma ConjunctionIgnoresOperands(u: UnaryExpr, rest: AndExpr, vars: Vars)
    requires WellFormedUnary(u) && WellFormedAnd(rest)
    requires MeaningUnary(u, vars).Val? && !Truthy(MeaningUnary(u, vars).v)
    ensures EvalTokens(AndTokens(AndMore(u, rest)) + [END], vars) == MeaningUnary(u, vars)
  {
    EvalTokensAdequate(OrOne(AndMore(u, rest)), vars);
  }
}
