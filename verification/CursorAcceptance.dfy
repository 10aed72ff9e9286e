/** What the cursor parser accepts. Evaluated tokens always spell a tree; only
    the tokens that a taken short circuit skips can fall outside the grammar,
    so an accepted input is grammatical exactly if each skipped run is. */
module CursorAcceptance {
  import opened Values
  import opened Tokens
  import opened Grammar
  import opened Spelling
  import opened CursorSpec
  import opened CursorProofs
  import opened CursorBounds

  /** A token as the lexer makes it. */
  predicate Canonical(t: Token)
  {
    match t.kind
    case EOF => t == END
    case And => t == AND
    case Or => t == OR
    case Not => t == NOT
    case Dot => t == DOT
    case LParen => t == LPAREN
    case RParen => t == RPAREN
    case Boolean => t == Token(Boolean, "true", 1.0) || t == Token(Boolean, "false", 0.0)
    case Null => t == Sym(Null, "null")
    case Number => true
    case k => t == Sym(k, t.text)
  }

  predicate AllCanonical(ts: seq<Token>)
  {
    forall i :: 0 <= i < |ts| ==> Canonical(ts[i])
  }

  ghost predicate SpellsOrRun(ts: seq<Token>, p: nat, q: nat)
  {
    exists e :: WellFormed(e) && SpellsOr(e, ts, p) && EndOr(e, p) == q
  }

  ghost predicate SpellsAndRun(ts: seq<Token>, p: nat, q: nat)
  {
    exists e :: WellFormedAnd(e) && SpellsAnd(e, ts, p) && EndAnd(e, p) == q
  }

  /** The tokens a taken short circuit skips spell the rest of a `||` or `&&`
      chain. */
  ghost predicate ShortSpells(ts: seq<Token>, s: Short)
  {
    if s.op == Or then
      SkipOrs(ts, s.p).At? && SpellsOrRun(ts, s.p + 1, SkipOrs(ts, s.p).pos)
    else
      SkipAnds(ts, s.p).At? && SpellsAndRun(ts, s.p + 1, SkipAnds(ts, s.p).pos)
  }

  ghost predicate AllSpell(ts: seq<Token>, ss: seq<Short>)
  {
    forall s :: s in ss ==> ShortSpells(ts, s)
  }

  lemma AllSpellConcat(ts: seq<Token>, a: seq<Short>, b: seq<Short>)
    ensures AllSpell(ts, a + b) <==> AllSpell(ts, a) && AllSpell(ts, b)
  {
    assert forall s :: s in a + b <==> s in a || s in b;
  }

  lemma AllSpellOne(ts: seq<Token>, s: Short)
    ensures AllSpell(ts, [s]) <==> ShortSpells(ts, s)
  {
    assert s in [s];
  }

  // ---- a value comes from a tree -----------------------------------------

  lemma {:induction false} FieldsFromTree(ts: seq<Token>, p: nat, v: Value) returns (fs: seq<string>)
    requires AllCanonical(ts) && ParseFields(ts, p, v).out.Val?
    ensures SpellsFields(fs, ts, p) && ParseFields(ts, p, v).pos == p + 2 * |fs|
    decreases |ts| - p
  {
    if ts[p].kind == Dot {
      assert Canonical(ts[p]) && Canonical(ts[p + 1]);
      var rest := FieldsFromTree(ts, p + 2, Field(v, ts[p + 1].text));
      fs := [ts[p + 1].text] + rest;
      assert fs[1..] == rest;
    } else {
      fs := [];
    }
  }

  lemma {:induction false} PrimaryFromTree(ts: seq<Token>, p: nat, vars: Vars) returns (e: Primary)
    requires AllCanonical(ts) && ParsePrimary(ts, p, vars).out.Val? && AllSpell(ts, PrimaryShorts(ts, p, vars))
    ensures WellFormedPrimary(e) && SpellsPrimary(e, ts, p) && EndPrimary(e, p) == ParsePrimary(ts, p, vars).pos
    decreases Left(ts, p), 0
  {
    var t := ts[p];
    assert Canonical(t);
    match t.kind {
      case String => e := StrLit(t.text);
      case Number => e := NumLit(t.text, t.num);
      case Boolean => e := BoolLit(t.num == 1.0);
      case Null => e := NullLit;
      case LParen =>
        var inner := OrFromTree(ts, p + 1, vars);
        assert Canonical(ts[ParseOr(ts, p + 1, vars).pos]);
        e := Paren(inner);
      case Ident =>
        var fields := FieldsFromTree(ts, p + 1, vars[t.text]);
        e := Path(t.text, fields);
    }
  }

  lemma {:induction false} CmpFromTree(ts: seq<Token>, p: nat, vars: Vars) returns (e: CmpExpr)
    requires AllCanonical(ts) && p < |ts| && ts[p].kind != Not
    requires ParseComparison(ts, p, vars).out.Val? && AllSpell(ts, UnaryShorts(ts, p, vars))
    ensures WellFormedCmp(e) && SpellsCmp(e, ts, p) && EndCmp(e, p) == ParseComparison(ts, p, vars).pos
    decreases Left(ts, p), 1
  {
    hide ShortSpells, Canonical;
    var l := ParsePrimary(ts, p, vars);
    var q := l.pos;
    if IsComparison(ts[q].kind) {
      AllSpellConcat(ts, PrimaryShorts(ts, p, vars), PrimaryShorts(ts, q + 1, vars));
      var left := PrimaryFromTree(ts, p, vars);
      var right := PrimaryFromTree(ts, q + 1, vars);
      e := Binary(left, ts[q], right);
    } else {
      AllSpellConcat(ts, PrimaryShorts(ts, p, vars), []);
      var left := PrimaryFromTree(ts, p, vars);
      e := Single(left);
    }
  }

  lemma {:induction false} UnaryFromTree(ts: seq<Token>, p: nat, vars: Vars) returns (e: UnaryExpr)
    requires AllCanonical(ts) && ParseUnary(ts, p, vars).out.Val? && AllSpell(ts, UnaryShorts(ts, p, vars))
    ensures WellFormedUnary(e) && SpellsUnary(e, ts, p) && EndUnary(e, p) == ParseUnary(ts, p, vars).pos
    decreases Left(ts, p), 2
  {
    if ts[p].kind == Not {
      assert Canonical(ts[p]);
      var u := UnaryFromTree(ts, p + 1, vars);
      e := Negate(u);
    } else {
      var c := CmpFromTree(ts, p, vars);
      e := Plain(c);
    }
  }

  /** The rest of an `&&` chain, from the `&&` at `p` on. */
  lemma {:induction false} AndRestFromTree(ts: seq<Token>, p: nat, left: Value, vars: Vars) returns (e: AndExpr)
    requires AllCanonical(ts) && p < |ts| && ts[p].kind == And
    requires AndLoop(ts, p, left, vars).out.Val? && AllSpell(ts, AndLoopShorts(ts, p, left, vars))
    ensures WellFormedAnd(e) && SpellsAnd(e, ts, p + 1) && EndAnd(e, p + 1) == AndLoop(ts, p, left, vars).pos
    decreases Left(ts, p), 3
  {
    hide AllSpell, UnaryShorts, ParseUnary, SkipAnds, SpellsAnd, EndAnd, WellFormedAnd;
    if Truthy(left) {
      e := AndFromTree(ts, p + 1, vars);
    } else {
      AllSpellOne(ts, Short(p, And));
      e :| WellFormedAnd(e) && SpellsAnd(e, ts, p + 1) && EndAnd(e, p + 1) == SkipAnds(ts, p).pos;
    }
  }

  lemma {:induction false} AndFromTree(ts: seq<Token>, p: nat, vars: Vars) returns (e: AndExpr)
    requires AllCanonical(ts) && ParseAnd(ts, p, vars).out.Val? && AllSpell(ts, AndShorts(ts, p, vars))
    ensures WellFormedAnd(e) && SpellsAnd(e, ts, p) && EndAnd(e, p) == ParseAnd(ts, p, vars).pos
    decreases Left(ts, p), 4
  {
    hide AllSpell, ParseUnary, UnaryShorts, AndLoopShorts, SpellsUnary, EndUnary, WellFormedUnary;
    var l := ParseUnary(ts, p, vars);
    AllSpellConcat(ts, UnaryShorts(ts, p, vars), AndLoopShorts(ts, l.pos, l.out.v, vars));
    var u := UnaryFromTree(ts, p, vars);
    if l.pos < |ts| && ts[l.pos].kind == And {
      assert Canonical(ts[l.pos]);
      var rest := AndRestFromTree(ts, l.pos, l.out.v, vars);
      e := AndMore(u, rest);
    } else {
      e := AndOne(u);
    }
  }

  lemma {:induction false} OrRestFromTree(ts: seq<Token>, p: nat, left: Value, vars: Vars) returns (e: OrExpr)
    requires AllCanonical(ts) && p < |ts| && ts[p].kind == Or
    requires OrLoop(ts, p, left, vars).out.Val? && AllSpell(ts, OrLoopShorts(ts, p, left, vars))
    ensures WellFormed(e) && SpellsOr(e, ts, p + 1) && EndOr(e, p + 1) == OrLoop(ts, p, left, vars).pos
    decreases Left(ts, p), 5
  {
    hide AllSpell, AndShorts, ParseAnd, SkipOrs, SpellsOr, EndOr, WellFormed;
    if Truthy(left) {
      AllSpellOne(ts, Short(p, Or));
      e :| WellFormed(e) && SpellsOr(e, ts, p + 1) && EndOr(e, p + 1) == SkipOrs(ts, p).pos;
    } else {
      e := OrFromTree(ts, p + 1, vars);
    }
  }

  /** The converse of adequacy: where evaluation comes to a value and every run
      it skipped spells a chain, the tokens up to the cursor spell a tree. */
  lemma {:induction false} OrFromTree(ts: seq<Token>, p: nat, vars: Vars) returns (e: OrExpr)
    requires AllCanonical(ts) && ParseOr(ts, p, vars).out.Val? && AllSpell(ts, OrShorts(ts, p, vars))
    ensures WellFormed(e) && SpellsOr(e, ts, p) && EndOr(e, p) == ParseOr(ts, p, vars).pos
    decreases Left(ts, p), 6
  {
    hide AllSpell, ParseAnd, AndShorts, OrLoopShorts, SpellsAnd, EndAnd, WellFormedAnd;
    var l := ParseAnd(ts, p, vars);
    AllSpellConcat(ts, AndShorts(ts, p, vars), OrLoopShorts(ts, l.pos, l.out.v, vars));
    var a := AndFromTree(ts, p, vars);
    if l.pos < |ts| && ts[l.pos].kind == Or {
      assert Canonical(ts[l.pos]);
      var rest := OrRestFromTree(ts, l.pos, l.out.v, vars);
      e := OrMore(a, rest);
    } else {
      e := OrOne(a);
    }
  }

  // ---- evaluating a tree skips only chains -------------------------------

  lemma {:induction false} PrimaryShortsSpell(e: Primary, ts: seq<Token>, p: nat, vars: Vars)
    requires SpellsPrimary(e, ts, p) && WellFormedPrimary(e)
    requires EndPrimary(e, p) < |ts| && EndsPrimary(ts[EndPrimary(e, p)].kind)
    ensures AllSpell(ts, PrimaryShorts(ts, p, vars))
    decreases e, 0
  {
    if e.Paren? {
      OrShortsSpell(e.e, ts, p + 1, vars);
    }
  }

  lemma NegationShorts(ts: seq<Token>, p: nat, vars: Vars)
    requires p < |ts| && ts[p].kind == Not
    ensures UnaryShorts(ts, p, vars) == UnaryShorts(ts, p + 1, vars)
  {
  }

  lemma ComparisonShorts(ts: seq<Token>, p: nat, vars: Vars)
    requires p < |ts| && ts[p].kind != Not && AllSpell(ts, PrimaryShorts(ts, p, vars))
    requires var l := ParsePrimary(ts, p, vars);
             l.out.Val? && l.pos < |ts| && IsComparison(ts[l.pos].kind) ==>
               AllSpell(ts, PrimaryShorts(ts, l.pos + 1, vars))
    ensures AllSpell(ts, UnaryShorts(ts, p, vars))
  {
    hide AllSpell, ParsePrimary, PrimaryShorts;
    var l := ParsePrimary(ts, p, vars);
    if l.out.Val? && l.pos < |ts| && IsComparison(ts[l.pos].kind) {
      AllSpellConcat(ts, PrimaryShorts(ts, p, vars), PrimaryShorts(ts, l.pos + 1, vars));
    } else {
      assert PrimaryShorts(ts, p, vars) + [] == PrimaryShorts(ts, p, vars);
    }
  }

  lemma {:induction false} UnaryShortsSpell(e: UnaryExpr, ts: seq<Token>, p: nat, vars: Vars)
    requires SpellsUnary(e, ts, p) && WellFormedUnary(e)
    requires EndUnary(e, p) < |ts| && EndsUnary(ts[EndUnary(e, p)].kind)
    ensures AllSpell(ts, UnaryShorts(ts, p, vars))
    decreases e, 2
  {
    hide AllSpell, UnaryShorts, ParsePrimary, PrimaryShorts, MeaningPrimary;
    match e {
      case Negate(u) =>
        UnaryShortsSpell(u, ts, p + 1, vars);
        NegationShorts(ts, p, vars);
      case Plain(Single(q)) =>
        PrimaryShortsSpell(q, ts, p, vars);
        PrimaryAdequate(q, ts, p, vars);
        ComparisonShorts(ts, p, vars);
      case Plain(Binary(l, op, r)) =>
        PrimaryShortsSpell(l, ts, p, vars);
        PrimaryAdequate(l, ts, p, vars);
        PrimaryShortsSpell(r, ts, EndPrimary(l, p) + 1, vars);
        ComparisonShorts(ts, p, vars);
    }
  }

  /** An `&&` loop's short circuits spell if it stops, skips a chain or goes on. */
  lemma AndLoopSpells(ts: seq<Token>, q: nat, left: Value, vars: Vars)
    requires q < |ts|
    requires ts[q].kind == And ==>
               if Truthy(left) then AllSpell(ts, AndShorts(ts, q + 1, vars))
               else SkipAnds(ts, q).At? && SpellsAndRun(ts, q + 1, SkipAnds(ts, q).pos)
    ensures AllSpell(ts, AndLoopShorts(ts, q, left, vars))
  {
    if ts[q].kind == And {
      if Truthy(left) {
        hide AllSpell, UnaryShorts, ParseUnary;
        assert AndLoopShorts(ts, q, left, vars) == AndShorts(ts, q + 1, vars);
      } else {
        AllSpellOne(ts, Short(q, And));
      }
    }
  }

  lemma AndShortsFrom(ts: seq<Token>, p: nat, vars: Vars)
    requires AllSpell(ts, UnaryShorts(ts, p, vars))
    requires var l := ParseUnary(ts, p, vars); l.out.Val? ==> AllSpell(ts, AndLoopShorts(ts, l.pos, l.out.v, vars))
    ensures AllSpell(ts, AndShorts(ts, p, vars))
  {
    hide AllSpell, UnaryShorts, ParseUnary, AndLoopShorts;
    var l := ParseUnary(ts, p, vars);
    if l.out.Val? {
      AllSpellConcat(ts, UnaryShorts(ts, p, vars), AndLoopShorts(ts, l.pos, l.out.v, vars));
    } else {
      assert UnaryShorts(ts, p, vars) + [] == UnaryShorts(ts, p, vars);
    }
  }

  lemma {:induction false} AndShortsSpell(e: AndExpr, ts: seq<Token>, p: nat, vars: Vars)
    requires SpellsAnd(e, ts, p) && WellFormedAnd(e)
    requires EndAnd(e, p) < |ts| && EndsAnd(ts[EndAnd(e, p)].kind)
    ensures AllSpell(ts, AndShorts(ts, p, vars))
    decreases e, 3
  {
    hide AllSpell, AndShorts, AndLoopShorts, ParseUnary, UnaryShorts, MeaningUnary, SpellsUnary, EndUnary;
    UnaryShortsSpell(e.u, ts, p, vars);
    UnaryAdequate(e.u, ts, p, vars);
    var l := ParseUnary(ts, p, vars);
    if l.out.Val? {
      var q := EndUnary(e.u, p);
      if e.AndMore? {
        AndShortsSpell(e.rest, ts, q + 1, vars);
        SkipsAnd(e.rest, ts, q + 1);
        assert SkipAnds(ts, q) == SkipAnd(ts, q + 1);
        assert SpellsAndRun(ts, q + 1, SkipAnds(ts, q).pos);
      }
      AndLoopSpells(ts, q, l.out.v, vars);
    }
    AndShortsFrom(ts, p, vars);
  }

  lemma OrLoopSpells(ts: seq<Token>, q: nat, left: Value, vars: Vars)
    requires q < |ts|
    requires ts[q].kind == Or ==>
               if !Truthy(left) then AllSpell(ts, OrShorts(ts, q + 1, vars))
               else SkipOrs(ts, q).At? && SpellsOrRun(ts, q + 1, SkipOrs(ts, q).pos)
    ensures AllSpell(ts, OrLoopShorts(ts, q, left, vars))
  {
    if ts[q].kind == Or {
      if Truthy(left) {
        AllSpellOne(ts, Short(q, Or));
      } else {
        hide AllSpell, AndShorts, ParseAnd;
        assert OrLoopShorts(ts, q, left, vars) == OrShorts(ts, q + 1, vars);
      }
    }
  }

  lemma OrShortsFrom(ts: seq<Token>, p: nat, vars: Vars)
    requires AllSpell(ts, AndShorts(ts, p, vars))
    requires var l := ParseAnd(ts, p, vars); l.out.Val? ==> AllSpell(ts, OrLoopShorts(ts, l.pos, l.out.v, vars))
    ensures AllSpell(ts, OrShorts(ts, p, vars))
  {
    hide AllSpell, AndShorts, ParseAnd, OrLoopShorts;
    var l := ParseAnd(ts, p, vars);
    if l.out.Val? {
      AllSpellConcat(ts, AndShorts(ts, p, vars), OrLoopShorts(ts, l.pos, l.out.v, vars));
    } else {
      assert AndShorts(ts, p, vars) + [] == AndShorts(ts, p, vars);
    }
  }

  /** Where a tree is spelt, every run that evaluating it skips spells a chain. */
  lemma {:induction false} OrShortsSpell(e: OrExpr, ts: seq<Token>, p: nat, vars: Vars)
    requires SpellsOr(e, ts, p) && WellFormed(e)
    requires EndOr(e, p) < |ts| && EndsOr(ts[EndOr(e, p)].kind)
    ensures AllSpell(ts, OrShorts(ts, p, vars))
    decreases e, 4
  {
    hide AllSpell, OrShorts, OrLoopShorts, ParseAnd, AndShorts, MeaningAnd, SpellsAnd, EndAnd;
    AndShortsSpell(e.a, ts, p, vars);
    AndAdequate(e.a, ts, p, vars);
    var l := ParseAnd(ts, p, vars);
    if l.out.Val? {
      var q := EndAnd(e.a, p);
      if e.OrMore? {
        OrShortsSpell(e.rest, ts, q + 1, vars);
        SkipsOrs(e.rest, ts, q);
        assert SpellsOrRun(ts, q + 1, SkipOrs(ts, q).pos);
      }
      OrLoopSpells(ts, q, l.out.v, vars);
    }
    OrShortsFrom(ts, p, vars);
  }

  // ---- a spelt tree has those tokens -------------------------------------

  lemma {:induction false} FieldsAreTokens(fs: seq<string>, ts: seq<Token>, p: nat)
    requires SpellsFields(fs, ts, p) && p <= |ts|
    ensures p + 2 * |fs| <= |ts| && ts[p..p + 2 * |fs|] == FieldTokens(fs)
  {
    if fs != [] {
      FieldsAreTokens(fs[1..], ts, p + 2);
      assert ts[p..p + 2 * |fs|] == [ts[p], ts[p + 1]] + ts[p + 2..p + 2 * |fs|];
    }
  }

  lemma Heads(ts: seq<Token>, p: nat, q: nat)
    requires p < q <= |ts|
    ensures ts[p..q] == [ts[p]] + ts[p + 1..q] && ts[q..q] == []
  {
  }

  lemma Brackets(ts: seq<Token>, p: nat, q: nat)
    requires p < q < |ts|
    ensures ts[p..q + 1] == [ts[p]] + ts[p + 1..q] + [ts[q]]
  {
  }

  lemma Joins(ts: seq<Token>, p: nat, q: nat, r: nat)
    requires p <= q < r <= |ts|
    ensures ts[p..r] == ts[p..q] + [ts[q]] + ts[q + 1..r]
  {
  }

  lemma {:induction false} PrimaryIsTokens(e: Primary, ts: seq<Token>, p: nat)
    requires SpellsPrimary(e, ts, p)
    ensures EndPrimary(e, p) <= |ts| && ts[p..EndPrimary(e, p)] == PrimaryTokens(e)
    decreases e, 0
  {
    hide SpellsOr, SpellsFields;
    match e {
      case Paren(inner) =>
        OrIsTokens(inner, ts, p + 1);
        var q := EndOr(inner, p + 1);
        Brackets(ts, p, q);
      case Path(root, fields) =>
        FieldsAreTokens(fields, ts, p + 1);
        Heads(ts, p, EndPrimary(e, p));
      case _ =>
        Heads(ts, p, p + 1);
    }
  }

  lemma {:induction false} CmpIsTokens(e: CmpExpr, ts: seq<Token>, p: nat)
    requires SpellsCmp(e, ts, p)
    ensures EndCmp(e, p) <= |ts| && ts[p..EndCmp(e, p)] == CmpTokens(e)
    decreases e, 1
  {
    match e {
      case Single(q) =>
        PrimaryIsTokens(q, ts, p);
      case Binary(l, op, r) =>
        PrimaryIsTokens(l, ts, p);
        PrimaryIsTokens(r, ts, EndPrimary(l, p) + 1);
        Joins(ts, p, EndPrimary(l, p), EndCmp(e, p));
    }
  }

  lemma {:induction false} UnaryIsTokens(e: UnaryExpr, ts: seq<Token>, p: nat)
    requires SpellsUnary(e, ts, p)
    ensures EndUnary(e, p) <= |ts| && ts[p..EndUnary(e, p)] == UnaryTokens(e)
    decreases e, 2
  {
    match e {
      case Negate(u) =>
        UnaryIsTokens(u, ts, p + 1);
        Heads(ts, p, EndUnary(e, p));
      case Plain(c) =>
        CmpIsTokens(c, ts, p);
    }
  }

  lemma {:induction false} AndIsTokens(e: AndExpr, ts: seq<Token>, p: nat)
    requires SpellsAnd(e, ts, p)
    ensures EndAnd(e, p) <= |ts| && ts[p..EndAnd(e, p)] == AndTokens(e)
    decreases e, 3
  {
    UnaryIsTokens(e.u, ts, p);
    if e.AndMore? {
      var q := EndUnary(e.u, p);
      AndIsTokens(e.rest, ts, q + 1);
      Joins(ts, p, q, EndAnd(e, p));
    }
  }

  lemma {:induction false} OrIsTokens(e: OrExpr, ts: seq<Token>, p: nat)
    requires SpellsOr(e, ts, p)
    ensures EndOr(e, p) <= |ts| && ts[p..EndOr(e, p)] == OrTokens(e)
    decreases e, 4
  {
    AndIsTokens(e.a, ts, p);
    if e.OrMore? {
      var q := EndAnd(e.a, p);
      OrIsTokens(e.rest, ts, q + 1);
      Joins(ts, p, q, EndOr(e, p));
    }
  }

  // ---- the accepted inputs -----------------------------------------------

  /** The tokens are those of a tree, followed by EOF. */
  ghost predicate IsTree(ts: seq<Token>, e: OrExpr)
  {
    WellFormed(e) && ts == OrTokens(e) + [END]
  }

  /** The tokens of some tree whose meaning is a value. */
  ghost predicate SpellsValue(ts: seq<Token>, vars: Vars)
  {
    exists e :: IsTree(ts, e) && Meaning(e, vars).Val?
  }

  predicate NoOperators(ts: seq<Token>)
  {
    forall i :: 0 <= i < |ts| ==> ts[i].kind != And && ts[i].kind != Or
  }

  lemma TreeShortsSpell(ts: seq<Token>, e: OrExpr, vars: Vars)
    requires IsTree(ts, e)
    ensures AllSpell(ts, OrShorts(ts, 0, vars)) && EvalTokens(ts, vars) == Meaning(e, vars)
  {
    assert ts[0..|OrTokens(e)|] == OrTokens(e);
    OrSpelt(e, ts, 0);
    OrShortsSpell(e, ts, 0, vars);
    EvalTokensAdequate(e, vars);
  }

  lemma AcceptedFromTree(ts: seq<Token>, vars: Vars) returns (e: OrExpr)
    requires EofTerminated(ts) && AllCanonical(ts)
    requires EvalTokens(ts, vars).Val? && AllSpell(ts, OrShorts(ts, 0, vars))
    ensures IsTree(ts, e)
  {
    e := OrFromTree(ts, 0, vars);
    var n := EndOr(e, 0);
    assert ts[n].kind == EOF && n == |ts| - 1 && Canonical(ts[n]);
    OrIsTokens(e, ts, 0);
    assert ts == ts[0..n] + [ts[n]];
  }

  /** An accepted input is grammatical exactly when every run of tokens that a
      taken short circuit skipped spells a chain of operands. */
  lemma GrammaticalExactly(ts: seq<Token>, vars: Vars)
    requires EofTerminated(ts) && AllCanonical(ts) && EvalTokens(ts, vars).Val?
    ensures (exists e :: IsTree(ts, e)) <==> AllSpell(ts, OrShorts(ts, 0, vars))
  {
    if AllSpell(ts, OrShorts(ts, 0, vars)) {
      var e := AcceptedFromTree(ts, vars);
    }
    if e :| IsTree(ts, e) {
      TreeShortsSpell(ts, e, vars);
    }
  }

  /** A short circuit is taken at an operator. */
  lemma {:induction false} ShortsStandAtOperators(ts: seq<Token>, p: nat, vars: Vars)
    ensures forall s :: s in OrShorts(ts, p, vars) ==> s.p < |ts| && ts[s.p].kind == s.op && s.op in {And, Or}
    decreases Left(ts, p), 6
  {
    AndShortsStand(ts, p, vars);
    var l := ParseAnd(ts, p, vars);
    if l.out.Val? {
      OrLoopShortsStand(ts, l.pos, l.out.v, vars);
    }
  }

  lemma {:induction false} OrLoopShortsStand(ts: seq<Token>, p: nat, left: Value, vars: Vars)
    ensures forall s :: s in OrLoopShorts(ts, p, left, vars) ==>
              s.p < |ts| && ts[s.p].kind == s.op && s.op in {And, Or}
    decreases Left(ts, p), 5
  {
    if p < |ts| && ts[p].kind == Or && !Truthy(left) {
      AndShortsStand(ts, p + 1, vars);
      var r := ParseAnd(ts, p + 1, vars);
      if r.out.Val? {
        OrLoopShortsStand(ts, r.pos, r.out.v, vars);
      }
    }
  }

  lemma {:induction false} AndShortsStand(ts: seq<Token>, p: nat, vars: Vars)
    ensures forall s :: s in AndShorts(ts, p, vars) ==> s.p < |ts| && ts[s.p].kind == s.op && s.op in {And, Or}
    decreases Left(ts, p), 4
  {
    UnaryShortsStand(ts, p, vars);
    var l := ParseUnary(ts, p, vars);
    if l.out.Val? {
      AndLoopShortsStand(ts, l.pos, l.out.v, vars);
    }
  }

  lemma {:induction false} AndLoopShortsStand(ts: seq<Token>, p: nat, left: Value, vars: Vars)
    ensures forall s :: s in AndLoopShorts(ts, p, left, vars) ==>
              s.p < |ts| && ts[s.p].kind == s.op && s.op in {And, Or}
    decreases Left(ts, p), 3
  {
    if p < |ts| && ts[p].kind == And && Truthy(left) {
      UnaryShortsStand(ts, p + 1, vars);
      var r := ParseUnary(ts, p + 1, vars);
      if r.out.Val? {
        AndLoopShortsStand(ts, r.pos, r.out.v, vars);
      }
    }
  }

  lemma {:induction false} UnaryShortsStand(ts: seq<Token>, p: nat, vars: Vars)
    ensures forall s :: s in UnaryShorts(ts, p, vars) ==> s.p < |ts| && ts[s.p].kind == s.op && s.op in {And, Or}
    decreases Left(ts, p), 2
  {
    if p < |ts| {
      if ts[p].kind == Not {
        UnaryShortsStand(ts, p + 1, vars);
      } else {
        PrimaryShortsStand(ts, p, vars);
        PrimaryShortsStand(ts, ParsePrimary(ts, p, vars).pos + 1, vars);
      }
    }
  }

  lemma {:induction false} PrimaryShortsStand(ts: seq<Token>, p: nat, vars: Vars)
    ensures forall s :: s in PrimaryShorts(ts, p, vars) ==> s.p < |ts| && ts[s.p].kind == s.op && s.op in {And, Or}
    decreases Left(ts, p), 0
  {
    if p < |ts| && ts[p].kind == LParen {
      ShortsStandAtOperators(ts, p + 1, vars);
    }
  }

  /** Without `&&` and `||`, acceptance is grammar: an input evaluates to a
      value exactly when it is the tokens of a tree whose meaning is a value. */
  lemma AcceptedExactlyWithoutOperators(ts: seq<Token>, vars: Vars)
    requires EofTerminated(ts) && AllCanonical(ts) && NoOperators(ts)
    ensures EvalTokens(ts, vars).Val? <==> SpellsValue(ts, vars)
  {
    ShortsStandAtOperators(ts, 0, vars);
    if EvalTokens(ts, vars).Val? {
      var e := AcceptedFromTree(ts, vars);
      TreeShortsSpell(ts, e, vars);
    }
    if e :| IsTree(ts, e) && Meaning(e, vars).Val? {
      TreeShortsSpell(ts, e, vars);
    }
  }

  /** With them: an input is the tokens of a tree whose meaning is a value
      exactly when it evaluates to a value and every skipped run spells a chain. */
  lemma AcceptedExactly(ts: seq<Token>, vars: Vars)
    requires EofTerminated(ts) && AllCanonical(ts)
    ensures SpellsValue(ts, vars) <==> EvalTokens(ts, vars).Val? && AllSpell(ts, OrShorts(ts, 0, vars))
  {
    if EvalTokens(ts, vars).Val? && AllSpell(ts, OrShorts(ts, 0, vars)) {
      var e := AcceptedFromTree(ts, vars);
      TreeShortsSpell(ts, e, vars);
    }
    if e :| IsTree(ts, e) && Meaning(e, vars).Val? {
      TreeShortsSpell(ts, e, vars);
    }
  }

  /** Whatever stands after a truthy operand and `||`, the evaluation faults
      exactly when some operand of the skipped chain does not close. */
  lemma SkippedTailPanicsExactly(a: AndExpr, ts: seq<Token>, vars: Vars)
    requires EofTerminated(ts) && WellFormedAnd(a) && SpellsAnd(a, ts, 0)
    requires EndAnd(a, 0) < |ts| && ts[EndAnd(a, 0)].kind == Or
    requires MeaningAnd(a, vars).Val? && Truthy(MeaningAnd(a, vars).v)
    ensures EvalTokens(ts, vars).Panic? <==> !OrChainCloses(ts, EndAnd(a, 0))
  {
    var q, v := EndAnd(a, 0), MeaningAnd(a, vars).v;
    AndAdequate(a, ts, 0, vars);
    assert ParseAnd(ts, 0, vars) == Res(Val(v), q);
    assert ParseOr(ts, 0, vars) == OrLoop(ts, q, v, vars);
    SkipOrsExact(ts, q);
  }
}
