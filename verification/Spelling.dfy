/** Where the tokens of a syntax tree stand in a longer token sequence, stated
    by position so that proofs about cursors need no slices. */
module Spelling {
  import opened Tokens
  import opened Grammar

  // ---- the position just after a tree that starts at p -------------------

  function EndOr(e: OrExpr, p: nat): (q: nat)
    ensures q > p
  {
    if e.OrOne? then EndAnd(e.a, p) else EndOr(e.rest, EndAnd(e.a, p) + 1)
  }

  function EndAnd(e: AndExpr, p: nat): (q: nat)
    ensures q > p
  {
    if e.AndOne? then EndUnary(e.u, p) else EndAnd(e.rest, EndUnary(e.u, p) + 1)
  }

  function EndUnary(e: UnaryExpr, p: nat): (q: nat)
    ensures q > p
  {
    if e.Negate? then EndUnary(e.u, p + 1) else EndCmp(e.c, p)
  }

  function EndCmp(e: CmpExpr, p: nat): (q: nat)
    ensures q > p
  {
    if e.Single? then EndPrimary(e.p, p) else EndPrimary(e.right, EndPrimary(e.left, p) + 1)
  }

  function EndPrimary(e: Primary, p: nat): (q: nat)
    ensures q > p
  {
    match e
    case Paren(inner) => EndOr(inner, p + 1) + 1
    case Path(_, fields) => p + 1 + 2 * |fields|
    case _ => p + 1
  }

  // ---- the tokens from p on spell the tree ------------------------------

  predicate SpellsFields(fs: seq<string>, ts: seq<Token>, p: nat)
  {
    fs != [] ==>
      && p + 1 < |ts| && ts[p] == DOT && ts[p + 1] == Sym(Ident, fs[0])
      && SpellsFields(fs[1..], ts, p + 2)
  }

  predicate SpellsOr(e: OrExpr, ts: seq<Token>, p: nat)
  {
    && SpellsAnd(e.a, ts, p)
    && (e.OrMore? ==>
          && EndAnd(e.a, p) < |ts| && ts[EndAnd(e.a, p)] == OR
          && SpellsOr(e.rest, ts, EndAnd(e.a, p) + 1))
  }

  predicate SpellsAnd(e: AndExpr, ts: seq<Token>, p: nat)
  {
    && SpellsUnary(e.u, ts, p)
    && (e.AndMore? ==>
          && EndUnary(e.u, p) < |ts| && ts[EndUnary(e.u, p)] == AND
          && SpellsAnd(e.rest, ts, EndUnary(e.u, p) + 1))
  }

  predicate SpellsUnary(e: UnaryExpr, ts: seq<Token>, p: nat)
  {
    match e
    case Negate(u) => p < |ts| && ts[p] == NOT && SpellsUnary(u, ts, p + 1)
    case Plain(c) => SpellsCmp(c, ts, p)
  }

  predicate SpellsCmp(e: CmpExpr, ts: seq<Token>, p: nat)
  {
    match e
    case Single(q) => SpellsPrimary(q, ts, p)
    case Binary(l, op, r) =>
      && SpellsPrimary(l, ts, p)
      && EndPrimary(l, p) < |ts| && ts[EndPrimary(l, p)] == op
      && SpellsPrimary(r, ts, EndPrimary(l, p) + 1)
  }

  predicate SpellsPrimary(e: Primary, ts: seq<Token>, p: nat)
  {
    && p < |ts|
    && match e
       case Paren(inner) =>
         && ts[p] == LPAREN
         && SpellsOr(inner, ts, p + 1)
         && EndOr(inner, p + 1) < |ts| && ts[EndOr(inner, p + 1)] == RPAREN
       case Path(root, fields) => ts[p] == Sym(Ident, root) && SpellsFields(fields, ts, p + 1)
       case _ => ts[p] == PrimaryTokens(e)[0]
  }

  // ---- a sequence containing a tree's tokens spells the tree -------------

  predicate Holds(ts: seq<Token>, p: nat, xs: seq<Token>)
  {
    p + |xs| <= |ts| && ts[p..p + |xs|] == xs
  }

  lemma HoldsSplit(ts: seq<Token>, p: nat, a: seq<Token>, b: seq<Token>)
    requires Holds(ts, p, a + b)
    ensures Holds(ts, p, a) && Holds(ts, p + |a|, b)
  {
    assert ts[p..p + |a|] == (a + b)[..|a|] == a;
    assert ts[p + |a|..p + |a| + |b|] == (a + b)[|a|..] == b;
  }

  lemma HoldsOne(ts: seq<Token>, p: nat, t: Token, b: seq<Token>)
    requires Holds(ts, p, [t] + b)
    ensures p < |ts| && ts[p] == t && Holds(ts, p + 1, b)
  {
    HoldsSplit(ts, p, [t], b);
    assert ts[p..p + 1][0] == t;
  }

  lemma HoldsSplit3(ts: seq<Token>, p: nat, a: seq<Token>, t: Token, b: seq<Token>)
    requires Holds(ts, p, a + [t] + b)
    ensures Holds(ts, p, a) && Holds(ts, p + |a| + 1, b)
    ensures p + |a| < |ts| && ts[p + |a|] == t
    ensures |a + [t] + b| == |a| + 1 + |b|
  {
    assert a + [t] + b == a + ([t] + b);
    HoldsSplit(ts, p, a, [t] + b);
    HoldsOne(ts, p + |a|, t, b);
  }

  lemma ParenSpelt(inner: OrExpr, ts: seq<Token>, p: nat)
    requires Holds(ts, p, PrimaryTokens(Paren(inner)))
    ensures p < |ts| && ts[p] == LPAREN && Holds(ts, p + 1, OrTokens(inner))
    ensures p + 1 + |OrTokens(inner)| < |ts| && ts[p + 1 + |OrTokens(inner)|] == RPAREN
    ensures |PrimaryTokens(Paren(inner))| == |OrTokens(inner)| + 2
  {
    var xs := OrTokens(inner);
    HoldsSplit3(ts, p, [LPAREN] + xs, RPAREN, []);
    HoldsOne(ts, p, LPAREN, xs);
  }

  lemma {:induction false} FieldsSpelt(fs: seq<string>, ts: seq<Token>, p: nat)
    requires Holds(ts, p, FieldTokens(fs))
    ensures SpellsFields(fs, ts, p) && |FieldTokens(fs)| == 2 * |fs|
  {
    if fs != [] {
      var rest := FieldTokens(fs[1..]);
      assert [DOT, Sym(Ident, fs[0])] + rest == [DOT] + ([Sym(Ident, fs[0])] + rest);
      HoldsOne(ts, p, DOT, [Sym(Ident, fs[0])] + rest);
      HoldsOne(ts, p + 1, Sym(Ident, fs[0]), rest);
      FieldsSpelt(fs[1..], ts, p + 2);
    }
  }

  lemma {:induction false} OrSpelt(e: OrExpr, ts: seq<Token>, p: nat)
    requires Holds(ts, p, OrTokens(e))
    ensures SpellsOr(e, ts, p) && EndOr(e, p) == p + |OrTokens(e)|
    decreases e, 4
  {
    match e {
      case OrOne(a) =>
        AndSpelt(a, ts, p);
      case OrMore(a, rest) =>
        HoldsSplit3(ts, p, AndTokens(a), OR, OrTokens(rest));
        AndSpelt(a, ts, p);
        OrSpelt(rest, ts, p + |AndTokens(a)| + 1);
    }
  }

  lemma {:induction false} AndSpelt(e: AndExpr, ts: seq<Token>, p: nat)
    requires Holds(ts, p, AndTokens(e))
    ensures SpellsAnd(e, ts, p) && EndAnd(e, p) == p + |AndTokens(e)|
    decreases e, 3
  {
    match e {
      case AndOne(u) =>
        UnarySpelt(u, ts, p);
      case AndMore(u, rest) =>
        HoldsSplit3(ts, p, UnaryTokens(u), AND, AndTokens(rest));
        UnarySpelt(u, ts, p);
        AndSpelt(rest, ts, p + |UnaryTokens(u)| + 1);
    }
  }

  lemma {:induction false} UnarySpelt(e: UnaryExpr, ts: seq<Token>, p: nat)
    requires Holds(ts, p, UnaryTokens(e))
    ensures SpellsUnary(e, ts, p) && EndUnary(e, p) == p + |UnaryTokens(e)|
    decreases e, 2
  {
    match e {
      case Negate(u) =>
        HoldsOne(ts, p, NOT, UnaryTokens(u));
        UnarySpelt(u, ts, p + 1);
      case Plain(c) =>
        CmpSpelt(c, ts, p);
    }
  }

  lemma {:induction false} CmpSpelt(e: CmpExpr, ts: seq<Token>, p: nat)
    requires Holds(ts, p, CmpTokens(e))
    ensures SpellsCmp(e, ts, p) && EndCmp(e, p) == p + |CmpTokens(e)|
    decreases e, 1
  {
    hide Holds, SpellsPrimary, EndPrimary;
    match e {
      case Single(q) =>
        PrimarySpelt(q, ts, p);
      case Binary(l, op, r) =>
        HoldsSplit3(ts, p, PrimaryTokens(l), op, PrimaryTokens(r));
        PrimarySpelt(l, ts, p);
        PrimarySpelt(r, ts, p + |PrimaryTokens(l)| + 1);
    }
  }

  lemma {:induction false} PrimarySpelt(e: Primary, ts: seq<Token>, p: nat)
    requires Holds(ts, p, PrimaryTokens(e))
    ensures SpellsPrimary(e, ts, p) && EndPrimary(e, p) == p + |PrimaryTokens(e)|
    decreases e, 0
  {
    match e {
      case Paren(inner) =>
        ParenSpelt(inner, ts, p);
        OrSpelt(inner, ts, p + 1);
      case Path(root, fields) =>
        HoldsOne(ts, p, Sym(Ident, root), FieldTokens(fields));
        FieldsSpelt(fields, ts, p + 1);
      case _ =>
        HoldsOne(ts, p, PrimaryTokens(e)[0], []);
    }
  }
}
