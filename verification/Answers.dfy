/** What conditions answer, from source text to value, with nothing left to the
    definitions the evaluator is made of: each statement spells out the answer. */
module Answers {
  import opened Values
  import opened Tokens
  import opened Lexer
  import opened SourceText
  import opened Expressions
  import G = Grammar

  // ---- texts put together ------------------------------------------------

  /** The source is these tokens written down, from its first character on. */
  ghost predicate Spelt(src: string, ts: seq<Token>, read: NumberReader)
  {
    exists ps: seq<Piece> :: WrittenAs(src, "", ps, ts, read)
  }

  lemma NothingSpelt(read: NumberReader)
    ensures Spelt("", [], read)
  {
    var none: seq<Piece> := [];
    assert WrittenAs("", "", none, [], read);
  }

  lemma RenderFront(p: Piece, rest: seq<Piece>)
    ensures Render([p] + rest) == p.spelling + (p.gap + Render(rest))
    ensures TokensOf([p] + rest) == [p.tok] + TokensOf(rest)
  {
    assert ([p] + rest)[1..] == rest;
  }

  lemma FirstCharacter(ps: seq<Piece>, read: NumberReader)
    requires ps != [] && Separated(ps, read)
    ensures ps[0].spelling != "" && Render(ps) != "" && Render(ps)[0] == ps[0].spelling[0]
  {
    SpeltIsNotEmpty(ps[0].tok, ps[0].spelling, read);
    hide Spells;
  }

  lemma SeparatedFront(p: Piece, rest: seq<Piece>, read: NumberReader)
    requires Spells(p.tok, p.spelling, read) && AllSpace(p.gap) && Separated(rest, read)
    requires p.gap == "" && Render(rest) != "" ==> !Extends(p.tok.kind, Render(rest)[0])
    ensures Separated([p] + rest, read)
  {
    assert ([p] + rest)[1..] == rest;
    if rest != [] {
      FirstCharacter(rest, read);
    }
    hide Spells, Extends, Render;
  }

  /** A token may be put in front of a text, with white space in between unless
      the text begins with a character that does not extend the token. */
  lemma PutFront(t: Token, s: string, gap: string, src: string, ts: seq<Token>, read: NumberReader)
    requires Spells(t, s, read) && AllSpace(gap) && Spelt(src, ts, read)
    requires gap == "" && src != "" ==> !Extends(t.kind, src[0])
    ensures Spelt(s + gap + src, [t] + ts, read)
  {
    hide Spells, Extends, Separated, Render, TokensOf;
    var rest: seq<Piece> :| WrittenAs(src, "", rest, ts, read);
    assert "" + Render(rest) == Render(rest) == src;
    var p := Piece(t, s, gap);
    SeparatedFront(p, rest, read);
    RenderFront(p, rest);
    assert s + gap + src == "" + (s + (gap + src));
    assert WrittenAs(s + gap + src, "", [p] + rest, [t] + ts, read);
  }

  lemma SpeltIsWritten(src: string, ts: seq<Token>, read: NumberReader)
    requires Spelt(src, ts, read)
    ensures Written(src, ts, read)
  {
  }

  /** A name a variable or field can have in a condition. */
  predicate IsName(s: string)
  {
    IsWord(s) && s != "true" && s != "false" && s != "null"
  }

  function NameToken(x: string): Token { Sym(Ident, x) }

  lemma NameSpells(x: string, read: NumberReader)
    requires IsName(x)
    ensures Spells(NameToken(x), x, read)
  {
  }

  /** A name may follow anything but a word or a number directly. */
  lemma NameFollows(x: string, rest: string, k: Kind)
    requires IsName(x) && k !in {Ident, Boolean, Null, Number}
    ensures x + rest != "" && !Extends(k, (x + rest)[0])
  {
  }

  lemma SymbolSpells(k: Kind, s: string, read: NumberReader)
    requires s == SymbolText(k) && s != ""
    ensures Spells(Sym(k, s), s, read)
  {
  }

  lemma BlankIsSpace()
    ensures AllSpace(" ") && AllSpace("")
  {
  }

  lemma LastName(x: string, read: NumberReader)
    requires IsName(x)
    ensures Spelt(x, [NameToken(x)], read)
  {
    NothingSpelt(read);
    NameSpells(x, read);
    BlankIsSpace();
    hide Spells, Spelt;
    PutFront(NameToken(x), x, "", "", [], read);
    assert x + "" + "" == x && [NameToken(x)] + [] == [NameToken(x)];
  }

  /** A symbol, then a text that begins with a name. */
  lemma SymbolThenName(k: Kind, s: string, gap: string, x: string, more: string, ts: seq<Token>, read: NumberReader)
    requires s == SymbolText(k) && s != "" && gap in {"", " "} && IsName(x) && Spelt(x + more, ts, read)
    ensures Spelt(s + gap + (x + more), [Sym(k, s)] + ts, read)
  {
    SymbolSpells(k, s, read);
    BlankIsSpace();
    NameFollows(x, more, k);
    hide Spells, Spelt, AllSpace;
    PutFront(Sym(k, s), s, gap, x + more, ts, read);
  }

  /** A name and a blank, then any text. */
  lemma NameThen(x: string, src: string, ts: seq<Token>, read: NumberReader)
    requires IsName(x) && Spelt(src, ts, read)
    ensures Spelt(x + " " + src, [NameToken(x)] + ts, read)
  {
    NameSpells(x, read);
    BlankIsSpace();
    hide Spells, Spelt, AllSpace;
    PutFront(NameToken(x), x, " ", src, ts, read);
  }

  lemma Shift(a: string, b: string, c: string)
    ensures a + b + c == a + (b + c)
  {
  }

  /** A symbol between blanks is one piece of text. */
  lemma Between(x: string, sym: string, mid: string)
    requires mid == " " + sym + " "
    ensures x + " " + sym + " " == x + mid
  {
    Shift(x, " ", sym);
    Shift(x, " " + sym, " ");
  }

  /** Two names with a symbol between them. */
  lemma TwoNames(x: string, k: Kind, sym: string, y: string, read: NumberReader)
    requires IsName(x) && IsName(y) && sym == SymbolText(k) && sym != ""
    ensures Spelt(x + " " + sym + " " + y, [NameToken(x), Sym(k, sym), NameToken(y)], read)
  {
    hide Spelt, IsName;
    LastName(y, read);
    assert y + "" == y;
    SymbolThenName(k, sym, " ", y, "", [NameToken(y)], read);
    NameThen(x, sym + " " + y, [Sym(k, sym)] + [NameToken(y)], read);
    assert x + " " + (sym + " " + y) == x + " " + sym + " " + y;
    assert [NameToken(x)] + ([Sym(k, sym)] + [NameToken(y)]) == [NameToken(x), Sym(k, sym), NameToken(y)];
  }

  // ---- trees of names ----------------------------------------------------

  function NamePath(x: string): G.Primary { G.Path(x, []) }

  function NameUnary(x: string): G.UnaryExpr { G.Plain(G.Single(NamePath(x))) }

  function NameAnd(x: string): G.AndExpr { G.AndOne(NameUnary(x)) }

  function Compared(x: string, k: Kind, sym: string, y: string): G.UnaryExpr
  {
    G.Plain(G.Binary(NamePath(x), Sym(k, sym), NamePath(y)))
  }

  lemma NameTokens(x: string)
    ensures G.PrimaryTokens(NamePath(x)) == [NameToken(x)] && G.UnaryTokens(NameUnary(x)) == [NameToken(x)]
    ensures G.AndTokens(NameAnd(x)) == [NameToken(x)]
  {
    assert G.FieldTokens([]) == [];
    assert [NameToken(x)] + [] == [NameToken(x)];
  }

  lemma SpeltEvaluates(src: string, e: G.OrExpr, vars: Vars, read: NumberReader)
    requires G.WellFormed(e) && Spelt(src, G.OrTokens(e), read)
    ensures Eval(src, vars, read) == G.Meaning(e, vars)
  {
    hide Eval, Spelt, Written;
    SpeltIsWritten(src, G.OrTokens(e), read);
    EvalIsMeaning(src, e, vars, read);
  }

  lemma ComparedTokens(x: string, k: Kind, sym: string, y: string)
    ensures G.UnaryTokens(Compared(x, k, sym, y)) == [NameToken(x), Sym(k, sym), NameToken(y)]
  {
    NameTokens(x);
    NameTokens(y);
    hide G.PrimaryTokens;
  }

  function Alone(u: G.UnaryExpr): G.OrExpr { G.OrOne(G.AndOne(u)) }

  lemma AloneIs(u: G.UnaryExpr, vars: Vars)
    ensures G.OrTokens(Alone(u)) == G.UnaryTokens(u) && (G.WellFormed(Alone(u)) <==> G.WellFormedUnary(u))
    ensures G.WellFormedUnary(u) ==> G.Meaning(Alone(u), vars) == G.MeaningUnary(u, vars)
  {
    hide G.UnaryTokens, G.WellFormedUnary, G.MeaningUnary;
  }

  lemma NamePrimary(x: string, vars: Vars)
    ensures G.WellFormedPrimary(NamePath(x))
    ensures G.MeaningPrimary(NamePath(x), vars) == if x in vars then Val(vars[x]) else Err(UnknownVariable(x))
  {
    if x in vars {
      assert G.Select(vars[x], []) == vars[x];
    }
  }

  lemma SingleIs(p: G.Primary, vars: Vars)
    requires G.WellFormedPrimary(p)
    ensures var u := G.Plain(G.Single(p));
            && G.UnaryTokens(u) == G.PrimaryTokens(p) && G.WellFormedUnary(u)
            && G.MeaningUnary(u, vars) == G.MeaningPrimary(p, vars)
  {
    var c := G.Single(p);
    assert G.CmpTokens(c) == G.PrimaryTokens(p) && G.WellFormedCmp(c);
    assert G.MeaningCmp(c, vars) == G.MeaningPrimary(p, vars);
    hide G.PrimaryTokens, G.MeaningPrimary, G.WellFormedPrimary, G.CmpTokens, G.MeaningCmp, G.WellFormedCmp;
  }

  function Operand(p: G.Primary): G.OrExpr { Alone(G.Plain(G.Single(p))) }

  lemma OperandIs(p: G.Primary, vars: Vars)
    requires G.WellFormedPrimary(p)
    ensures G.OrTokens(Operand(p)) == G.PrimaryTokens(p) && G.WellFormed(Operand(p))
    ensures G.Meaning(Operand(p), vars) == G.MeaningPrimary(p, vars)
  {
    SingleIs(p, vars);
    hide G.PrimaryTokens, G.MeaningPrimary, G.WellFormedPrimary;
    AloneIs(G.Plain(G.Single(p)), vars);
  }

  lemma EitherName(x: string, vars: Vars)
    ensures G.WellFormedUnary(NameUnary(x)) && G.WellFormedAnd(NameAnd(x))
    ensures G.MeaningUnary(NameUnary(x), vars) == if x in vars then Val(vars[x]) else Err(UnknownVariable(x))
    ensures G.MeaningAnd(NameAnd(x), vars) == G.MeaningUnary(NameUnary(x), vars)
  {
    NamePrimary(x, vars);
    SingleIs(NamePath(x), vars);
    hide NamePath, G.MeaningPrimary, G.WellFormedPrimary;
  }

  lemma ComparedMeans(x: string, k: Kind, sym: string, y: string, vars: Vars)
    requires x in vars && y in vars && IsComparison(k)
    ensures G.WellFormedUnary(Compared(x, k, sym, y))
    ensures G.MeaningUnary(Compared(x, k, sym, y), vars) == CompareValues(k, vars[x], vars[y])
  {
    hide CompareValues;
    NamePrimary(x, vars);
    NamePrimary(y, vars);
    var c := G.Binary(NamePath(x), Sym(k, sym), NamePath(y));
    assert G.WellFormedCmp(c) && G.MeaningCmp(c, vars) == CompareValues(k, vars[x], vars[y]);
  }

  lemma ComparisonIsCompared(x: string, k: Kind, sym: string, y: string, vars: Vars, read: NumberReader)
    requires IsName(x) && IsName(y) && x in vars && y in vars
    requires IsComparison(k) && sym == SymbolText(k)
    ensures Eval(x + " " + sym + " " + y, vars, read) == CompareValues(k, vars[x], vars[y])
  {
    TwoNames(x, k, sym, y, read);
    ComparedTokens(x, k, sym, y);
    ComparedMeans(x, k, sym, y, vars);
    AloneIs(Compared(x, k, sym, y), vars);
    hide *;
    SpeltEvaluates(x + " " + sym + " " + y, Alone(Compared(x, k, sym, y)), vars, read);
  }

  // ---- comparing ---------------------------------------------------------

  /** A symbol names the comparison it stands for. */
  function KindOf(sym: string): (k: Kind)
    requires sym in {"==", "!=", ">", "<", ">=", "<="}
    ensures IsComparison(k) && SymbolText(k) == sym
  {
    if sym == "==" then EqEq
    else if sym == "!=" then NotEq
    else if sym == ">" then Greater
    else if sym == "<" then Less
    else if sym == ">=" then GreaterEq
    else LessEq
  }

  lemma NumbersByKind(k: Kind, u: Value, v: Value, a: real, b: real)
    requires IsComparison(k)
    requires u == Num(a) || (u.Int? && u.i as real == a)
             || (u == Bool(true) && a == 1.0) || (u == Bool(false) && a == 0.0)
    requires v == Num(b) || (v.Int? && v.i as real == b)
             || (v == Bool(true) && b == 1.0) || (v == Bool(false) && b == 0.0)
    ensures CompareValues(k, u, v) ==
            Val(Bool(
              match k
              case EqEq => a == b
              case NotEq => a != b
              case Greater => a > b
              case Less => a < b
              case GreaterEq => a >= b
              case _ => a <= b))
  {
  }

  /** Two values that stand for numbers are compared as those numbers: a JSON
      number as itself, a length as its integer, true as one, false as zero. */
  lemma NumbersCompared(x: string, sym: string, y: string, a: real, b: real, vars: Vars, read: NumberReader)
    requires IsName(x) && IsName(y) && x in vars && y in vars && sym in {"==", "!=", ">", "<", ">=", "<="}
    requires vars[x] == Num(a) || (vars[x].Int? && vars[x].i as real == a)
             || (vars[x] == Bool(true) && a == 1.0) || (vars[x] == Bool(false) && a == 0.0)
    requires vars[y] == Num(b) || (vars[y].Int? && vars[y].i as real == b)
             || (vars[y] == Bool(true) && b == 1.0) || (vars[y] == Bool(false) && b == 0.0)
    ensures Eval(x + " " + sym + " " + y, vars, read) ==
            Val(Bool(
              if sym == "==" then a == b
              else if sym == "!=" then a != b
              else if sym == ">" then a > b
              else if sym == "<" then a < b
              else if sym == ">=" then a >= b
              else a <= b))
  {
    ComparisonIsCompared(x, KindOf(sym), sym, y, vars, read);
    NumbersByKind(KindOf(sym), vars[x], vars[y], a, b);
    hide Eval, IsName, SymbolText, CompareValues;
  }

  /** Strings are compared by the first character in which they differ, a proper
      prefix being below. */
  lemma StringsCompared(x: string, sym: string, y: string, a: string, b: string, vars: Vars, read: NumberReader)
    requires IsName(x) && IsName(y) && x in vars && y in vars && sym in {"==", "!=", ">", "<", ">=", "<="}
    requires vars[x] == Str(a) && vars[y] == Str(b)
    ensures var below := exists i :: 0 <= i <= |a| && i <= |b| && a[..i] == b[..i]
                                     && if i == |a| then i < |b| else i < |b| && a[i] < b[i];
            Eval(x + " " + sym + " " + y, vars, read) ==
            Val(Bool(
              if sym == "==" then a == b
              else if sym == "!=" then a != b
              else if sym == ">" then !below && a != b
              else if sym == "<" then below
              else if sym == ">=" then !below
              else below || a == b))
  {
    ComparisonIsCompared(x, KindOf(sym), sym, y, vars, read);
    StringLessExactly(a, b);
    StringLessTrichotomy(a, b);
    hide Eval, IsName, StringLess;
  }

  /** Any other two values are equal if they are the same, and have no order. */
  lemma OthersCompared(x: string, sym: string, y: string, vars: Vars, read: NumberReader)
    requires IsName(x) && IsName(y) && x in vars && y in vars && sym in {"==", "!=", ">", "<", ">=", "<="}
    requires !(vars[x].Str? && vars[y].Str?)
    requires vars[x].Nil? || vars[x].Str? || vars[x].List? || vars[x].Map?
             || vars[y].Nil? || vars[y].Str? || vars[y].List? || vars[y].Map?
    ensures Eval(x + " " + sym + " " + y, vars, read) ==
            if sym == "==" then Val(Bool(vars[x] == vars[y]))
            else if sym == "!=" then Val(Bool(vars[x] != vars[y]))
            else Err(IncompatibleOperands)
  {
    ComparisonIsCompared(x, KindOf(sym), sym, y, vars, read);
    hide Eval, IsName, SymbolText;
  }

  // ---- choosing ----------------------------------------------------------

  lemma NegatedText(x: string, vars: Vars, read: NumberReader)
    requires IsName(x) && x in vars
    ensures Eval("!" + x, vars, read) ==
            Val(Bool(vars[x] == Nil || vars[x] == Bool(false) || vars[x] == Str("") || vars[x] == Num(0.0)))
  {
    var u := G.Negate(NameUnary(x));
    assert Spelt("!" + x, G.UnaryTokens(u), read) by {
      LastName(x, read);
      NameTokens(x);
      hide Spelt, IsName;
      assert x + "" == x && "!" + "" + x == "!" + x;
      SymbolThenName(Not, "!", "", x, "", [NameToken(x)], read);
    }
    EitherName(x, vars);
    hide NameUnary;
    AloneIs(u, vars);
    hide Eval, Spelt;
    SpeltEvaluates("!" + x, Alone(u), vars, read);
  }

  function Chosen(x: string, y: string): G.AndExpr { G.AndMore(NameUnary(x), NameAnd(y)) }

  function Offered(x: string, y: string): G.OrExpr { G.OrMore(NameAnd(x), G.OrOne(NameAnd(y))) }

  /** A conjunction is its first operand if that is null, false, "" or zero, and
      otherwise its second, which is not looked at before. */
  lemma ConjunctionText(x: string, y: string, vars: Vars, read: NumberReader)
    requires IsName(x) && IsName(y) && x in vars
    ensures Eval(x + " && " + y, vars, read) ==
            if vars[x] == Nil || vars[x] == Bool(false) || vars[x] == Str("") || vars[x] == Num(0.0) then Val(vars[x])
            else if y in vars then Val(vars[y])
            else Err(UnknownVariable(y))
  {
    var e := Chosen(x, y);
    TwoNames(x, And, "&&", y, read);
    Between(x, "&&", " && ");
    NameTokens(x);
    NameTokens(y);
    EitherName(x, vars);
    EitherName(y, vars);
    hide Eval, Spelt, IsName, NameUnary, NameAnd;
    assert G.AndTokens(e) == [NameToken(x), Sym(And, "&&"), NameToken(y)];
    assert G.WellFormedAnd(e);
    assert G.OrTokens(G.OrOne(e)) == G.AndTokens(e);
    SpeltEvaluates(x + " && " + y, G.OrOne(e), vars, read);
    assert G.Meaning(G.OrOne(e), vars) == G.MeaningAnd(e, vars);
  }

  /** A disjunction is its second operand if the first is null, false, "" or
      zero, and otherwise its first. */
  lemma DisjunctionText(x: string, y: string, vars: Vars, read: NumberReader)
    requires IsName(x) && IsName(y) && x in vars
    ensures Eval(x + " || " + y, vars, read) ==
            if !(vars[x] == Nil || vars[x] == Bool(false) || vars[x] == Str("") || vars[x] == Num(0.0))
            then Val(vars[x])
            else if y in vars then Val(vars[y])
            else Err(UnknownVariable(y))
  {
    var e := Offered(x, y);
    TwoNames(x, Or, "||", y, read);
    Between(x, "||", " || ");
    NameTokens(x);
    NameTokens(y);
    EitherName(x, vars);
    EitherName(y, vars);
    hide Eval, Spelt, IsName, NameAnd, NameUnary;
    var second := G.OrOne(NameAnd(y));
    assert G.WellFormed(second) && G.OrTokens(second) == [NameToken(y)];
    assert G.Meaning(second, vars) == G.MeaningAnd(NameAnd(y), vars);
    assert G.OrTokens(e) == [NameToken(x), Sym(Or, "||"), NameToken(y)];
    SpeltEvaluates(x + " || " + y, e, vars, read);
  }

  // ---- binding -----------------------------------------------------------

  lemma Regroup(p: string, a: string, b: string, c: string, d: string)
    ensures p + a + b + c + d == p + (a + b + c + d)
  {
    Shift(p, a, b);
    Shift(p, a + b, c);
    Shift(p, a + b + c, d);
  }

  lemma ThreeNames(x: string, k: Kind, a: string, y: string, l: Kind, b: string, z: string, read: NumberReader)
    requires IsName(x) && IsName(y) && IsName(z)
    requires a == SymbolText(k) && a != "" && b == SymbolText(l) && b != ""
    ensures Spelt(x + " " + a + " " + y + " " + b + " " + z,
                  [NameToken(x), Sym(k, a), NameToken(y), Sym(l, b), NameToken(z)], read)
  {
    TwoNames(y, l, b, z, read);
    hide *;
    var more, ts := " " + b + " " + z, [NameToken(y), Sym(l, b), NameToken(z)];
    var u := y + " " + b + " " + z;
    Regroup(y, " ", b, " ", z);
    SymbolThenName(k, a, " ", y, more, ts, read);
    NameThen(x, a + " " + u, [Sym(k, a)] + ts, read);
    var front := x + " " + a + " ";
    Shift(x + " ", a + " ", u);
    Shift(x + " ", a, " ");
    Regroup(front, y, " ", b, " ");
    Shift(front, y + " " + b + " ", z);
    assert [NameToken(x)] + ([Sym(k, a)] + ts) == [NameToken(x), Sym(k, a), NameToken(y), Sym(l, b), NameToken(z)];
  }

  lemma NegatedNames(x: string, y: string, read: NumberReader)
    requires IsName(x) && IsName(y)
    ensures Spelt("!" + x + " == " + y, [Sym(Not, "!"), NameToken(x), Sym(EqEq, "=="), NameToken(y)], read)
  {
    TwoNames(x, EqEq, "==", y, read);
    hide IsName, Spelt, NameToken;
    var ts := [NameToken(x), Sym(EqEq, "=="), NameToken(y)];
    Between(x, "==", " == ");
    Shift(x, " == ", y);
    SymbolThenName(Not, "!", "", x, " == " + y, ts, read);
    assert "!" + "" == "!";
    Shift("!" + x, " == ", y);
    Shift("!", x, " == " + y);
    assert [Sym(Not, "!")] + ts == [Sym(Not, "!"), NameToken(x), Sym(EqEq, "=="), NameToken(y)];
  }

  lemma ConjoinedMeans(x: string, y: string, vars: Vars)
    ensures G.AndTokens(Chosen(x, y)) == [NameToken(x), Sym(And, "&&"), NameToken(y)]
    ensures G.OrTokens(G.OrOne(Chosen(x, y))) == [NameToken(x), Sym(And, "&&"), NameToken(y)]
    ensures G.WellFormed(G.OrOne(Chosen(x, y)))
  {
    NameTokens(x);
    NameTokens(y);
    EitherName(x, vars);
    EitherName(y, vars);
    hide NameAnd, NameUnary;
    assert G.WellFormedAnd(Chosen(x, y));
  }

  /** `&&` binds tighter than `||`. */
  lemma ConjunctionBindsTighter(x: string, y: string, z: string, vars: Vars, read: NumberReader)
    requires IsName(x) && IsName(y) && IsName(z) && x in vars && y in vars && z in vars
    ensures Eval(x + " || " + y + " && " + z, vars, read) ==
            if !(vars[x] == Nil || vars[x] == Bool(false) || vars[x] == Str("") || vars[x] == Num(0.0))
            then Val(vars[x])
            else Eval(y + " && " + z, vars, read)
  {
    var second := G.OrOne(Chosen(y, z));
    var e := G.OrMore(NameAnd(x), second);
    ThreeNames(x, Or, "||", y, And, "&&", z, read);
    TwoNames(y, And, "&&", z, read);
    ConjoinedMeans(y, z, vars);
    NameTokens(x);
    EitherName(x, vars);
    hide Eval, Spelt, IsName, NameAnd, NameUnary, Chosen;
    Between(y, "&&", " && ");
    Between(x, "||", " || ");
    Between(x + " || " + y, "&&", " && ");
    SpeltEvaluates(y + " && " + z, second, vars, read);
    assert G.OrTokens(e) == [NameToken(x), Sym(Or, "||"), NameToken(y), Sym(And, "&&"), NameToken(z)];
    SpeltEvaluates(x + " || " + y + " && " + z, e, vars, read);
  }

  /** `!` negates the whole comparison that follows it. */
  lemma NegationBindsLooser(x: string, y: string, vars: Vars, read: NumberReader)
    requires IsName(x) && IsName(y) && x in vars && y in vars
    ensures Eval("!" + x + " == " + y, vars, read) ==
            Val(Bool(Eval(x + " == " + y, vars, read) == Val(Bool(false))))
  {
    var u := G.Negate(Compared(x, EqEq, "==", y));
    NegatedNames(x, y, read);
    ComparisonIsCompared(x, EqEq, "==", y, vars, read);
    Between(x, "==", " == ");
    ComparedTokens(x, EqEq, "==", y);
    ComparedMeans(x, EqEq, "==", y, vars);
    AloneIs(u, vars);
    hide Eval, Spelt, Compared;
    assert G.UnaryTokens(u) == [Sym(Not, "!"), NameToken(x), Sym(EqEq, "=="), NameToken(y)];
    SpeltEvaluates("!" + x + " == " + y, Alone(u), vars, read);
  }

  // ---- operands ----------------------------------------------------------

  lemma LoneToken(t: Token, s: string, read: NumberReader)
    requires Spells(t, s, read)
    ensures Spelt(s, [t], read)
  {
    NothingSpelt(read);
    BlankIsSpace();
    hide Spells, Spelt;
    PutFront(t, s, "", "", [], read);
    assert s + "" + "" == s && [t] + [] == [t];
  }

  lemma LoneOperand(p: G.Primary, t: Token, s: string, vars: Vars, read: NumberReader)
    requires G.WellFormedPrimary(p) && G.PrimaryTokens(p) == [t] && Spells(t, s, read)
    ensures Eval(s, vars, read) == G.MeaningPrimary(p, vars)
  {
    LoneToken(t, s, read);
    OperandIs(p, vars);
    hide Spells, Spelt, G.PrimaryTokens, G.MeaningPrimary, Eval, Operand;
    SpeltEvaluates(s, Operand(p), vars, read);
  }

  /** What the literals stand for, and names. */
  lemma LiteralTexts(vars: Vars, read: NumberReader)
    ensures Eval("true", vars, read) == Val(Bool(true)) && Eval("false", vars, read) == Val(Bool(false))
    ensures Eval("null", vars, read) == Val(Nil)
  {
    hide Eval;
    LoneOperand(G.BoolLit(true), Token(Boolean, "true", 1.0), "true", vars, read);
    LoneOperand(G.BoolLit(false), Token(Boolean, "false", 0.0), "false", vars, read);
    LoneOperand(G.NullLit, Sym(Null, "null"), "null", vars, read);
  }

  lemma NumberText(s: string, n: real, vars: Vars, read: NumberReader)
    requires IsNumeral(s) && read(s) == Some(n)
    ensures Eval(s, vars, read) == Val(Num(n))
  {
    hide Eval, IsNumeral;
    LoneOperand(G.NumLit(s, n), Token(Number, s, n), s, vars, read);
  }

  lemma StringText(text: string, quote: char, vars: Vars, read: NumberReader)
    requires quote == '"' || quote == '\''
    ensures Eval(Quoted(text, quote), vars, read) == Val(Str(text))
  {
    hide Eval, Quoted;
    QuotedSpells(text, quote, read);
    LoneOperand(G.StrLit(text), Sym(String, text), Quoted(text, quote), vars, read);
  }

  lemma NameText(x: string, vars: Vars, read: NumberReader)
    requires IsName(x)
    ensures Eval(x, vars, read) == if x in vars then Val(vars[x]) else Err(UnknownVariable(x))
  {
    hide Eval;
    NameSpells(x, read);
    NameTokens(x);
    NamePrimary(x, vars);
    hide IsName, Spells;
    LoneOperand(NamePath(x), NameToken(x), x, vars, read);
  }

  // ---- fields ------------------------------------------------------------

  lemma {:induction false} SelectLast(v: Value, fields: seq<string>, f: string)
    ensures G.Select(v, fields + [f]) == Field(G.Select(v, fields), f)
    decreases fields
  {
    if fields == [] {
      assert [] + [f] == [f] && [f][1..] == [];
      assert G.Select(Field(v, f), []) == Field(v, f);
    } else {
      assert (fields + [f])[1..] == fields[1..] + [f];
      SelectLast(Field(v, fields[0]), fields[1..], f);
    }
  }

  /** A field chain, one field at a time: `.length` is the number of characters,
      items or entries, and zero of anything else; any other field is an object's
      entry, and null where there is none. */
  lemma FieldText(shorter: string, longer: string, root: string, fields: seq<string>, f: string, v: Value,
                  vars: Vars, read: NumberReader)
    requires IsText(shorter, Operand(G.Path(root, fields)), read) && Eval(shorter, vars, read) == Val(v)
    requires IsText(longer, Operand(G.Path(root, fields + [f])), read)
    ensures Eval(longer, vars, read) ==
            Val(if f == "length" then
                  Int(if v.Str? then |v.s| else if v.List? then |v.items| else if v.Map? then |v.fields| else 0)
                else if v.Map? && f in v.fields then v.fields[f]
                else Nil)
  {
    OperandIs(G.Path(root, fields), vars);
    OperandIs(G.Path(root, fields + [f]), vars);
    EvalIsMeaning(shorter, Operand(G.Path(root, fields)), vars, read);
    EvalIsMeaning(longer, Operand(G.Path(root, fields + [f])), vars, read);
    if root in vars {
      SelectLast(vars[root], fields, f);
    }
    hide Eval, IsText, Operand, G.Select;
  }

  lemma FieldTokensOf(x: string, f: string)
    ensures G.PrimaryTokens(G.Path(x, [f])) == [NameToken(x), Sym(Dot, "."), NameToken(f)]
  {
    assert [f][1..] == [] && G.FieldTokens([]) == [];
    assert G.FieldTokens([f]) == [G.DOT, Sym(Ident, f)] + [];
  }

  lemma LimitSpelt(digits: string, limit: real, read: NumberReader)
    requires IsNumeral(digits) && read(digits) == Some(limit)
    ensures Spelt("value > " + digits, [NameToken("value"), Sym(Greater, ">"), Token(Number, digits, limit)], read)
  {
    var number, gt := Token(Number, digits, limit), Sym(Greater, ">");
    LoneToken(number, digits, read);
    BlankIsSpace();
    NameSpells("value", read);
    SymbolSpells(Greater, ">", read);
    hide Spelt, Spells, IsName, IsNumeral, AllSpace;
    PutFront(gt, ">", " ", digits, [number], read);
    assert ">" + " " == "> " && [gt] + [number] == [gt, number];
    PutFront(NameToken("value"), "value", " ", "> " + digits, [gt, number], read);
    assert "value" + " " == "value " && "value " + "> " == "value > ";
    Shift("value ", "> ", digits);
    assert [NameToken("value")] + [gt, number] == [NameToken("value"), gt, number];
  }

  function ThresholdTokens(digits: string, limit: real): seq<Token>
  {
    [NameToken("result"), Sym(Dot, "."), NameToken("value"), Sym(Greater, ">"), Token(Number, digits, limit)]
  }

  lemma ThresholdSpelt(digits: string, limit: real, read: NumberReader)
    requires IsNumeral(digits) && read(digits) == Some(limit)
    ensures Spelt("result.value > " + digits, ThresholdTokens(digits, limit), read)
  {
    LimitSpelt(digits, limit, read);
    BlankIsSpace();
    NameSpells("result", read);
    SymbolSpells(Dot, ".", read);
    hide Spelt, Spells, IsName, IsNumeral, AllSpace, NameToken;
    var dot, ts := Sym(Dot, "."), [NameToken("value"), Sym(Greater, ">"), Token(Number, digits, limit)];
    Shift("value", " > ", digits);
    PutFront(dot, ".", "", "value > " + digits, ts, read);
    assert "." + "" == "." && "." + "value > " == ".value > ";
    Shift(".", "value > ", digits);
    PutFront(NameToken("result"), "result", "", ".value > " + digits, [dot] + ts, read);
    assert "result" + "" == "result" && "result" + ".value > " == "result.value > ";
    Shift("result", ".value > ", digits);
    assert [NameToken("result")] + ([dot] + ts) == ThresholdTokens(digits, limit);
  }

  lemma BinaryIs(l: G.Primary, op: Token, r: G.Primary, a: Value, b: Value, vars: Vars)
    requires G.WellFormedPrimary(l) && G.WellFormedPrimary(r) && IsComparison(op.kind)
    requires G.MeaningPrimary(l, vars) == Val(a) && G.MeaningPrimary(r, vars) == Val(b)
    ensures var u := G.Plain(G.Binary(l, op, r));
            && G.WellFormedUnary(u) && G.MeaningUnary(u, vars) == CompareValues(op.kind, a, b)
            && G.UnaryTokens(u) == G.PrimaryTokens(l) + [op] + G.PrimaryTokens(r)
  {
    var c := G.Binary(l, op, r);
    assert G.WellFormedCmp(c) && G.MeaningCmp(c, vars) == CompareValues(op.kind, a, b);
    assert G.CmpTokens(c) == G.PrimaryTokens(l) + [op] + G.PrimaryTokens(r);
    hide G.PrimaryTokens, G.MeaningPrimary, G.WellFormedPrimary, G.CmpTokens, G.MeaningCmp, G.WellFormedCmp;
  }

  lemma ResultField(f: string, vars: Vars)
    requires "result" in vars && vars["result"].Map? && f in vars["result"].fields && f != "length"
    ensures var p := G.Path("result", [f]);
            G.WellFormedPrimary(p) && G.MeaningPrimary(p, vars) == Val(vars["result"].fields[f])
  {
    SelectLast(vars["result"], [], f);
    assert [] + [f] == [f] && G.Select(vars["result"], []) == vars["result"];
  }

  /** The condition a flow author writes: a threshold on a field of the result. */
  lemma ThresholdText(n: real, limit: real, digits: string, vars: Vars, read: NumberReader)
    requires IsNumeral(digits) && read(digits) == Some(limit)
    requires "result" in vars && vars["result"].Map? && "value" in vars["result"].fields
    requires vars["result"].fields["value"] == Num(n)
    ensures Eval("result.value > " + digits, vars, read) == Val(Bool(n > limit))
  {
    var l, r := G.Path("result", ["value"]), G.NumLit(digits, limit);
    ThresholdSpelt(digits, limit, read);
    FieldTokensOf("result", "value");
    ResultField("value", vars);
    NumbersByKind(Greater, Num(n), Num(limit), n, limit);
    BinaryIs(l, Sym(Greater, ">"), r, Num(n), Num(limit), vars);
    hide Eval, Spelt, IsNumeral, CompareValues, G.MeaningUnary;
    var u := G.Plain(G.Binary(l, Sym(Greater, ">"), r));
    assert G.PrimaryTokens(r) == [Token(Number, digits, limit)];
    assert G.UnaryTokens(u) == ThresholdTokens(digits, limit);
    AloneIs(u, vars);
    SpeltEvaluates("result.value > " + digits, Alone(u), vars, read);
  }
}
