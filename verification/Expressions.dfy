/** Condition expressions end to end: lexing, evaluating, and the round trip
    from a syntax tree through source text back to the tree's meaning. */
module Expressions {
  import opened Tokens
  import opened Lexer
  import opened SourceText
  import G = Grammar
  import S = CursorSpec
  import Parser = CursorParser
  import Proofs = CursorProofs
  import Bounds = CursorBounds
  import Acceptance = CursorAcceptance

  function Eval(src: string, vars: Vars, read: NumberReader): Outcome
  {
    match LexFrom(src, 0, read)
    case Bad(e) => Err(e)
    case Tokens(ts) => S.EvalTokens(ts, vars)
  }

  method EvalExpression(src: string, vars: Vars, read: NumberReader) returns (out: Outcome)
    ensures out == Eval(src, vars, read)
  {
    var lexed := Lex(src, read);
    if lexed.Bad? {
      return Err(lexed.e);
    }
    out := Parser.EvalTokens(lexed.ts, vars);
  }

  // ---- text that spells a tree -------------------------------------------

  /** The source is a way to write the tree down: white space, quoting and
      escapes are free as long as the tokens can be told apart. */
  ghost predicate IsText(src: string, e: G.OrExpr, read: NumberReader)
  {
    G.WellFormed(e) && Written(src, G.OrTokens(e), read)
  }

  lemma LexedExpression(src: string, e: G.OrExpr, read: NumberReader)
    requires G.WellFormed(e)
    ensures IsText(src, e, read) <==>
            LexFrom(src, 0, read).Tokens? && Acceptance.IsTree(LexFrom(src, 0, read).ts, e)
  {
    hide LexFrom, Written;
    LexExactly(src, G.OrTokens(e), read);
  }

  /** End to end: source text that spells a tree evaluates to the tree's meaning,
      whatever the variables, the quoting and the spacing. */
  lemma EvalIsMeaning(src: string, e: G.OrExpr, vars: Vars, read: NumberReader)
    requires IsText(src, e, read)
    ensures Eval(src, vars, read) == G.Meaning(e, vars)
  {
    LexExactly(src, G.OrTokens(e), read);
    Proofs.EvalTokensAdequate(e, vars);
  }

  // ---- any source text --------------------------------------------------

  lemma SpeltIsCanonical(t: Token, s: string, read: NumberReader)
    requires Spells(t, s, read)
    ensures Acceptance.Canonical(t) && t.kind != EOF
  {
    hide IsLiteral, IsNumeral, IsWord;
  }

  lemma ScansCanonical(src: string, i: nat, read: NumberReader)
    requires i < |src| && ScanAt(src, i, read).Found?
    ensures Acceptance.Canonical(ScanAt(src, i, read).t)
  {
    hide ScanAt, Spells, Acceptance.Canonical;
    FoundIsSpelt(src, i, read);
    var r := ScanAt(src, i, read);
    SpeltIsCanonical(r.t, src[i..r.next], read);
  }

  lemma ScansEnd()
    ensures Acceptance.Canonical(G.END)
  {
  }

  /** Lexing leaves EOF at the end and nowhere else, and only tokens in the
      form the grammar writes them in. */
  lemma {:induction false} LexedIsRegular(src: string, i: nat, read: NumberReader)
    requires i <= |src|
    ensures LexFrom(src, i, read).Tokens? ==>
              && Bounds.EofTerminated(LexFrom(src, i, read).ts)
              && Acceptance.AllCanonical(LexFrom(src, i, read).ts)
    decreases |src| - i
  {
    hide ScanAt, Acceptance.Canonical;
    if i == |src| {
      assert Acceptance.Canonical(G.END) by { ScansEnd(); }
    } else {
      match ScanAt(src, i, read) {
        case Blank => LexedIsRegular(src, i + 1, read);
        case Found(t, next) =>
          ScansCanonical(src, i, read);
          LexedIsRegular(src, next, read);
        case _ =>
      }
    }
  }

  /** Source text faults exactly when it lexes and some short circuit that
      evaluating it takes skips a chain in which an operand does not close. */
  lemma EvalPanicsExactly(src: string, vars: Vars, read: NumberReader)
    ensures Eval(src, vars, read).Panic? <==>
            && LexFrom(src, 0, read).Tokens?
            && !Bounds.AllClose(LexFrom(src, 0, read).ts, S.OrShorts(LexFrom(src, 0, read).ts, 0, vars))
  {
    LexedIsRegular(src, 0, read);
    if LexFrom(src, 0, read).Tokens? {
      Bounds.PanicsExactly(LexFrom(src, 0, read).ts, vars);
    }
  }

  /** So whatever the variables, text that does not lex, or whose tokens are
      closed, evaluates to a value or an error. */
  lemma EvalPanicsOnlyOnUnclosed(src: string, vars: Vars, read: NumberReader)
    requires LexFrom(src, 0, read).Tokens? ==> Bounds.Closed(LexFrom(src, 0, read).ts)
    ensures !Eval(src, vars, read).Panic?
  {
    LexedIsRegular(src, 0, read);
    if LexFrom(src, 0, read).Tokens? {
      Bounds.ClosedNeverPanics(LexFrom(src, 0, read).ts, vars);
    }
  }

  /** The source spells a tree whose meaning is a value. */
  ghost predicate TextSpellsValue(src: string, vars: Vars, read: NumberReader)
  {
    exists e :: IsText(src, e, read) && G.Meaning(e, vars).Val?
  }

  lemma SpellsValueAsText(src: string, vars: Vars, read: NumberReader)
    ensures TextSpellsValue(src, vars, read) <==>
            LexFrom(src, 0, read).Tokens? && Acceptance.SpellsValue(LexFrom(src, 0, read).ts, vars)
  {
    hide LexFrom, Written;
    forall e | G.WellFormed(e)
      ensures IsText(src, e, read) <==>
              LexFrom(src, 0, read).Tokens? && Acceptance.IsTree(LexFrom(src, 0, read).ts, e)
    {
      LexedExpression(src, e, read);
    }
  }

  /** Any source text: it spells a tree whose meaning is a value exactly when it
      evaluates to a value and every run of tokens a taken short circuit skipped
      spells a chain; with neither `&&` nor `||` in it, exactly when it
      evaluates to a value. */
  lemma AcceptedExactly(src: string, vars: Vars, read: NumberReader)
    ensures TextSpellsValue(src, vars, read) <==>
            && LexFrom(src, 0, read).Tokens?
            && Eval(src, vars, read).Val?
            && Acceptance.AllSpell(LexFrom(src, 0, read).ts, S.OrShorts(LexFrom(src, 0, read).ts, 0, vars))
    ensures LexFrom(src, 0, read).Tokens? && Acceptance.NoOperators(LexFrom(src, 0, read).ts) ==>
              (Eval(src, vars, read).Val? <==> TextSpellsValue(src, vars, read))
  {
    hide LexFrom, TextSpellsValue;
    SpellsValueAsText(src, vars, read);
    if LexFrom(src, 0, read).Tokens? {
      var ts := LexFrom(src, 0, read).ts;
      LexedIsRegular(src, 0, read);
      Acceptance.AcceptedExactly(ts, vars);
      if Acceptance.NoOperators(ts) {
        Acceptance.AcceptedExactlyWithoutOperators(ts, vars);
      }
    }
  }

  // ---- a text that faults ------------------------------------------------

  const UNCLOSED := [Piece(Bounds.TRUE, "true", " "), Piece(G.OR, "||", " "), Piece(G.LPAREN, "(", "")]

  lemma UnclosedIsWritten(read: NumberReader)
    ensures Written("true || (", [Bounds.TRUE, G.OR, G.LPAREN], read)
  {
    assert UNCLOSED[1..][1..] == [UNCLOSED[2]] && UNCLOSED[1..][1..][1..] == [];
    assert Render(UNCLOSED[1..][1..]) == "(";
    assert Render(UNCLOSED[1..]) == "|| (";
    assert Render(UNCLOSED) == "true || (" == "" + Render(UNCLOSED);
    assert TokensOf(UNCLOSED[1..][1..]) == [G.LPAREN];
    assert TokensOf(UNCLOSED[1..]) == [G.OR, G.LPAREN];
    assert TokensOf(UNCLOSED) == [Bounds.TRUE, G.OR, G.LPAREN];
    assert Separated(UNCLOSED[1..][1..], read);
    assert Separated(UNCLOSED[1..], read);
    assert WrittenAs("true || (", "", UNCLOSED, [Bounds.TRUE, G.OR, G.LPAREN], read);
  }

  lemma EvalOfTokens(src: string, vars: Vars, read: NumberReader)
    ensures LexFrom(src, 0, read).Tokens? ==> Eval(src, vars, read) == S.EvalTokens(LexFrom(src, 0, read).ts, vars)
  {
  }

  /** The text `true || (` faults. */
  lemma UnclosedTextPanics(vars: Vars, read: NumberReader)
    ensures Eval("true || (", vars, read) == Panic
  {
    var ts := [Bounds.TRUE, G.OR, G.LPAREN];
    assert ts + [G.END] == [Bounds.TRUE, G.OR, G.LPAREN, G.END];
    hide *;
    UnclosedIsWritten(read);
    LexExactly("true || (", ts, read);
    Bounds.UnclosedTailsPanic(vars, "x");
    EvalOfTokens("true || (", vars, read);
  }
}
