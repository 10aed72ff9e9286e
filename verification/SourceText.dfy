/** Which source texts lex, and to what: a text lexes to some tokens exactly if
    it is white space and spellings of those tokens that can be told apart. */
module SourceText {
  import opened Values
  import opened Tokens
  import opened Lexer
  import opened Grammar

  // ---- spellings ---------------------------------------------------------

  /** The text between the quotes of a string literal with its backslashes taken
      out. Each takes the character after it literally; there is no text if a
      quote mark stands in it plainly or a backslash at its end. */
  function Unescape(body: string, quote: char): Option<string>
  {
    if body == "" then Some("")
    else if body[0] == quote || (body[0] == '\\' && |body| == 1) then None
    else
      var k := if body[0] == '\\' then 1 else 0;
      match Unescape(body[k + 1..], quote)
      case None => None
      case Some(rest) => Some([body[k]] + rest)
  }

  predicate IsWord(s: string)
  {
    s != "" && IsIdentStart(s[0]) && forall k :: 1 <= k < |s| ==> IsIdentPart(s[k])
  }

  predicate IsNumeral(s: string)
  {
    && s != "" && (IsDigit(s[0]) || (s[0] == '-' && |s| > 1 && IsDigit(s[1])))
    && forall k :: 1 <= k < |s| ==> IsNumberPart(s[k])
  }

  predicate IsLiteral(s: string, text: string)
  {
    && |s| >= 2 && IsQuote(s[0]) && s[|s| - 1] == s[0]
    && Unescape(s[1..|s| - 1], s[0]) == Some(text)
  }

  function SymbolText(k: Kind): string
  {
    match k
    case And => "&&" case Or => "||" case Not => "!" case EqEq => "==" case NotEq => "!="
    case Greater => ">" case Less => "<" case GreaterEq => ">=" case LessEq => "<="
    case Dot => "." case LParen => "(" case RParen => ")" case _ => ""
  }

  predicate IsSymbol(k: Kind)
  {
    SymbolText(k) != ""
  }

  /** `s` is a way to write token `t`. EOF has none, a string has many. */
  predicate Spells(t: Token, s: string, read: NumberReader)
  {
    match t.kind
    case EOF => false
    case String => IsLiteral(s, t.text) && t.num == 0.0
    case Number => IsNumeral(s) && t.text == s && read(s) == Some(t.num)
    case Ident => IsWord(s) && t == WordToken(s)
    case Boolean => IsWord(s) && t == WordToken(s)
    case Null => IsWord(s) && t == WordToken(s)
    case k => s == SymbolText(k) && t == Sym(k, s)
  }

  /** The character that would be read as part of a token of this kind if it
      came right after one: a letter or digit after a word, a digit or point
      after a number, `=` after `!`, `<` or `>`. */
  predicate Extends(k: Kind, c: char)
  {
    match k
    case Ident => IsIdentPart(c)
    case Boolean => IsIdentPart(c)
    case Null => IsIdentPart(c)
    case Number => IsNumberPart(c)
    case Not => c == '='
    case Greater => c == '='
    case Less => c == '='
    case _ => false
  }

  /** Nothing at position `j` would extend a token of kind `k` that ends there. */
  predicate Breaks(src: string, j: nat, k: Kind)
  {
    j <= |src| && (j < |src| ==> !Extends(k, src[j]))
  }

  // ---- strings -----------------------------------------------------------

  lemma {:induction false} BodyIsUnescaped(src: string, j: nat, quote: char)
    requires j <= |src| && IsQuote(quote) && StringBody(src, j, quote).Some?
    ensures var (text, end) := StringBody(src, j, quote).value;
            src[end] == quote && Unescape(src[j..end], quote) == Some(text)
    decreases |src| - j
  {
    if src[j] != quote {
      var k := if src[j] == '\\' && j + 1 < |src| then j + 1 else j;
      var (text, end) := StringBody(src, j, quote).value;
      BodyIsUnescaped(src, k + 1, quote);
      assert src[j..end][k - j + 1..] == src[k + 1..end];
    }
  }

  lemma {:induction false} UnescapedIsBody(src: string, j: nat, end: nat, quote: char)
    requires j <= end < |src| && src[end] == quote && IsQuote(quote) && Unescape(src[j..end], quote).Some?
    ensures StringBody(src, j, quote) == Some((Unescape(src[j..end], quote).value, end))
    decreases end - j
  {
    if j < end {
      var k := if src[j] == '\\' then j + 1 else j;
      assert src[j..end][k - j + 1..] == src[k + 1..end];
      UnescapedIsBody(src, k + 1, end, quote);
    }
  }

  /** A text written so that it can stand in these quotes. */
  function Escape(text: string, quote: char): string
  {
    if text == "" then ""
    else (if text[0] == quote || text[0] == '\\' then ['\\', text[0]] else [text[0]]) + Escape(text[1..], quote)
  }

  function Quoted(text: string, quote: char): string
  {
    [quote] + Escape(text, quote) + [quote]
  }

  lemma {:induction false} UnescapeEscaped(text: string, quote: char)
    requires IsQuote(quote)
    ensures Unescape(Escape(text, quote), quote) == Some(text)
  {
    if text != "" {
      UnescapeEscaped(text[1..], quote);
      var head := if text[0] == quote || text[0] == '\\' then ['\\', text[0]] else [text[0]];
      assert Escape(text, quote)[|head|..] == Escape(text[1..], quote);
      assert [text[0]] + text[1..] == text;
    }
  }

  /** Every text can be written as a literal, in either quotes. */
  lemma QuotedSpells(text: string, quote: char, read: NumberReader)
    requires IsQuote(quote)
    ensures Spells(Sym(String, text), Quoted(text, quote), read)
  {
    UnescapeEscaped(text, quote);
    assert Quoted(text, quote)[1..|Quoted(text, quote)| - 1] == Escape(text, quote);
  }

  // ---- one token, read ---------------------------------------------------

  lemma Inside(src: string, i: nat, next: nat)
    requires i + 2 <= next <= |src|
    ensures src[i..next][1..|src[i..next]| - 1] == src[i + 1..next - 1]
    ensures src[i..next][0] == src[i] && src[i..next][|src[i..next]| - 1] == src[next - 1]
  {
    var a, b := src[i..next][1..|src[i..next]| - 1], src[i + 1..next - 1];
    assert |a| == |b|;
    forall k | 0 <= k < |a|
      ensures a[k] == b[k]
    {
      assert a[k] == src[i..next][k + 1];
    }
  }

  predicate FoundSpelt(src: string, i: nat, read: NumberReader)
    requires i < |src|
  {
    var r := ScanAt(src, i, read);
    r.Found? ==> Spells(r.t, src[i..r.next], read) && Breaks(src, r.next, r.t.kind)
  }

  lemma FoundString(src: string, i: nat, read: NumberReader)
    requires i < |src| && IsQuote(src[i])
    ensures FoundSpelt(src, i, read)
  {
    hide StringBody, Unescape;
    if ScanAt(src, i, read).Found? {
      var (text, end) := StringBody(src, i + 1, src[i]).value;
      BodyIsUnescaped(src, i + 1, src[i]);
      Inside(src, i, end + 1);
    }
  }

  lemma {:induction false} NumberRun(src: string, j: nat)
    requires j <= |src|
    ensures Breaks(src, NumberEnd(src, j), Number)
    ensures forall k :: j <= k < NumberEnd(src, j) ==> IsNumberPart(src[k])
    decreases |src| - j
  {
    if j < |src| && IsNumberPart(src[j]) { NumberRun(src, j + 1); }
  }

  lemma {:induction false} WordRun(src: string, j: nat)
    requires j <= |src|
    ensures Breaks(src, IdentEnd(src, j), Ident)
    ensures forall k :: j <= k < IdentEnd(src, j) ==> IsIdentPart(src[k])
    decreases |src| - j
  {
    if j < |src| && IsIdentPart(src[j]) { WordRun(src, j + 1); }
  }

  lemma DigitGoesOn(src: string, j: nat)
    requires j < |src| && IsDigit(src[j])
    ensures NumberEnd(src, j) > j
  {
  }

  lemma FoundNumber(src: string, i: nat, read: NumberReader)
    requires i < |src| && (IsDigit(src[i]) || src[i] == '-')
    ensures FoundSpelt(src, i, read)
  {
    hide NumberEnd;
    if ScanAt(src, i, read).Found? {
      NumberRun(src, i + 1);
      var s := src[i..NumberEnd(src, i + 1)];
      assert s[0] == src[i] && forall k :: 1 <= k < |s| ==> s[k] == src[i + k];
      if src[i] == '-' {
        DigitGoesOn(src, i + 1);
      }
    }
  }

  lemma WordTokenKind(word: string)
    ensures WordToken(word).kind in {Ident, Boolean, Null}
  {
  }

  lemma FoundWord(src: string, i: nat, read: NumberReader)
    requires i < |src| && IsIdentStart(src[i])
    ensures FoundSpelt(src, i, read)
  {
    hide IdentEnd, WordToken;
    WordRun(src, i + 1);
    var s := src[i..IdentEnd(src, i + 1)];
    assert s[0] == src[i] && forall k :: 1 <= k < |s| ==> s[k] == src[i + k];
    WordTokenKind(s);
  }

  lemma FoundDouble(src: string, i: nat, read: NumberReader)
    requires i < |src| && src[i] in {'&', '|', '='}
    ensures FoundSpelt(src, i, read)
  {
    if NextIs(src, i, src[i]) {
      assert src[i..i + 2] == [src[i], src[i]];
    }
  }

  lemma FoundWide(src: string, i: nat, read: NumberReader)
    requires i < |src| && src[i] in {'!', '>', '<'}
    ensures FoundSpelt(src, i, read)
  {
    assert src[i..i + 1] == [src[i]];
    if NextIs(src, i, '=') {
      assert src[i..i + 2] == [src[i], '='];
    }
  }

  lemma FoundOther(src: string, i: nat, read: NumberReader)
    requires i < |src| && src[i] !in {'&', '|', '=', '!', '>', '<'}
    requires !IsQuote(src[i]) && !IsDigit(src[i]) && src[i] != '-' && !IsIdentStart(src[i])
    ensures FoundSpelt(src, i, read)
  {
    assert src[i..i + 1] == [src[i]];
  }

  /** Whatever token is found at a position is spelt there and ends where
      nothing extends it. */
  lemma FoundIsSpelt(src: string, i: nat, read: NumberReader)
    requires i < |src|
    ensures FoundSpelt(src, i, read)
  {
    hide FoundSpelt;
    var c := src[i];
    if IsQuote(c) {
      FoundString(src, i, read);
    } else if IsDigit(c) || c == '-' {
      FoundNumber(src, i, read);
    } else if IsIdentStart(c) {
      FoundWord(src, i, read);
    } else if c in {'&', '|', '='} {
      FoundDouble(src, i, read);
    } else if c in {'!', '>', '<'} {
      FoundWide(src, i, read);
    } else {
      FoundOther(src, i, read);
    }
  }

  // ---- one token, written ------------------------------------------------

  /** Token `t` is spelt from `i` to `next`, and nothing there extends it. */
  predicate Stands(t: Token, src: string, i: nat, next: nat, read: NumberReader)
  {
    i < next <= |src| && Spells(t, src[i..next], read) && Breaks(src, next, t.kind)
  }

  lemma ReadsString(src: string, i: nat, next: nat, t: Token, read: NumberReader)
    requires t.kind == String && Stands(t, src, i, next, read)
    ensures ScanAt(src, i, read) == Found(t, next)
  {
    hide StringBody, Unescape;
    var s := src[i..next];
    assert IsLiteral(s, t.text) && |s| == next - i;
    Inside(src, i, next);
    UnescapedIsBody(src, i + 1, next - 1, src[i]);
  }

  lemma {:induction false} NumberEndAt(src: string, j: nat, end: nat)
    requires j <= end && Breaks(src, end, Number)
    requires forall k :: j <= k < end ==> IsNumberPart(src[k])
    ensures NumberEnd(src, j) == end
    decreases end - j
  {
    if j < end { NumberEndAt(src, j + 1, end); }
  }

  lemma {:induction false} IdentEndAt(src: string, j: nat, end: nat)
    requires j <= end && Breaks(src, end, Ident)
    requires forall k :: j <= k < end ==> IsIdentPart(src[k])
    ensures IdentEnd(src, j) == end
    decreases end - j
  {
    if j < end { IdentEndAt(src, j + 1, end); }
  }

  lemma CharAt(src: string, i: nat, next: nat, k: nat)
    requires i <= k < next <= |src|
    ensures src[k] == src[i..next][k - i]
  {
  }

  lemma ReadsNumber(src: string, i: nat, next: nat, t: Token, read: NumberReader)
    requires t.kind == Number && Stands(t, src, i, next, read)
    ensures ScanAt(src, i, read) == Found(t, next)
  {
    hide NumberEnd;
    forall k | i + 1 <= k < next
      ensures IsNumberPart(src[k])
    {
      CharAt(src, i, next, k);
    }
    NumberEndAt(src, i + 1, next);
    CharAt(src, i, next, i);
    if next > i + 1 {
      CharAt(src, i, next, i + 1);
    }
  }

  lemma ReadsWord(src: string, i: nat, next: nat, t: Token, read: NumberReader)
    requires t.kind in {Ident, Boolean, Null} && Stands(t, src, i, next, read)
    ensures ScanAt(src, i, read) == Found(t, next)
  {
    hide IdentEnd, WordToken;
    forall k | i + 1 <= k < next
      ensures IsIdentPart(src[k])
    {
      CharAt(src, i, next, k);
    }
    IdentEndAt(src, i + 1, next);
    CharAt(src, i, next, i);
  }

  lemma ReadsSymbol(src: string, i: nat, next: nat, t: Token, read: NumberReader)
    requires IsSymbol(t.kind) && Stands(t, src, i, next, read)
    ensures ScanAt(src, i, read) == Found(t, next)
  {
    CharAt(src, i, next, i);
    if next > i + 1 {
      CharAt(src, i, next, i + 1);
    }
  }

  /** Reading one token, exactly: a token is found at a position if and only if
      the source spells it there up to where nothing extends it. */
  lemma ScanExactly(src: string, i: nat, t: Token, next: nat, read: NumberReader)
    requires i < |src|
    ensures ScanAt(src, i, read) == Found(t, next) <==> Stands(t, src, i, next, read)
  {
    FoundIsSpelt(src, i, read);
    hide ScanAt;
    if Stands(t, src, i, next, read) {
      hide Stands;
      match t.kind {
        case String => ReadsString(src, i, next, t, read);
        case Number => ReadsNumber(src, i, next, t, read);
        case Ident => ReadsWord(src, i, next, t, read);
        case Boolean => ReadsWord(src, i, next, t, read);
        case Null => ReadsWord(src, i, next, t, read);
        case _ => ReadsSymbol(src, i, next, t, read);
      }
    }
  }

  // ---- whole texts -------------------------------------------------------

  /** A token, how it is written, and the white space that follows it. */
  datatype Piece = Piece(tok: Token, spelling: string, gap: string)

  predicate AllSpace(s: string)
  {
    forall k :: 0 <= k < |s| ==> IsSpace(s[k])
  }

  function Render(ps: seq<Piece>): string
  {
    if ps == [] then "" else ps[0].spelling + (ps[0].gap + Render(ps[1..]))
  }

  function TokensOf(ps: seq<Piece>): seq<Token>
  {
    if ps == [] then [] else [ps[0].tok] + TokensOf(ps[1..])
  }

  /** Two pieces may stand side by side: there is white space between them, or
      the second does not begin with a character that extends the first. */
  predicate Adjoins(p: Piece, next: Piece)
  {
    p.gap != "" || (next.spelling != "" && !Extends(p.tok.kind, next.spelling[0]))
  }

  /** Pieces that spell their tokens and can be told apart. */
  predicate Separated(ps: seq<Piece>, read: NumberReader)
  {
    if ps == [] then true
    else
      && Spells(ps[0].tok, ps[0].spelling, read) && AllSpace(ps[0].gap)
      && (|ps| > 1 ==> Adjoins(ps[0], ps[1]))
      && Separated(ps[1..], read)
  }

  /** White space, then separated pieces of these tokens. */
  ghost predicate WrittenAs(src: string, lead: string, ps: seq<Piece>, ts: seq<Token>, read: NumberReader)
  {
    src == lead + Render(ps) && AllSpace(lead) && Separated(ps, read) && TokensOf(ps) == ts
  }

  /** The source writes these tokens down. */
  ghost predicate Written(src: string, ts: seq<Token>, read: NumberReader)
  {
    exists lead, ps :: WrittenAs(src, lead, ps, ts, read)
  }

  lemma LexEnd(src: string, read: NumberReader)
    ensures LexFrom(src, |src|, read) == Lexed.Tokens([END])
  {
  }

  lemma LexBlank(src: string, i: nat, read: NumberReader)
    requires i < |src| && IsSpace(src[i])
    ensures LexFrom(src, i, read) == LexFrom(src, i + 1, read)
  {
    assert ScanAt(src, i, read) == Blank;
    hide ScanAt;
  }

  lemma LexOne(src: string, i: nat, t: Token, next: nat, read: NumberReader)
    requires i < |src| && ScanAt(src, i, read) == Found(t, next)
    ensures var rest := LexFrom(src, next, read);
            LexFrom(src, i, read) == if rest.Bad? then rest else Lexed.Tokens([t] + rest.ts)
  {
    hide ScanAt;
  }

  lemma {:induction false} LexSkipsSpace(src: string, i: nat, j: nat, read: NumberReader)
    requires i <= j <= |src| && forall k :: i <= k < j ==> IsSpace(src[k])
    ensures LexFrom(src, i, read) == LexFrom(src, j, read)
    decreases j - i
  {
    hide LexFrom, IsSpace;
    if i < j {
      LexBlank(src, i, read);
      LexSkipsSpace(src, i + 1, j, read);
    }
  }

  lemma SuffixSplit(src: string, i: nat, a: string, b: string)
    requires i <= |src| && src[i..] == a + b
    ensures i + |a| <= |src| && src[i..i + |a|] == a && src[i + |a|..] == b
  {
    assert src[i..][..|a|] == a && src[i..][|a|..] == b;
  }

  lemma SpaceStands(src: string, i: nat, gap: string)
    requires i + |gap| <= |src| && src[i..i + |gap|] == gap && AllSpace(gap)
    ensures forall k :: i <= k < i + |gap| ==> IsSpace(src[k])
  {
    forall k | i <= k < i + |gap|
      ensures IsSpace(src[k])
    {
      CharAt(src, i, i + |gap|, k);
    }
  }

  lemma SpeltIsNotEmpty(t: Token, s: string, read: NumberReader)
    requires Spells(t, s, read)
    ensures s != ""
  {
  }

  /** A piece ends where its token ends: at the end of the source, at white
      space, or at a next piece that does not extend it. */
  lemma PieceBreaks(src: string, j: nat, ps: seq<Piece>, read: NumberReader)
    requires ps != [] && Separated(ps, read) && j <= |src| && src[j..] == ps[0].gap + Render(ps[1..])
    ensures Breaks(src, j, ps[0].tok.kind)
  {
    hide Spells;
    var after := ps[0].gap + Render(ps[1..]);
    if j < |src| {
      assert src[j] == after[0];
      if ps[0].gap != "" {
        assert after[0] == ps[0].gap[0] && IsSpace(after[0]);
      } else {
        assert after == Render(ps[1..]) && ps[1..] != [];
        assert Adjoins(ps[0], ps[1]) && ps[1..][0] == ps[1];
        assert after[0] == ps[1].spelling[0];
      }
    }
  }

  lemma LexPiece(src: string, i: nat, ps: seq<Piece>, read: NumberReader)
    requires ps != [] && Separated(ps, read) && i <= |src| && src[i..] == Render(ps)
    ensures var next := i + |ps[0].spelling| + |ps[0].gap|;
            && next <= |src| && src[next..] == Render(ps[1..])
            && var rest := LexFrom(src, next, read);
               LexFrom(src, i, read) == if rest.Bad? then rest else Lexed.Tokens([ps[0].tok] + rest.ts)
  {
    hide LexFrom, ScanAt, Spells, Breaks, Adjoins;
    var p, rest := ps[0], Render(ps[1..]);
    SuffixSplit(src, i, p.spelling, p.gap + rest);
    SpeltIsNotEmpty(p.tok, p.spelling, read);
    var j := i + |p.spelling|;
    SuffixSplit(src, j, p.gap, rest);
    PieceBreaks(src, j, ps, read);
    ScanExactly(src, i, p.tok, j, read);
    LexOne(src, i, p.tok, j, read);
    SpaceStands(src, j, p.gap);
    LexSkipsSpace(src, j, j + |p.gap|, read);
  }

  /** Separated pieces lex back to their tokens. */
  lemma {:induction false} LexRendered(src: string, i: nat, ps: seq<Piece>, read: NumberReader)
    requires Separated(ps, read) && i <= |src| && src[i..] == Render(ps)
    ensures LexFrom(src, i, read) == Lexed.Tokens(TokensOf(ps) + [END])
    decreases |ps|
  {
    hide LexFrom, Spells, Adjoins;
    if ps == [] {
      assert |src[i..]| == 0;
      LexEnd(src, read);
    } else {
      LexPiece(src, i, ps, read);
      LexRendered(src, i + |ps[0].spelling| + |ps[0].gap|, ps[1..], read);
      assert [ps[0].tok] + (TokensOf(ps[1..]) + [END]) == TokensOf(ps) + [END];
    }
  }

  lemma LexedAdjoins(src: string, j: nat, p: Piece, rest: seq<Piece>, read: NumberReader)
    requires j <= |src| && Breaks(src, j, p.tok.kind) && src[j..] == p.gap + Render(rest)
    requires rest != [] && Separated(rest, read)
    ensures Adjoins(p, rest[0])
  {
    SpeltIsNotEmpty(rest[0].tok, rest[0].spelling, read);
    hide Spells, Extends;
    if p.gap == "" {
      assert src[j..] == Render(rest);
      assert src[j] == rest[0].spelling[0];
    }
  }

  lemma BlankIsSpace(src: string, i: nat, read: NumberReader)
    requires i < |src| && ScanAt(src, i, read).Blank?
    ensures IsSpace(src[i])
  {
  }

  lemma LexedGoesOn(src: string, i: nat, read: NumberReader)
    requires i < |src| && LexFrom(src, i, read).Tokens?
    ensures !ScanAt(src, i, read).Fault?
  {
    hide ScanAt;
  }

  lemma PiecePut(src: string, i: nat, p: Piece, next: nat, rest: seq<Piece>, read: NumberReader)
    requires Stands(p.tok, src, i, next, read) && p.spelling == src[i..next]
    requires src[next..] == p.gap + Render(rest) && AllSpace(p.gap) && Separated(rest, read)
    ensures src[i..] == Render([p] + rest) && Separated([p] + rest, read)
    ensures TokensOf([p] + rest) == [p.tok] + TokensOf(rest)
  {
    hide Spells, Breaks;
    assert ([p] + rest)[1..] == rest && src[i..] == p.spelling + src[next..];
    if rest != [] {
      LexedAdjoins(src, next, p, rest, read);
    }
  }

  lemma NothingWritten(read: NumberReader)
    ensures AllSpace("") && Separated([], read) && Render([]) == ""
  {
  }

  lemma SpacePut(src: string, i: nat, lead: string, rest: string)
    requires i < |src| && IsSpace(src[i]) && src[i + 1..] == lead + rest && AllSpace(lead)
    ensures src[i..] == [src[i]] + lead + rest && AllSpace([src[i]] + lead)
  {
    assert src[i..] == [src[i]] + src[i + 1..];
    assert [src[i]] + lead + rest == [src[i]] + (lead + rest);
  }

  /** The pieces a source that lexes is made of. */
  lemma {:induction false} LexedPieces(src: string, i: nat, read: NumberReader) returns (lead: string, ps: seq<Piece>)
    requires i <= |src| && LexFrom(src, i, read).Tokens?
    ensures src[i..] == lead + Render(ps) && AllSpace(lead) && Separated(ps, read)
    ensures LexFrom(src, i, read).ts == TokensOf(ps) + [END]
    decreases |src| - i
  {
    hide LexFrom, Stands, ScanAt, Separated, AllSpace;
    lead, ps := "", [];
    NothingWritten(read);
    if i == |src| {
      LexEnd(src, read);
    } else {
      var scan := ScanAt(src, i, read);
      LexedGoesOn(src, i, read);
      if scan.Blank? {
        BlankIsSpace(src, i, read);
        LexBlank(src, i, read);
        lead, ps := LexedPieces(src, i + 1, read);
        SpacePut(src, i, lead, Render(ps));
        lead := [src[i]] + lead;
      } else {
        LexOne(src, i, scan.t, scan.next, read);
        ScanExactly(src, i, scan.t, scan.next, read);
        var gap, rest := LexedPieces(src, scan.next, read);
        var p := Piece(scan.t, src[i..scan.next], gap);
        PiecePut(src, i, p, scan.next, rest, read);
        ps := [p] + rest;
        assert [p.tok] + (TokensOf(rest) + [END]) == TokensOf(ps) + [END];
      }
    }
  }

  /** Lexing, exactly: a source lexes to some tokens if and only if it is white
      space followed by those tokens, each in one of its spellings, with white
      space between them wherever they would otherwise run together, and EOF is
      the last token and the only one not written. */
  lemma LexExactly(src: string, ts: seq<Token>, read: NumberReader)
    ensures LexFrom(src, 0, read) == Lexed.Tokens(ts + [END]) <==> Written(src, ts, read)
    ensures LexFrom(src, 0, read).Tokens? ==> exists us :: LexFrom(src, 0, read).ts == us + [END]
  {
    assert src[0..] == src;
    if LexFrom(src, 0, read).Tokens? {
      var lead, ps := LexedPieces(src, 0, read);
      assert LexFrom(src, 0, read).ts == TokensOf(ps) + [END];
      if TokensOf(ps) + [END] == ts + [END] {
        assert (TokensOf(ps) + [END])[..|TokensOf(ps)|] == TokensOf(ps) && (ts + [END])[..|ts|] == ts;
        assert WrittenAs(src, lead, ps, ts, read);
      }
    }
    if lead, ps :| WrittenAs(src, lead, ps, ts, read) {
      SuffixSplit(src, 0, lead, Render(ps));
      SpaceStands(src, 0, lead);
      LexSkipsSpace(src, 0, |lead|, read);
      LexRendered(src, |lead|, ps, read);
    }
  }
}
