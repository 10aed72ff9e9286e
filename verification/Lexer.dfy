/** The lexer of the condition language. One `char` stands for one byte. How
    digits are read as a number is a parameter: any partial function will do. */
module Lexer {
  import opened Values
  import opened Tokens

  type NumberReader = string -> Option<real>

  datatype Lexed = Tokens(ts: seq<Token>) | Bad(e: ExprError)

  predicate IsSpace(c: char) { c == ' ' || c == '\t' || c == '\n' || c == '\r' }
  predicate IsDigit(c: char) { '0' <= c <= '9' }
  predicate IsIdentStart(c: char) { c == '_' || 'a' <= c <= 'z' || 'A' <= c <= 'Z' }
  predicate IsIdentPart(c: char) { IsIdentStart(c) || '0' <= c <= '9' }
  predicate IsNumberPart(c: char) { IsDigit(c) || c == '.' }
  predicate IsQuote(c: char) { c == '"' || c == '\'' }

  // ---- the pieces of a token --------------------------------------------

  /** The first position from `j` on whose character is not part of an identifier. */
  function IdentEnd(src: string, j: nat): (k: nat)
    requires j <= |src|
    ensures j <= k <= |src|
    decreases |src| - j
  {
    if j < |src| && IsIdentPart(src[j]) then IdentEnd(src, j + 1) else j
  }

  function NumberEnd(src: string, j: nat): (k: nat)
    requires j <= |src|
    ensures j <= k <= |src|
    decreases |src| - j
  {
    if j < |src| && IsNumberPart(src[j]) then NumberEnd(src, j + 1) else j
  }

  /** The text of a string literal from `j` on and the position of the closing
      quote. A backslash takes the character after it literally. */
  function StringBody(src: string, j: nat, quote: char): (r: Option<(string, nat)>)
    requires j <= |src|
    ensures r.Some? ==> j <= r.value.1 < |src|
    decreases |src| - j
  {
    if j == |src| then None
    else if src[j] == quote then Some(("", j))
    else
      var k := if src[j] == '\\' && j + 1 < |src| then j + 1 else j;
      match StringBody(src, k + 1, quote)
      case None => None
      case Some((text, end)) => Some(([src[k]] + text, end))
  }

  function WordToken(word: string): Token
  {
    if word == "true" then Token(Boolean, word, 1.0)
    else if word == "false" then Token(Boolean, word, 0.0)
    else if word == "null" then Token(Null, word, 0.0)
    else Token(Ident, word, 0.0)
  }

  predicate NextIs(src: string, i: nat, c: char)
  {
    i + 1 < |src| && src[i + 1] == c
  }

  // ---- one token --------------------------------------------------------

  datatype Scan = Blank | Found(t: Token, next: nat) | Fault(e: ExprError)

  /** What stands at position `i`: white space, a token and where it ends, or an error. */
  function ScanAt(src: string, i: nat, read: NumberReader): (r: Scan)
    requires i < |src|
    ensures r.Found? ==> i < r.next <= |src| && r.t.kind != EOF
  {
    var c := src[i];
    if IsSpace(c) then Blank
    else if c == '&' then if NextIs(src, i, '&') then Found(Sym(And, "&&"), i + 2) else Fault(BadCharacter(i))
    else if c == '|' then if NextIs(src, i, '|') then Found(Sym(Or, "||"), i + 2) else Fault(BadCharacter(i))
    else if c == '=' then if NextIs(src, i, '=') then Found(Sym(EqEq, "=="), i + 2) else Fault(BadCharacter(i))
    else if c == '!' then if NextIs(src, i, '=') then Found(Sym(NotEq, "!="), i + 2) else Found(Sym(Not, "!"), i + 1)
    else if c == '>' then
      if NextIs(src, i, '=') then Found(Sym(GreaterEq, ">="), i + 2) else Found(Sym(Greater, ">"), i + 1)
    else if c == '<' then if NextIs(src, i, '=') then Found(Sym(LessEq, "<="), i + 2) else Found(Sym(Less, "<"), i + 1)
    else if c == '.' then Found(Sym(Dot, "."), i + 1)
    else if c == '(' then Found(Sym(LParen, "("), i + 1)
    else if c == ')' then Found(Sym(RParen, ")"), i + 1)
    else if IsQuote(c) then
      match StringBody(src, i + 1, c)
      case None => Fault(UnterminatedString(i))
      case Some((text, end)) => Found(Sym(String, text), end + 1)
    else if IsDigit(c) || (c == '-' && i + 1 < |src| && IsDigit(src[i + 1])) then
      var end := NumberEnd(src, i + 1);
      match read(src[i..end])
      case None => Fault(InvalidNumber(src[i..end]))
      case Some(num) => Found(Token(Number, src[i..end], num), end)
    else if IsIdentStart(c) then
      var end := IdentEnd(src, i + 1);
      Found(WordToken(src[i..end]), end)
    else Fault(BadCharacter(i))
  }

  /** The tokens from position `i` to the end of the source, closed by EOF. */
  function LexFrom(src: string, i: nat, read: NumberReader): (r: Lexed)
    requires i <= |src|
    decreases |src| - i
  {
    if i == |src| then Tokens([Sym(EOF, "")])
    else match ScanAt(src, i, read)
      case Blank => LexFrom(src, i + 1, read)
      case Fault(e) => Bad(e)
      case Found(t, next) =>
        match LexFrom(src, next, read)
        case Bad(e) => Bad(e)
        case Tokens(ts) => Tokens([t] + ts)
  }

  // ---- the scanning loops -----------------------------------------------

  /** `body` with `text` put in front of its text. */
  function Prefixed(text: string, body: Option<(string, nat)>): Option<(string, nat)>
  {
    match body
    case None => None
    case Some((rest, end)) => Some((text + rest, end))
  }

  lemma PrefixedNothing(body: Option<(string, nat)>)
    ensures Prefixed("", body) == body
  {
    if body.Some? {
      assert "" + body.value.0 == body.value.0;
    }
  }

  lemma PrefixedTwice(a: string, b: string, body: Option<(string, nat)>)
    ensures Prefixed(a, Prefixed(b, body)) == Prefixed(a + b, body)
  {
    if body.Some? {
      assert a + (b + body.value.0) == (a + b) + body.value.0;
    }
  }

  method ScanString(src: string, i: nat) returns (text: string, end: nat)
    requires i < |src|
    ensures end <= |src|
    ensures end == |src| <==> StringBody(src, i + 1, src[i]).None?
    ensures end < |src| ==> StringBody(src, i + 1, src[i]) == Some((text, end))
  {
    var quote := src[i];
    var j := i + 1;
    text := "";
    PrefixedNothing(StringBody(src, j, quote));
    while j < |src| && src[j] != quote
      invariant i < j <= |src|
      invariant StringBody(src, i + 1, quote) == Prefixed(text, StringBody(src, j, quote))
      decreases |src| - j
    {
      ghost var before, start := text, j;
      if src[j] == '\\' && j + 1 < |src| {
        j := j + 1;
      }
      text := text + [src[j]];
      j := j + 1;
      assert StringBody(src, start, quote) == Prefixed([src[j - 1]], StringBody(src, j, quote));
      PrefixedTwice(before, [src[j - 1]], StringBody(src, j, quote));
    }
    end := j;
    assert text + "" == text;
  }

  method ScanNumber(src: string, i: nat) returns (end: nat)
    requires i < |src| && (IsDigit(src[i]) || src[i] == '-')
    ensures end == NumberEnd(src, i + 1)
  {
    var j := i;
    if src[j] == '-' {
      j := j + 1;
    }
    while j < |src| && (IsDigit(src[j]) || src[j] == '.')
      invariant i <= j <= |src|
      invariant j == i ==> IsNumberPart(src[i])
      invariant j > i ==> NumberEnd(src, i + 1) == NumberEnd(src, j)
      decreases |src| - j
    {
      j := j + 1;
    }
    end := j;
  }

  method ScanWord(src: string, i: nat) returns (end: nat)
    requires i < |src| && IsIdentStart(src[i])
    ensures end == IdentEnd(src, i + 1)
  {
    var j := i;
    while j < |src| && IsIdentPart(src[j])
      invariant i <= j <= |src|
      invariant j > i ==> IdentEnd(src, i + 1) == IdentEnd(src, j)
      decreases |src| - j
    {
      j := j + 1;
    }
    end := j;
  }

  /** One turn of the lexer's loop: reads what stands at `i`. */
  method ScanToken(src: string, i: nat, read: NumberReader) returns (r: Scan)
    requires i < |src|
    ensures r == ScanAt(src, i, read)
  {
    var c := src[i];
    if IsSpace(c) {
      return Blank;
    } else if c in ['&', '|', '='] {
      if !NextIs(src, i, c) {
        return Fault(BadCharacter(i));
      }
      var kind := match c case '&' => And case '|' => Or case _ => EqEq;
      return Found(Sym(kind, [c, c]), i + 2);
    } else if c in ['!', '>', '<'] {
      var wide := NextIs(src, i, '=');
      var kind :=
        match c
        case '!' => if wide then NotEq else Not
        case '>' => if wide then GreaterEq else Greater
        case _ => if wide then LessEq else Less;
      return Found(Sym(kind, if wide then [c, '='] else [c]), if wide then i + 2 else i + 1);
    } else if c == '.' {
      return Found(Sym(Dot, "."), i + 1);
    } else if c == '(' {
      return Found(Sym(LParen, "("), i + 1);
    } else if c == ')' {
      return Found(Sym(RParen, ")"), i + 1);
    } else if IsQuote(c) {
      var text, end := ScanString(src, i);
      return if end == |src| then Fault(UnterminatedString(i)) else Found(Sym(String, text), end + 1);
    } else if IsDigit(c) || (c == '-' && i + 1 < |src| && IsDigit(src[i + 1])) {
      var end := ScanNumber(src, i);
      var num := read(src[i..end]);
      return if num.None? then Fault(InvalidNumber(src[i..end])) else Found(Token(Number, src[i..end], num.value), end);
    } else if IsIdentStart(c) {
      var end := ScanWord(src, i);
      return Found(WordToken(src[i..end]), end);
    } else {
      return Fault(BadCharacter(i));
    }
  }

  method Lex(src: string, read: NumberReader) returns (r: Lexed)
    ensures r == LexFrom(src, 0, read)
  {
    var tokens := [];
    var i := 0;
    while i < |src|
      invariant 0 <= i <= |src|
      invariant LexFrom(src, i, read).Bad? ==> LexFrom(src, 0, read) == LexFrom(src, i, read)
      invariant LexFrom(src, i, read).Tokens? ==>
                  LexFrom(src, 0, read) == Tokens(tokens + LexFrom(src, i, read).ts)
      decreases |src| - i
    {
      var scan := ScanToken(src, i, read);
      match scan {
        case Blank => i := i + 1;
        case Fault(e) => return Bad(e);
        case Found(t, next) =>
          assert LexFrom(src, next, read).Tokens? ==>
              tokens + ([t] + LexFrom(src, next, read).ts) == (tokens + [t]) + LexFrom(src, next, read).ts;
          tokens := tokens + [t];
          i := next;
      }
    }
    tokens := tokens + [Sym(EOF, "")];
    return Tokens(tokens);
  }
}
