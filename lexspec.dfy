/**
  The lexer's behaviour as pure functions of the whole input `t` and the
  position `i` of the lexer's current character (`|t|` at end of input).
  Each function says what the lexer produces from position `i` on and the
  position where it stops; the class Lexing.Lexer is proved to do exactly
  that.
 */
module LexSpec {
  import opened Wrappers
  import opened Tokens

  // Character classes. Go's unicode.IsDigit and unicode.IsLetter cover all of
  // Unicode; these are their ASCII parts.
  predicate IsWhitespace(c: char) { c == ' ' || c == '\t' || c == '\n' || c == '\r' }
  predicate IsDigit(c: char) { '0' <= c <= '9' }
  predicate IsLetter(c: char) { 'a' <= c <= 'z' || 'A' <= c <= 'Z' }
  predicate IsIdentChar(c: char) { IsLetter(c) || c == '_' }

  /** The three character classes the lexer scans runs of. */
  datatype CharClass = Whitespace | Digits | IdentChars

  predicate InClass(p: CharClass, c: char) {
    match p
    case Whitespace => IsWhitespace(c)
    case Digits => IsDigit(c)
    case IdentChars => IsIdentChar(c)
  }

  /** Where the run of characters of class `p` that starts at `i` ends. */
  function RunEnd(t: seq<char>, i: nat, p: CharClass): (j: nat)
    requires i <= |t|
    ensures i <= j <= |t|
    decreases |t| - i
  {
    if i < |t| && InClass(p, t[i]) then RunEnd(t, i + 1, p) else i
  }

  /** The run is made of matching characters and stops at the first one that does not match. */
  lemma {:induction false} RunEndMaximal(t: seq<char>, i: nat, p: CharClass)
    requires i <= |t|
    ensures forall k :: i <= k < RunEnd(t, i, p) ==> InClass(p, t[k])
    ensures RunEnd(t, i, p) == |t| || !InClass(p, t[RunEnd(t, i, p)])
    decreases |t| - i
  {
    if i < |t| && InClass(p, t[i]) {
      RunEndMaximal(t, i + 1, p);
    }
  }

  /** Conversely, a run of matching characters that stops at a non-matching one is the run. */
  lemma {:induction false} RunEndIs(t: seq<char>, i: nat, j: nat, p: CharClass)
    requires i <= j <= |t|
    requires forall k :: i <= k < j ==> InClass(p, t[k])
    requires j == |t| || !InClass(p, t[j])
    ensures RunEnd(t, i, p) == j
    decreases j - i
  {
    if i < j {
      RunEndIs(t, i + 1, j, p);
    }
  }

  // ---------------------------------------------------------------- punctuation

  /** The six single-character tokens. */
  function PunctuationKind(c: char): (k: Option<TokenType>)
    ensures k.Some? <==> c == '{' || c == '}' || c == '[' || c == ']' || c == ':' || c == ','
    ensures k.Some? ==> IsPunctuation(k.value) && Symbol(k.value) == [c]
  {
    match c
    case '{' => Some(TokenLeftBrace)
    case '}' => Some(TokenRightBrace)
    case '[' => Some(TokenLeftBracket)
    case ']' => Some(TokenRightBracket)
    case ':' => Some(TokenColon)
    case ',' => Some(TokenComma)
    case _ => None
  }

  // ---------------------------------------------------------------- strings

  const Backspace: char := 8 as char
  const FormFeed: char := 12 as char

  /** The escape table: the character that `\c` stands for, if `c` may follow a backslash. */
  function Unescape(c: char): (r: Option<char>)
    ensures r.Some? <==> c in "\"\\/bfnrt"
    ensures r.Some? ==> (r.value == c <==> c in "\"\\/")
    ensures r.Some? && r.value != c ==> IsEscapedControl(r.value)
  {
    match c
    case '"' => Some('"')
    case '\\' => Some('\\')
    case '/' => Some('/')
    case 'b' => Some(Backspace)
    case 'f' => Some(FormFeed)
    case 'n' => Some('\n')
    case 'r' => Some('\r')
    case 't' => Some('\t')
    case _ => None
  }

  /** The control characters that have an escape of their own. */
  predicate IsEscapedControl(c: char) {
    c == Backspace || c == FormFeed || c == '\n' || c == '\r' || c == '\t'
  }

  /** The three ways reading a string can fail. */
  datatype LexError =
    | InvalidEscape(c: char)   // a backslash followed by `c` ('\0' at end of input)
    | ControlChar(c: char)     // an unescaped character below 32
    | Unterminated             // end of input before the closing quote

  /** The outcome of scanning a string body and the position where the scan stopped. */
  datatype Scan = Scan(result: Result<string, LexError>, end: nat)

  /** Puts text decoded earlier in front of a scan's result. */
  function Prepend(prefix: string, sc: Scan): Scan {
    Scan(match sc.result case Ok(s) => Ok(prefix + s) case Err(e) => Err(e), sc.end)
  }

  /**
    Scans a string body from `i`, just after the opening quote. On success
    the closing quote is consumed; on an invalid escape the scan stops on the
    character after the backslash; on a control character it stops on that
    character; an unterminated string runs to the end of the input.
   */
  function DecodeString(t: seq<char>, i: nat): (sc: Scan)
    requires i <= |t|
    ensures i <= sc.end <= |t|
    ensures sc.result.Ok? ==> i < sc.end && t[sc.end - 1] == '"'
    ensures sc.result == Err(Unterminated) ==> sc.end == |t|
    decreases |t| - i
  {
    if i == |t| then Scan(Err(Unterminated), i)
    else if t[i] == '"' then Scan(Ok([]), i + 1)
    else if t[i] == '\\' then
      if i + 1 == |t| then Scan(Err(InvalidEscape('\0')), i + 1)
      else match Unescape(t[i + 1])
        case None => Scan(Err(InvalidEscape(t[i + 1])), i + 1)
        case Some(d) => Prepend([d], DecodeString(t, i + 2))
    else if t[i] < ' ' then Scan(Err(ControlChar(t[i])), i)
    else Prepend([t[i]], DecodeString(t, i + 1))
  }

  lemma PrependEmpty(sc: Scan)
    ensures Prepend([], sc) == sc
  {
    if sc.result.Ok? {
      assert [] + sc.result.value == sc.result.value;
    }
  }

  lemma PrependPrepend(p: string, q: string, sc: Scan)
    ensures Prepend(p, Prepend(q, sc)) == Prepend(p + q, sc)
  {
    if sc.result.Ok? {
      assert p + (q + sc.result.value) == (p + q) + sc.result.value;
    }
  }

  /** Decimal rendering of a natural number, as Go's `%d` prints it. */
  function Decimal(n: nat): (s: string)
    ensures 0 < |s|
    ensures forall i :: 0 <= i < |s| ==> IsDigit(s[i])
  {
    if n < 10 then [('0' as int + n) as char]
    else Decimal(n / 10) + [('0' as int + n % 10) as char]
  }

  /** The number a string of decimal digits denotes. */
  function DecimalValue(s: string): nat
    requires forall i :: 0 <= i < |s| ==> IsDigit(s[i])
  {
    if s == [] then 0
    else
      assert IsDigit(s[|s| - 1]);
      10 * DecimalValue(s[..|s| - 1]) + (s[|s| - 1] as int - '0' as int)
  }

  /** Reading the decimal rendering of `n` back yields `n`. */
  lemma {:induction false} DecimalRoundTrip(n: nat)
    ensures DecimalValue(Decimal(n)) == n
  {
    if n >= 10 {
      var s := Decimal(n);
      assert s[..|s| - 1] == Decimal(n / 10);
      DecimalRoundTrip(n / 10);
    }
  }

  /** The text of a string error, which becomes the literal of the error token. */
  function Message(e: LexError): string {
    match e
    case InvalidEscape(c) => "invalid escape sequence: \\" + [c]
    case ControlChar(c) => "invalid control character in string: " + Decimal(c as nat)
    case Unterminated => "unterminated string"
  }

  /** Different string errors have different messages: the message identifies the error. */
  lemma MessageInjective(e1: LexError, e2: LexError)
    requires Message(e1) == Message(e2)
    ensures e1 == e2
  {
    var m := Message(e1);
    match e1
    case InvalidEscape(c) =>
      assert m[8] == 'e';
      if e2.InvalidEscape? {
        assert m[|m| - 1] == c && m[|m| - 1] == e2.c;
      }
    case ControlChar(c) =>
      assert m[8] == 'c';
      if e2.ControlChar? {
        PrefixCancel("invalid control character in string: ", Decimal(c as nat), Decimal(e2.c as nat));
        DecimalRoundTrip(c as nat);
        DecimalRoundTrip(e2.c as nat);
      }
    case Unterminated =>
      assert m[0] == 'u';
  }

  /** The token a string scan becomes: the decoded text, or an error carrying the message. */
  function StringToken(sc: Scan): Token {
    match sc.result
    case Ok(s) => Token(TokenString, s)
    case Err(e) => Token(TokenError, Message(e))
  }

  // ---------------------------------------------------------------- numbers

  /**
    The phases of readNumber as states of an automaton over the characters
    it reads: before anything, in the integer digits (after the optional
    minus), in the fraction, just after the exponent marker, in the
    exponent's sign or digits; Dead once the character cannot continue the
    number. readNumber reads exactly as long as the automaton stays alive.
   */
  datatype NumState = Start | Int | Frac | Exp | ExpDigits | Dead

  function Step(q: NumState, c: char): NumState {
    match q
    case Start =>
      if c == '-' || IsDigit(c) then Int
      else if c == '.' then Frac
      else if c == 'e' || c == 'E' then Exp
      else Dead
    case Int =>
      if IsDigit(c) then Int
      else if c == '.' then Frac
      else if c == 'e' || c == 'E' then Exp
      else Dead
    case Frac =>
      if IsDigit(c) then Frac
      else if c == 'e' || c == 'E' then Exp
      else Dead
    case Exp =>
      if c == '+' || c == '-' || IsDigit(c) then ExpDigits else Dead
    case ExpDigits =>
      if IsDigit(c) then ExpDigits else Dead
    case Dead => Dead
  }

  /** Where the automaton, in state `q` at position `i`, would die (or the input ends). */
  function ScanEnd(q: NumState, t: seq<char>, i: nat): (j: nat)
    requires i <= |t|
    ensures i <= j <= |t|
    decreases |t| - i
  {
    if i == |t| || Step(q, t[i]) == Dead then i else ScanEnd(Step(q, t[i]), t, i + 1)
  }

  /** Where the number the lexer reads from `i` ends. */
  function NumberEnd(t: seq<char>, i: nat): (j: nat)
    requires i <= |t|
    ensures i <= j <= |t|
  {
    ScanEnd(Start, t, i)
  }

  // ---------------------------------------------------------------- identifiers

  /** The classification of a complete identifier: a keyword or an error token. */
  function Keyword(ident: string): Token {
    if ident == "true" || ident == "false" then Token(TokenBoolean, ident)
    else if ident == "null" then Token(TokenNull, ident)
    else Token(TokenError, "invalid identifier: " + ident)
  }

  // ---------------------------------------------------------------- tokens

  /** A token and the position where the lexer stopped after producing it. */
  datatype Lexed = Lexed(token: Token, end: nat)

  /** The token the lexer produces at position `i`: whitespace first, then one token. */
  function Lex(t: seq<char>, i: nat): (l: Lexed)
    requires i <= |t|
    ensures i <= l.end <= |t|
    ensures !Terminal(l.token) ==> i < l.end
  {
    Classify(t, RunEnd(t, i, Whitespace))
  }

  /** The token that starts at the current character `t[i]`, which is not whitespace. */
  function Classify(t: seq<char>, i: nat): (l: Lexed)
    requires i <= |t|
    ensures i <= l.end <= |t|
    ensures !Terminal(l.token) ==> i < l.end
    ensures l.token.kind == TokenEOF <==> i == |t|
    ensures i == |t| ==> l == Lexed(EofToken, i)
  {
    if i == |t| then Lexed(EofToken, i)
    else
      var c := t[i];
      match PunctuationKind(c)
      case Some(k) => Lexed(Token(k, [c]), i + 1)
      case None =>
        if c == '"' then
          var sc := DecodeString(t, i + 1);
          Lexed(StringToken(sc), sc.end)
        else if IsDigit(c) || c == '-' then
          var e := NumberEnd(t, i);
          Lexed(Token(TokenNumber, t[i..e]), e)
        else if IsLetter(c) then
          var e := RunEnd(t, i, IdentChars);
          Lexed(Keyword(t[i..e]), e)
        else
          Lexed(Token(TokenError, [c]), i)
  }

  /**
    The tokens the lexer yields from position `i`, each with the position
    where the lexer stopped after it, up to and including the first
    end-of-input or error token: the only ones the parser can ever ask for.
   */
  function Lexemes(t: seq<char>, i: nat): (ls: seq<Lexed>)
    requires i <= |t|
    ensures 0 < |ls| && Terminal(ls[|ls| - 1].token)
    ensures forall k :: 0 <= k < |ls| - 1 ==> !Terminal(ls[k].token)
    ensures forall k :: 0 <= k < |ls| ==> i <= ls[k].end <= |t|
    decreases |t| - i
  {
    var l := Lex(t, i);
    if Terminal(l.token) then [l] else [l] + Lexemes(t, l.end)
  }

  /** The tokens of a sequence of lexemes. */
  function TokensOf(ls: seq<Lexed>): (ts: seq<Token>)
    ensures |ts| == |ls|
    ensures forall k :: 0 <= k < |ls| ==> ts[k] == ls[k].token
  {
    if ls == [] then [] else [ls[0].token] + TokensOf(ls[1..])
  }

  /** The token sequence the parser sees when it starts at position `i`. */
  function Tokenize(t: seq<char>, i: nat): (ts: seq<Token>)
    requires i <= |t|
    ensures 0 < |ts| && Terminal(ts[|ts| - 1])
    ensures forall k :: 0 <= k < |ts| - 1 ==> !Terminal(ts[k])
  {
    TokensOf(Lexemes(t, i))
  }

  // ---------------------------------------------------------------- lemmas

  /** The lexer first skips exactly the run of space, tab, LF and CR, then lexes what follows. */
  lemma LexSkipsWhitespace(t: seq<char>, i: nat, j: nat)
    requires i <= j <= |t|
    requires forall k :: i <= k < j ==> IsWhitespace(t[k])
    ensures Lex(t, i) == Lex(t, j)
  {
    RunEndMaximal(t, j, Whitespace);
    RunEndIs(t, i, RunEnd(t, j, Whitespace), Whitespace);
  }

  /** Each punctuation character is its own token, with the character as literal, and advances by one. */
  lemma LexPunctuation(t: seq<char>, i: nat)
    requires i < |t| && PunctuationKind(t[i]).Some?
    ensures Lex(t, i) == Lexed(Token(PunctuationKind(t[i]).value, [t[i]]), i + 1)
  {
    assert RunEnd(t, i, Whitespace) == i;
  }

  /** Any other character no token starts with is an error token carrying it; nothing is consumed. */
  lemma LexUnrecognised(t: seq<char>, i: nat)
    requires i < |t| && !IsWhitespace(t[i]) && PunctuationKind(t[i]) == None && t[i] != '"'
    requires !IsDigit(t[i]) && t[i] != '-' && !IsLetter(t[i])
    ensures Lex(t, i) == Lexed(Token(TokenError, [t[i]]), i)
  {
    assert RunEnd(t, i, Whitespace) == i;
  }

  /**
    An identifier is the maximal run of letters and underscores starting at a
    letter; it is a Boolean exactly when the run is `true` or `false`, Null
    exactly when it is `null`, and otherwise an error naming the run.
   */
  lemma LexIdentifier(t: seq<char>, i: nat, j: nat)
    requires i < j <= |t| && IsLetter(t[i])
    requires forall k :: i <= k < j ==> IsIdentChar(t[k])
    requires j == |t| || !IsIdentChar(t[j])
    ensures Lex(t, i).end == j
    ensures Lex(t, i).token.kind == TokenBoolean <==> t[i..j] == "true" || t[i..j] == "false"
    ensures Lex(t, i).token.kind == TokenNull <==> t[i..j] == "null"
    ensures Lex(t, i).token.kind in {TokenBoolean, TokenNull, TokenError}
    ensures Lex(t, i).token.kind != TokenError ==> Lex(t, i).token.literal == t[i..j]
    ensures Lex(t, i).token.kind == TokenError ==> Lex(t, i).token.literal == "invalid identifier: " + t[i..j]
  {
    assert RunEnd(t, i, Whitespace) == i;
    RunEndIs(t, i, j, IdentChars);
  }

  /**
    A decoded string holds a control character only where one of the five
    control escapes produced it, and the raw text it came from, closing
    quote included, holds none.
   */
  lemma {:induction false} DecodedControlChars(t: seq<char>, i: nat)
    requires i <= |t|
    ensures var sc := DecodeString(t, i);
      sc.result.Ok? ==>
        && (forall k :: i <= k < sc.end ==> ' ' <= t[k])
        && (forall k :: 0 <= k < |sc.result.value| && sc.result.value[k] < ' ' ==> IsEscapedControl(sc.result.value[k]))
    decreases |t| - i
  {
    if i < |t| && t[i] != '"' {
      if t[i] == '\\' {
        if i + 1 < |t| && Unescape(t[i + 1]).Some? {
          DecodedControlChars(t, i + 2);
        }
      } else if ' ' <= t[i] {
        DecodedControlChars(t, i + 1);
      }
    }
  }

  /** At a quote the lexer scans a string body and stops where the scan stops. */
  lemma LexQuoted(t: seq<char>, i: nat)
    requires i < |t| && t[i] == '"'
    ensures Lex(t, i) == Lexed(StringToken(DecodeString(t, i + 1)), DecodeString(t, i + 1).end)
  {
    assert RunEnd(t, i, Whitespace) == i;
    assert PunctuationKind(t[i]).None?;
  }

  /** The lexer reports end of input exactly when only whitespace remains; it then stays at the end, for good. */
  lemma LexEndOfInput(t: seq<char>, i: nat)
    requires i <= |t|
    ensures Lex(t, i).token.kind == TokenEOF <==> forall k :: i <= k < |t| ==> IsWhitespace(t[k])
    ensures Lex(t, i).token.kind == TokenEOF ==> Lex(t, i) == Lexed(EofToken, |t|)
    ensures Lex(t, |t|) == Lexed(EofToken, |t|)
  {
    RunEndMaximal(t, i, Whitespace);
  }

  /** Each lexeme after the first is what the lexer produces where the previous one stopped. */
  lemma {:induction false} LexemesChain(t: seq<char>, i: nat, k: nat)
    requires i <= |t| && k + 1 < |Lexemes(t, i)|
    ensures Lexemes(t, i)[0] == Lex(t, i)
    ensures Lex(t, Lexemes(t, i)[k].end) == Lexemes(t, i)[k + 1]
    decreases k
  {
    var l := Lex(t, i);
    var rest := Lexemes(t, l.end);
    assert Lexemes(t, i) == [l] + rest;
    if k == 0 {
      assert rest[0] == Lex(t, l.end);
    } else {
      LexemesChain(t, l.end, k - 1);
    }
  }

  /** LexemesChain for every lexeme at once, with token and end position apart. */
  lemma LexemesChained(t: seq<char>, i: nat)
    requires i <= |t|
    ensures Lexemes(t, i)[0] == Lex(t, i)
    ensures forall k {:trigger Lex(t, Lexemes(t, i)[k].end)} :: 0 <= k < |Lexemes(t, i)| - 1 ==>
      Lex(t, Lexemes(t, i)[k].end) == Lexed(Tokenize(t, i)[k + 1], Lexemes(t, i)[k + 1].end)
  {
    var ls := Lexemes(t, i);
    assert ls[0] == Lex(t, i);
    forall k | 0 <= k < |ls| - 1
      ensures Lex(t, ls[k].end) == Lexed(Tokenize(t, i)[k + 1], ls[k + 1].end)
    {
      LexemesChain(t, i, k);
    }
  }

  /** Every punctuation token the lexer produces is spelled by its own symbol. */
  lemma TokenizeSpelling(t: seq<char>, i: nat)
    requires i <= |t|
    ensures forall k :: 0 <= k < |Tokenize(t, i)| && IsPunctuation(Tokenize(t, i)[k].kind) ==>
      Tokenize(t, i)[k].literal == Symbol(Tokenize(t, i)[k].kind)
  {
    var ls := Lexemes(t, i);
    forall k | 0 <= k < |ls| && IsPunctuation(ls[k].token.kind)
      ensures ls[k].token.literal == Symbol(ls[k].token.kind)
    {
      LexemeSpelling(t, i, k);
    }
  }

  /** The `k`-th lexeme from `i`, if it is punctuation, is spelled by its symbol. */
  lemma {:induction false} LexemeSpelling(t: seq<char>, i: nat, k: nat)
    requires i <= |t| && k < |Lexemes(t, i)|
    ensures IsPunctuation(Lexemes(t, i)[k].token.kind) ==>
      Lexemes(t, i)[k].token.literal == Symbol(Lexemes(t, i)[k].token.kind)
    decreases k
  {
    var l := Lex(t, i);
    if k == 0 {
      LexSpelling(t, i);
    } else {
      assert Lexemes(t, i) == [l] + Lexemes(t, l.end);
      LexemeSpelling(t, l.end, k - 1);
    }
  }

  /** A punctuation token from the lexer has its symbol as literal. */
  lemma LexSpelling(t: seq<char>, i: nat)
    requires i <= |t|
    ensures IsPunctuation(Lex(t, i).token.kind) ==> Lex(t, i).token.literal == Symbol(Lex(t, i).token.kind)
  {
    var j := RunEnd(t, i, Whitespace);
    if j < |t| && PunctuationKind(t[j]).None? && t[j] == '"' {
      assert StringToken(DecodeString(t, j + 1)).kind in {TokenString, TokenError};
    }
  }
}
