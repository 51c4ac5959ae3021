/**
  An encoder for string literals and the round trip with the lexer's string
  decoder: whatever the encoder writes, the decoder reads back, and every
  way of breaking an encoded body is reported as the error it is.
 */
module StringEscapes {
  import opened Wrappers
  import opened Tokens
  import opened LexSpec

  /**
    The encoding of one character inside a string literal: the shortest one,
    except that `/` is written `\/` when `solidus` is set.
   */
  function EscapeChar(c: char, solidus: bool): string {
    if c == '"' then "\\\""
    else if c == '\\' then "\\\\"
    else if c == '/' && solidus then "\\/"
    else if c == Backspace then "\\b"
    else if c == FormFeed then "\\f"
    else if c == '\n' then "\\n"
    else if c == '\r' then "\\r"
    else if c == '\t' then "\\t"
    else [c]
  }

  /** The body of a string literal spelling `s` (without the quotes), one character at a time. */
  function Escape(s: string, solidus: bool): string {
    if s == [] then [] else EscapeChar(s[0], solidus) + Escape(s[1..], solidus)
  }

  /** Escaping one string after another is escaping each. */
  lemma {:induction false} EscapeAppend(a: string, b: string, solidus: bool)
    ensures Escape(a + b, solidus) == Escape(a, solidus) + Escape(b, solidus)
    decreases |a|
  {
    if a != [] {
      assert (a + b)[0] == a[0] && (a + b)[1..] == a[1..] + b;
      EscapeAppend(a[1..], b, solidus);
    } else {
      assert a + b == b;
    }
  }

  /** A string without quotes, backslashes, solidi or control characters is spelled by itself. */
  lemma {:induction false} EscapePlain(s: string, solidus: bool)
    requires forall i :: 0 <= i < |s| ==> ' ' <= s[i] && s[i] != '"' && s[i] != '\\' && s[i] != '/'
    ensures Escape(s, solidus) == s
    decreases |s|
  {
    if s != [] {
      EscapePlain(s[1..], solidus);
      assert s == [s[0]] + s[1..];
    }
  }

  /** Between two runs that need no escapes, one character is escaped by the table alone. */
  lemma EscapeBetween(a: string, c: char, b: string, solidus: bool)
    requires forall i :: 0 <= i < |a| ==> ' ' <= a[i] && a[i] != '"' && a[i] != '\\' && a[i] != '/'
    requires forall i :: 0 <= i < |b| ==> ' ' <= b[i] && b[i] != '"' && b[i] != '\\' && b[i] != '/'
    ensures Escape(a + ([c] + b), solidus) == a + (EscapeChar(c, solidus) + b)
  {
    EscapeAppend(a, [c] + b, solidus);
    EscapeAppend([c], b, solidus);
    EscapePlain(a, solidus);
    EscapePlain(b, solidus);
    assert Escape([c], solidus) == EscapeChar(c, solidus);
  }

  /** Strings the escape table can spell: every control character in them has its own escape. */
  predicate Encodable(s: string) {
    forall i :: 0 <= i < |s| ==> ' ' <= s[i] || IsEscapedControl(s[i])
  }

  /** Dropping the first character keeps a string encodable. */
  lemma EncodableTail(s: string)
    requires s != [] && Encodable(s)
    ensures Encodable(s[1..])
  {
    forall k | 0 <= k < |s| - 1 ensures ' ' <= s[1..][k] || IsEscapedControl(s[1..][k]) {
      assert s[1..][k] == s[k + 1];
    }
  }

  /** Decoding the encoding of one character, ending at `j`, yields it and continues at `j`. */
  lemma DecodeEscapeChar(t: seq<char>, i: nat, c: char, solidus: bool, j: nat)
    requires (' ' <= c || IsEscapedControl(c)) && Spells(t, i, EscapeChar(c, solidus)) && j == i + |EscapeChar(c, solidus)|
    ensures j <= |t| && DecodeString(t, i) == Prepend([c], DecodeString(t, j))
  {
    SpellsBound(t, i, EscapeChar(c, solidus));
    SpellsAt(t, i, EscapeChar(c, solidus), 0);
    if |EscapeChar(c, solidus)| == 2 {
      SpellsAt(t, i, EscapeChar(c, solidus), 1);
    }
  }

  /**
    Decoding an encoded body, which ends at `n`, decodes it completely and
    then carries on with what follows.
   */
  lemma {:induction false} DecodeAfterEscape(t: seq<char>, i: nat, s: string, solidus: bool, n: nat)
    requires Encodable(s) && Spells(t, i, Escape(s, solidus)) && n == i + |Escape(s, solidus)|
    ensures n <= |t| && DecodeString(t, i) == Prepend(s, DecodeString(t, n))
    decreases |s|
  {
    SpellsBound(t, i, Escape(s, solidus));
    if s == [] {
      PrependEmpty(DecodeString(t, i));
    } else {
      var c, rest := s[0], s[1..];
      var j := i + |EscapeChar(c, solidus)|;
      assert Escape(s, solidus) == EscapeChar(c, solidus) + Escape(rest, solidus);
      EncodableTail(s);
      SpellsAppend(t, i, EscapeChar(c, solidus), Escape(rest, solidus), j);
      DecodeEscapeChar(t, i, c, solidus, j);
      DecodeAfterEscape(t, j, rest, solidus, n);
      PrependPrepend([c], rest, DecodeString(t, n));
      assert [c] + rest == s;
    }
  }

  /** The encoded body is followed at `n` by the text `w`. */
  lemma BodyThen(t: seq<char>, i: nat, s: string, solidus: bool, w: seq<char>, n: nat)
    requires Encodable(s) && Spells(t, i, Escape(s, solidus) + w) && n == i + |Escape(s, solidus)|
    ensures n <= |t| && DecodeString(t, i) == Prepend(s, DecodeString(t, n))
    ensures Spells(t, n, w)
  {
    SpellsAppend(t, i, Escape(s, solidus), w, n);
    DecodeAfterEscape(t, i, s, solidus, n);
  }

  /**
    Round trip: wherever an encoded body followed by a quote occurs in the
    input, decoding from there yields the original string and consumes the
    quote.
   */
  lemma StringRoundTrip(t: seq<char>, i: nat, s: string, solidus: bool)
    requires Encodable(s) && Spells(t, i, Escape(s, solidus) + ['"'])
    ensures DecodeString(t, i) == Scan(Ok(s), i + |Escape(s, solidus)| + 1)
  {
    var n := i + |Escape(s, solidus)|;
    BodyThen(t, i, s, solidus, ['"'], n);
    SpellsAt(t, n, ['"'], 0);
    assert s + [] == s;
  }

  /** An encoded body that runs to the end of input is an unterminated string. */
  lemma DecodeUnterminated(t: seq<char>, i: nat, s: string, solidus: bool)
    requires Encodable(s) && Spells(t, i, Escape(s, solidus)) && |t| == i + |Escape(s, solidus)|
    ensures DecodeString(t, i) == Scan(Err(Unterminated), |t|)
  {
    DecodeAfterEscape(t, i, s, solidus, |t|);
  }

  /** A backslash as the last character: the current character is then 0, which is no escape. */
  lemma DecodeBackslashAtEnd(t: seq<char>, i: nat, s: string, solidus: bool)
    requires Encodable(s) && Spells(t, i, Escape(s, solidus) + ['\\']) && |t| == i + |Escape(s, solidus)| + 1
    ensures DecodeString(t, i) == Scan(Err(InvalidEscape('\0')), |t|)
  {
    var n := i + |Escape(s, solidus)|;
    BodyThen(t, i, s, solidus, ['\\'], n);
    SpellsAt(t, n, ['\\'], 0);
  }

  /** A backslash before a character outside the escape table: the error names that character. */
  lemma DecodeBadEscape(t: seq<char>, i: nat, s: string, solidus: bool, c: char)
    requires Encodable(s) && Spells(t, i, Escape(s, solidus) + ['\\', c]) && Unescape(c) == None
    ensures DecodeString(t, i) == Scan(Err(InvalidEscape(c)), i + |Escape(s, solidus)| + 1)
  {
    var n := i + |Escape(s, solidus)|;
    BodyThen(t, i, s, solidus, ['\\', c], n);
    SpellsAt(t, n, ['\\', c], 0);
    SpellsAt(t, n, ['\\', c], 1);
  }

  /** A raw control character: decoding stops on it, without consuming it. */
  lemma DecodeControlChar(t: seq<char>, i: nat, s: string, solidus: bool, c: char)
    requires Encodable(s) && Spells(t, i, Escape(s, solidus) + [c]) && c < ' '
    ensures DecodeString(t, i) == Scan(Err(ControlChar(c)), i + |Escape(s, solidus)|)
  {
    var n := i + |Escape(s, solidus)|;
    BodyThen(t, i, s, solidus, [c], n);
    SpellsAt(t, n, [c], 0);
  }

  /** An opening quote at `i` followed by the text `w`. */
  lemma Quoted(t: seq<char>, i: nat, w: seq<char>)
    requires Spells(t, i, ['"'] + w)
    ensures i < |t| && t[i] == '"' && Spells(t, i + 1, w)
  {
    SpellsAppend(t, i, ['"'], w, i + 1);
    SpellsAt(t, i, ['"'], 0);
  }

  /** The lexer turns a quoted encoding of `s` into one String token with literal `s`. */
  lemma LexString(t: seq<char>, i: nat, s: string, solidus: bool)
    requires Encodable(s) && Spells(t, i, ['"'] + (Escape(s, solidus) + ['"']))
    ensures Lex(t, i) == Lexed(Token(TokenString, s), i + |Escape(s, solidus)| + 2)
  {
    Quoted(t, i, Escape(s, solidus) + ['"']);
    LexQuoted(t, i);
    StringRoundTrip(t, i + 1, s, solidus);
  }

  /** A string error becomes an error token whose literal is the error's message: end of input. */
  lemma LexUnterminated(t: seq<char>, i: nat, s: string, solidus: bool)
    requires Encodable(s) && Spells(t, i, ['"'] + Escape(s, solidus)) && |t| == i + 1 + |Escape(s, solidus)|
    ensures Lex(t, i) == Lexed(Token(TokenError, "unterminated string"), |t|)
  {
    Quoted(t, i, Escape(s, solidus));
    LexQuoted(t, i);
    DecodeUnterminated(t, i + 1, s, solidus);
  }

  /** A backslash before a character outside the table: the error names that character. */
  lemma LexInvalidEscape(t: seq<char>, i: nat, s: string, solidus: bool, c: char)
    requires Encodable(s) && Spells(t, i, ['"'] + (Escape(s, solidus) + ['\\', c])) && Unescape(c) == None
    ensures Lex(t, i) == Lexed(Token(TokenError, "invalid escape sequence: \\" + [c]), i + |Escape(s, solidus)| + 2)
  {
    Quoted(t, i, Escape(s, solidus) + ['\\', c]);
    LexQuoted(t, i);
    DecodeBadEscape(t, i + 1, s, solidus, c);
  }

  /** A raw control character: the error gives its code in decimal. */
  lemma LexControlChar(t: seq<char>, i: nat, s: string, solidus: bool, c: char)
    requires Encodable(s) && Spells(t, i, ['"'] + (Escape(s, solidus) + [c])) && c < ' '
    ensures Lex(t, i) == Lexed(Token(TokenError, Message(ControlChar(c))), i + |Escape(s, solidus)| + 1)
  {
    Quoted(t, i, Escape(s, solidus) + [c]);
    LexQuoted(t, i);
    DecodeControlChar(t, i + 1, s, solidus, c);
  }
}
