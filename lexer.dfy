/**
  The streaming lexer of main.go: a reader that delivers the input one
  character at a time, the current character (0 once the input is
  exhausted) and a sticky end-of-input flag. NextToken hands out one token
  per call.

  The reader is modelled as the whole input and the index `cur` of the
  current character, `|input|` at end of input; the text the lexer has not
  yet classified is always `input[cur..]`.
 */
module Lexing {
  import opened Wrappers
  import opened Tokens
  import opened LexSpec

  /** Appending the character at `i` extends the slice `t[start..i]` by one. */
  lemma Grow(t: seq<char>, start: nat, i: nat)
    requires start <= i < |t|
    ensures t[start..i] + [t[i]] == t[start..i + 1]
  {
  }

  /** Before anything but a minus sign, the start state and the integer state read alike. */
  lemma StartAsInt(t: seq<char>, i: nat)
    requires i <= |t| && (i == |t| || t[i] != '-')
    ensures ScanEnd(Start, t, i) == ScanEnd(Int, t, i)
  {
  }

  /** After the exponent marker, unless a sign follows, the marker state and the digit state read alike. */
  lemma ExpAsDigits(t: seq<char>, i: nat)
    requires i <= |t| && (i == |t| || (t[i] != '+' && t[i] != '-'))
    ensures ScanEnd(Exp, t, i) == ScanEnd(ExpDigits, t, i)
  {
  }

  class Lexer {
    /** Everything the reader will deliver; its byte source and UTF-8 decoding are not modelled. */
    const input: seq<char>
    /** Index of the current character in `input`; `|input|` once the input is exhausted. */
    var cur: int
    /** The current character, or '\0' at end of input. */
    var ch: char
    /** Set once a read finds the input exhausted (Go's `err == io.EOF`); never cleared. */
    var atEof: bool

    ghost predicate Valid()
      reads this
    {
      && 0 <= cur <= |input|
      && (atEof <==> cur == |input|)
      && ch == (if atEof then '\0' else input[cur])
    }

    /** A lexer over `input`, positioned on its first character. */
    constructor (input: seq<char>)
      ensures Valid() && this.input == input && cur == 0
    {
      this.input := input;
      cur := -1;
      ch := '\0';
      atEof := false;
      new;
      ReadChar();
    }

    /** Makes the next character current; at end of input the current character becomes 0. */
    method ReadChar()
      requires -1 <= cur <= |input| && (atEof ==> cur == |input|) && (!atEof ==> cur < |input|)
      modifies this
      ensures Valid()
      ensures cur == if old(cur) < |input| then old(cur) + 1 else |input|
    {
      if cur + 1 < |input| {
        cur := cur + 1;
        ch := input[cur];
      } else {
        cur := |input|;
        ch := '\0';
        atEof := true;
      }
    }

    /** Skips the run of space, tab, LF and CR at the cursor. */
    method SkipWhitespace()
      requires Valid()
      modifies this
      ensures Valid()
      ensures cur == RunEnd(input, old(cur), Whitespace)
    {
      ghost var start := cur;
      while ch == ' ' || ch == '\t' || ch == '\n' || ch == '\r'
        invariant Valid() && start <= cur
        invariant RunEnd(input, cur, Whitespace) == RunEnd(input, start, Whitespace)
        decreases |input| - cur
      {
        ReadChar();
      }
    }

    /**
      Reads a string whose opening quote is the current character, decoding
      escapes; stops on the first error.
     */
    method ReadString() returns (r: Result<string, LexError>)
      requires Valid() && !atEof
      modifies this
      ensures Valid()
      ensures r == DecodeString(input, old(cur) + 1).result
      ensures cur == DecodeString(input, old(cur) + 1).end
    {
      var result: string := [];
      ReadChar(); // the opening quote
      ghost var start := cur;
      PrependEmpty(DecodeString(input, start));
      while ch != '"' && !atEof
        invariant Valid() && start <= cur
        invariant DecodeString(input, start) == Prepend(result, DecodeString(input, cur))
        decreases |input| - cur
      {
        if ch == '\\' {
          ReadChar();
          // the escape table of the Go switch
          var esc := Unescape(ch);
          if esc.None? {
            return Err(InvalidEscape(ch));
          }
          PrependPrepend(result, [esc.value], DecodeString(input, cur + 1));
          result := result + [esc.value];
        } else if ch < ' ' {
          return Err(ControlChar(ch));
        } else {
          PrependPrepend(result, [ch], DecodeString(input, cur + 1));
          result := result + [ch];
        }
        ReadChar();
      }
      if atEof {
        return Err(Unterminated);
      }
      assert result + [] == result;
      ReadChar(); // the closing quote
      return Ok(result);
    }

    /**
      The number read so far: the text from `start` to the cursor, after
      which the automaton in state `q` ends the number at `n`.
     */
    ghost predicate Scanned(start: int, n: int, q: NumState, result: string)
      reads this
    {
      && Valid() && 0 <= start <= cur
      && result == input[start..cur]
      && ScanEnd(q, input, cur) == n
    }

    /** Takes the current character into the number as the automaton steps on it from `q` to `q'`. */
    method TakeChar(ghost start: int, ghost n: int, ghost q: NumState, ghost q': NumState, prefix: string)
      returns (result: string)
      requires Scanned(start, n, q, prefix) && !atEof && Step(q, ch) == q' != Dead
      modifies this
      ensures Scanned(start, n, q', result) && cur == old(cur) + 1
    {
      Grow(input, start, cur);
      result := prefix + [ch];
      ReadChar();
    }

    /** The loop readNumber runs for the integer, fraction and exponent digits, in a state digits keep. */
    method ReadDigits(ghost start: int, ghost n: int, ghost q: NumState, prefix: string) returns (result: string)
      requires Scanned(start, n, q, prefix) && (q == Int || q == Frac || q == ExpDigits)
      modifies this
      ensures Scanned(start, n, q, result) && (atEof || !IsDigit(ch))
      ensures cur == RunEnd(input, old(cur), Digits)
    {
      result := prefix;
      while !atEof && IsDigit(ch)
        invariant Scanned(start, n, q, result) && old(cur) <= cur
        invariant RunEnd(input, cur, Digits) == RunEnd(input, old(cur), Digits)
        decreases |input| - cur
      {
        result := TakeChar(start, n, q, q, result);
      }
    }

    /** The optional fraction of a number: a dot and its digits. */
    method ReadFraction(ghost start: int, ghost n: int, prefix: string) returns (result: string, ghost q: NumState)
      requires Scanned(start, n, Int, prefix) && (atEof || !IsDigit(ch))
      modifies this
      ensures Scanned(start, n, q, result) && (q == Int || q == Frac)
      ensures atEof || (!IsDigit(ch) && (q == Int ==> ch != '.'))
      ensures cur == if old(ch) == '.' then RunEnd(input, old(cur) + 1, Digits) else old(cur)
    {
      result, q := prefix, Int;
      if ch == '.' {
        result := TakeChar(start, n, Int, Frac, result);
        result := ReadDigits(start, n, Frac, result);
        q := Frac;
      }
    }

    /** The optional exponent of a number: a marker, an optional sign and digits; the number ends after it. */
    method ReadExponent(ghost start: int, ghost n: int, ghost q: NumState, prefix: string) returns (result: string)
      requires Scanned(start, n, q, prefix) && (q == Int || q == Frac)
      requires atEof || (!IsDigit(ch) && (q == Int ==> ch != '.'))
      modifies this
      ensures Valid() && 0 <= start <= cur == n && result == input[start..cur]
    {
      result := prefix;
      if ch == 'e' || ch == 'E' {
        result := TakeChar(start, n, q, Exp, result);
        if ch == '+' || ch == '-' {
          result := TakeChar(start, n, Exp, ExpDigits, result);
        } else {
          ExpAsDigits(input, cur);
        }
        result := ReadDigits(start, n, ExpDigits, result);
      }
    }

    /** Reads a number greedily: optional minus, digits, optional fraction, optional exponent. */
    method ReadNumber() returns (lit: string)
      requires Valid()
      modifies this
      ensures Valid()
      ensures cur == NumberEnd(input, old(cur))
      ensures lit == input[old(cur)..cur]
    {
      ghost var start := cur;
      ghost var n := NumberEnd(input, start);
      var result: string := [];
      if ch == '-' {
        result := TakeChar(start, n, Start, Int, result);
      } else {
        StartAsInt(input, cur);
      }
      result := ReadDigits(start, n, Int, result);
      ghost var q;
      result, q := ReadFraction(start, n, result);
      lit := ReadExponent(start, n, q, result);
    }

    /** Reads the maximal run of letters and underscores at the cursor. */
    method ReadIdentifier() returns (ident: string)
      requires Valid()
      modifies this
      ensures Valid()
      ensures cur == RunEnd(input, old(cur), IdentChars)
      ensures ident == input[old(cur)..cur]
    {
      ghost var start := cur;
      var result: string := [];
      while !atEof && (IsLetter(ch) || ch == '_')
        invariant Valid() && start <= cur
        invariant RunEnd(input, cur, IdentChars) == RunEnd(input, start, IdentChars)
        invariant result == input[start..cur]
        decreases |input| - cur
      {
        Grow(input, start, cur);
        result := result + [ch];
        ReadChar();
      }
      ident := result;
    }

    /** Skips whitespace and classifies the next token. */
    method NextToken() returns (tok: Token)
      requires Valid()
      modifies this
      ensures Valid()
      ensures tok == Lex(input, old(cur)).token
      ensures cur == Lex(input, old(cur)).end
    {
      SkipWhitespace();
      if atEof {
        return EofToken;
      }
      if ch == '{' {
        tok := Token(TokenLeftBrace, [ch]);
        ReadChar();
      } else if ch == '}' {
        tok := Token(TokenRightBrace, [ch]);
        ReadChar();
      } else if ch == '[' {
        tok := Token(TokenLeftBracket, [ch]);
        ReadChar();
      } else if ch == ']' {
        tok := Token(TokenRightBracket, [ch]);
        ReadChar();
      } else if ch == ':' {
        tok := Token(TokenColon, [ch]);
        ReadChar();
      } else if ch == ',' {
        tok := Token(TokenComma, [ch]);
        ReadChar();
      } else if ch == '"' {
        var str := ReadString();
        match str
        case Err(e) => tok := Token(TokenError, Message(e));
        case Ok(s) => tok := Token(TokenString, s);
      } else if IsDigit(ch) || ch == '-' {
        var number := ReadNumber();
        tok := Token(TokenNumber, number);
      } else if IsLetter(ch) {
        var identifier := ReadIdentifier();
        if identifier == "true" || identifier == "false" {
          tok := Token(TokenBoolean, identifier);
        } else if identifier == "null" {
          tok := Token(TokenNull, identifier);
        } else {
          tok := Token(TokenError, "invalid identifier: " + identifier);
        }
      } else {
        tok := Token(TokenError, [ch]);
      }
    }
  }
}
