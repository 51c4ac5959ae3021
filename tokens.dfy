/** The token vocabulary shared by the lexer and the parser (main.go, `TokenType` and `Token`), and facts about occurrences in sequences. */
module Tokens {

  /** The closed set of token kinds, in the order of the Go enumeration. */
  datatype TokenType =
    | TokenError
    | TokenLeftBrace
    | TokenRightBrace
    | TokenLeftBracket
    | TokenRightBracket
    | TokenString
    | TokenNumber
    | TokenBoolean
    | TokenNull
    | TokenColon
    | TokenComma
    | TokenEOF

  /** An immutable token: its kind and its literal text. */
  datatype Token = Token(kind: TokenType, literal: string)

  /** The end-of-input token; its literal is empty. */
  const EofToken: Token := Token(TokenEOF, "")

  /** The six punctuation kinds, each spelled by one fixed character. */
  predicate IsPunctuation(k: TokenType) {
    k in {TokenLeftBrace, TokenRightBrace, TokenLeftBracket, TokenRightBracket, TokenColon, TokenComma}
  }

  /** The spelling of a punctuation kind. */
  function Symbol(k: TokenType): string
    requires IsPunctuation(k)
  {
    match k
    case TokenLeftBrace => "{"
    case TokenRightBrace => "}"
    case TokenLeftBracket => "["
    case TokenRightBracket => "]"
    case TokenColon => ":"
    case TokenComma => ","
  }

  /** The token of a punctuation kind, with its spelling as literal. */
  function Punct(k: TokenType): Token
    requires IsPunctuation(k)
  {
    Token(k, Symbol(k))
  }

  /** A token after which the parser never asks for another one: end of input or a lexical error. */
  predicate Terminal(t: Token) {
    t.kind == TokenEOF || t.kind == TokenError
  }

  // ---------------------------------------------------------------- occurrences in a sequence

  /** The elements `w` (tokens, or characters) occur in `ts` from index `k` on. */
  predicate Spells<T(==)>(ts: seq<T>, k: nat, w: seq<T>)
    decreases |w|
  {
    if w == [] then k <= |ts| else k < |ts| && ts[k] == w[0] && Spells(ts, k + 1, w[1..])
  }

  /** An occurrence of `a + b` is an occurrence of `a` followed, at `m`, by one of `b`; and conversely. */
  lemma {:induction false} SpellsAppend<T>(ts: seq<T>, k: nat, a: seq<T>, b: seq<T>, m: nat)
    requires m == k + |a|
    ensures Spells(ts, k, a + b) <==> Spells(ts, k, a) && Spells(ts, m, b)
    decreases |a|
  {
    if a == [] {
      assert a + b == b;
      if Spells(ts, k, b) {
        SpellsBound(ts, k, b);
      }
    } else {
      assert (a + b)[0] == a[0] && (a + b)[1..] == a[1..] + b;
      SpellsAppend(ts, k + 1, a[1..], b, m);
    }
  }

  /** An occurrence lies inside the sequence. */
  lemma {:induction false} SpellsBound<T>(ts: seq<T>, k: nat, w: seq<T>)
    requires Spells(ts, k, w)
    ensures k + |w| <= |ts|
    decreases |w|
  {
    if w != [] {
      SpellsBound(ts, k + 1, w[1..]);
    }
  }

  /** A one-element spelling is the element at that index. */
  lemma SpellsOne<T>(ts: seq<T>, k: nat, t: T)
    ensures Spells(ts, k, [t]) <==> k < |ts| && ts[k] == t
  {
    assert [t][1..] == [];
  }

  /** Each element of an occurrence is at its place. */
  lemma {:induction false} SpellsAt<T>(ts: seq<T>, k: nat, w: seq<T>, j: nat)
    requires Spells(ts, k, w) && j < |w|
    ensures k + j < |ts| && ts[k + j] == w[j]
    decreases j
  {
    if j > 0 {
      SpellsAt(ts, k + 1, w[1..], j - 1);
    }
  }

  /** An occurrence of `[x] + w` is `x` at `k` followed by an occurrence of `w`. */
  lemma SpellsCons<T>(ts: seq<T>, k: nat, x: T, w: seq<T>)
    ensures Spells(ts, k, [x] + w) <==> k < |ts| && ts[k] == x && Spells(ts, k + 1, w)
  {
    assert ([x] + w)[0] == x && ([x] + w)[1..] == w;
  }

  /** A sequence made of the first item of `w` and then a sequence beginning with the rest of `w` begins with `w`. */
  lemma SpellsFront<T>(us: seq<T>, rest: seq<T>, w: seq<T>)
    requires w != [] && us == [w[0]] + rest && Spells(rest, 0, w[1..])
    ensures Spells(us, 0, w)
  {
    SpellsShift(w[0], rest, 0, w[1..]);
    SpellsCons(us, 0, w[0], w[1..]);
    assert [w[0]] + w[1..] == w;
  }

  /** An occurrence of `a`, then `x`, then `b`, taken apart. */
  lemma SpellsSplit<T>(ts: seq<T>, k: nat, a: seq<T>, x: T, b: seq<T>)
    requires Spells(ts, k, a + ([x] + b))
    ensures Spells(ts, k, a) && k + |a| < |ts| && ts[k + |a|] == x && Spells(ts, k + |a| + 1, b)
  {
    SpellsAppend(ts, k, a, [x] + b, k + |a|);
    SpellsCons(ts, k + |a|, x, b);
  }

  /** An occurrence is the slice of the sequence it covers. */
  lemma {:induction false} SpellsSlice<T>(ts: seq<T>, k: nat, w: seq<T>)
    ensures Spells(ts, k, w) <==> k + |w| <= |ts| && ts[k..k + |w|] == w
    decreases |w|
  {
    if w != [] {
      SpellsSlice(ts, k + 1, w[1..]);
      if k + |w| <= |ts| {
        assert ts[k..k + |w|] == [ts[k]] + ts[k + 1..k + |w|];
      }
    }
  }

  /** An element in front of the sequence moves every occurrence one place on. */
  lemma {:induction false} SpellsShift<T>(x: T, ts: seq<T>, k: nat, w: seq<T>)
    ensures Spells([x] + ts, k + 1, w) <==> Spells(ts, k, w)
    decreases |w|
  {
    if w != [] {
      SpellsShift(x, ts, k + 1, w[1..]);
      if k < |ts| {
        assert ([x] + ts)[k + 1] == ts[k];
      }
    }
  }

  /** Texts that share a prefix are equal exactly when what follows it is. */
  lemma PrefixCancel(p: string, a: string, b: string)
    requires p + a == p + b
    ensures a == b
  {
    assert a == (p + a)[|p|..];
  }

  /** The same for texts between a common prefix and a common suffix. */
  lemma InfixCancel(p: string, a: string, b: string, q: string)
    requires p + a + q == p + b + q
    ensures a == b
  {
    assert |a| == |b|;
    assert a == (p + a + q)[|p|..|p| + |a|];
  }
}
