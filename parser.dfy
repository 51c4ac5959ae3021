/**
  The recursive-descent parser of main.go. It holds the lexer and one
  lookahead token, and asks the lexer for the next token only when it has
  accepted the current one.

  Each parse method is proved to report exactly what the grammar of module
  Grammar decides on the token sequence the lexer yields, and
  module JsonTree proves that this grammar accepts exactly the spellings of
  JSON trees. The token sequence is ghost: the parser itself only ever sees
  its lookahead.
 */
module Parsing {
  import opened Wrappers
  import opened Tokens
  import opened LexSpec
  import opened Lexing
  import opened Grammar
  import opened JsonTree

  /** A parse method's verdict (Go's `error`, nil on success) read as a grammar outcome at lookahead index `at`. */
  function Report(err: Option<ParseError>, at: nat): Outcome {
    match err
    case None => Accept(at)
    case Some(e) => Reject(e, at)
  }

  class Parser {
    /** The lexer the tokens come from. */
    const lexer: Lexer
    /** The lookahead token. */
    var token: Token

    /** Where the lexer stood when the parser was made. */
    ghost const start: nat
    /** The lexemes from `start` on, up to the first end-of-input or error token. */
    ghost const stream: seq<Lexed>
    /** Their tokens: everything the parser can ever see. */
    ghost const toks: seq<Token>
    /** The index of the lookahead in `toks`. */
    ghost var idx: nat

    ghost predicate Valid()
      reads this, lexer
    {
      && lexer.Valid()
      && Readable(toks)
      && |stream| == |toks|
      && Chained()
      && idx < |toks|
      && token == toks[idx]
      && lexer.cur == stream[idx].end
    }

    /**
      Each token is what the lexer produces where it stopped after the
      previous one. (The trigger keeps this fact out of sight until a lexer
      step asks for it.)
     */
    ghost predicate Chained()
      requires |stream| == |toks|
    {
      forall k {:trigger Lex(lexer.input, stream[k].end)} :: 0 <= k < |stream| - 1 ==>
        stream[k].end <= |lexer.input| && Lex(lexer.input, stream[k].end) == Lexed(toks[k + 1], stream[k + 1].end)
    }

    /** NewParser: a parser over `lexer`, whose first token is read at once. */
    constructor (lexer: Lexer)
      requires lexer.Valid()
      modifies lexer
      ensures Valid() && this.lexer == lexer && idx == 0
      ensures start == old(lexer.cur) && stream == Lexemes(lexer.input, start) && toks == Tokenize(lexer.input, start)
    {
      ghost var at := lexer.cur;
      var first := lexer.NextToken();
      this.lexer := lexer;
      start := at;
      stream := Lexemes(lexer.input, at);
      toks := Tokenize(lexer.input, at);
      idx := 0;
      token := first;
      new;
      LexemesChained(lexer.input, start);
    }

    /** Replaces the lookahead by the lexer's next token. */
    method NextToken()
      requires Valid() && !Terminal(token)
      modifies this, lexer
      ensures Valid() && idx == old(idx) + 1
    {
      assert Lex(lexer.input, stream[idx].end) == Lexed(toks[idx + 1], stream[idx + 1].end);
      token := lexer.NextToken();
      idx := idx + 1;
    }

    /** parseValue: a scalar, an object or an array. */
    method ParseValue() returns (err: Option<ParseError>)
      requires Valid()
      modifies this, lexer
      ensures Valid()
      ensures Report(err, idx) == ValueAt(toks, old(idx))
      decreases |toks| - idx, 1
    {
      if IsScalar(token.kind) {
        NextToken();
        return None;
      } else if token.kind == TokenLeftBrace {
        err := ParseObject();
      } else if token.kind == TokenLeftBracket {
        err := ParseArray();
      } else {
        return Some(ExpectedValue(token.literal));
      }
    }

    /**
      ParseObject: a left brace, then a right brace or members separated by
      commas and closed by a right brace. The right brace ends the object,
      whatever token follows it.
     */
    method ParseObject() returns (err: Option<ParseError>)
      requires Valid()
      modifies this, lexer
      ensures Valid()
      ensures Report(err, idx) == ObjectAt(toks, old(idx))
      decreases |toks| - idx, 0
    {
      if token.kind != TokenLeftBrace {
        return Some(ExpectedObject(token.literal));
      }
      NextToken();
      if token.kind == TokenRightBrace {
        // main.go then tests for end of input, but returns nil either way
        NextToken();
        return None;
      }
      while true
        invariant Valid() && old(idx) < idx
        invariant ObjectAt(toks, old(idx)) == MembersAt(toks, idx)
        decreases |toks| - idx
      {
        ghost var key := idx;
        var memberErr := ParseMember();
        if memberErr.Some? {
          return memberErr;
        }
        assert MemberAt(toks, key) == Accept(idx);
        if token.kind == TokenRightBrace {
          // as above: nil whether or not the input ends here
          NextToken();
          return None;
        }
        if token.kind != TokenComma {
          return Some(ExpectedCommaOrBrace(token.literal));
        }
        NextToken();
      }
    }

    /** The start of a turn of ParseObject's loop: a key, a colon and a value. */
    method ParseMember() returns (err: Option<ParseError>)
      requires Valid()
      modifies this, lexer
      ensures Valid()
      ensures Report(err, idx) == MemberAt(toks, old(idx))
      decreases |toks| - idx, 0
    {
      if token.kind != TokenString {
        return Some(ExpectedKey(token.literal));
      }
      NextToken();
      if token.kind != TokenColon {
        return Some(ExpectedColon(token.literal));
      }
      NextToken();
      var valueErr := ParseValue();
      if valueErr.Some? {
        return Some(InvalidValue(valueErr.value));
      }
      return None;
    }

    /** parseArray, on its left bracket: a right bracket or values separated by commas and closed by a right bracket. */
    method ParseArray() returns (err: Option<ParseError>)
      requires Valid() && token.kind == TokenLeftBracket
      modifies this, lexer
      ensures Valid()
      ensures Report(err, idx) == ArrayAt(toks, old(idx))
      decreases |toks| - idx, 0
    {
      NextToken();
      if token.kind == TokenRightBracket {
        NextToken();
        return None;
      }
      while true
        invariant Valid() && old(idx) < idx
        invariant ArrayAt(toks, old(idx)) == ElementsAt(toks, idx)
        decreases |toks| - idx
      {
        ghost var k := idx;
        var valueErr := ParseValue();
        if valueErr.Some? {
          return valueErr;
        }
        ElementsTurn(toks, k, idx);
        if token.kind == TokenRightBracket {
          NextToken();
          return None;
        }
        if token.kind != TokenComma {
          return Some(ExpectedCommaOrBracket(token.literal));
        }
        NextToken();
      }
    }
  }

  /**
    What main decides about an input: a lexer over it, a parser over the
    lexer, and one object. The input is valid exactly when its tokens begin
    with the spelling of a JSON object; the error otherwise is the grammar's.
   */
  method Validate(input: string) returns (err: Option<ParseError>)
    ensures err.None? <==> exists ms :: ValidMembers(ms) && Spells(Tokenize(input, 0), 0, Render(Object(ms)))
    ensures err.Some? ==> ObjectAt(Tokenize(input, 0), 0).Reject? && ObjectAt(Tokenize(input, 0), 0).error == err.value
  {
    var lexer := new Lexer(input);
    var parser := new Parser(lexer);
    err := parser.ParseObject();
    TokenizeSpelling(input, 0);
    ObjectAccepts(Tokenize(input, 0), 0);
  }
}
