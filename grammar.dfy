/**
  What the recursive-descent parser of main.go decides, as pure functions
  over the token sequence it reads. Each function looks at the token at
  index `k`, exactly as the parser looks at its one lookahead token, and
  says either where the construct it recognises ends (the index of the new
  lookahead) or which error the parser reports and at which token.
 */
module Grammar {
  import opened Tokens

  /** The parser's errors, one per `fmt.Errorf` of main.go; each carries the literal of the offending token. */
  datatype ParseError =
    | ExpectedObject(got: string)
    | ExpectedKey(got: string)
    | ExpectedColon(got: string)
    | ExpectedCommaOrBrace(got: string)
    | ExpectedCommaOrBracket(got: string)
    | ExpectedValue(got: string)
    | InvalidValue(cause: ParseError)

  /** The message text of an error, as the Go format strings spell it. */
  function ErrorText(e: ParseError): string {
    match e
    case ExpectedObject(got) => "expected '{', got '" + got + "'"
    case ExpectedKey(got) => "expected string key, got " + got
    case ExpectedColon(got) => "expected ':', got '" + got + "'"
    case ExpectedCommaOrBrace(got) => "expected ',' or '}', got '" + got + "'"
    case ExpectedCommaOrBracket(got) => "expected ',' or ']', got '" + got + "'"
    case ExpectedValue(got) => "expected value, got " + got
    case InvalidValue(cause) => "invalid value: " + ErrorText(cause)
  }

  /** Different parse errors have different messages: the message identifies the error and the offending literal. */
  lemma {:induction false} ErrorTextInjective(e1: ParseError, e2: ParseError)
    requires ErrorText(e1) == ErrorText(e2)
    ensures e1 == e2
    decreases e1
  {
    var m := ErrorText(e1);
    match e1
    case ExpectedObject(got) =>
      assert m[0] == 'e' && m[9] == '\'' && m[10] == '{';
      if e2.ExpectedObject? {
        InfixCancel("expected '{', got '", got, e2.got, "'");
      }
    case ExpectedKey(got) =>
      assert m[0] == 'e' && m[9] == 's';
      if e2.ExpectedKey? {
        PrefixCancel("expected string key, got ", got, e2.got);
      }
    case ExpectedColon(got) =>
      assert m[0] == 'e' && m[9] == '\'' && m[10] == ':';
      if e2.ExpectedColon? {
        InfixCancel("expected ':', got '", got, e2.got, "'");
      }
    case ExpectedCommaOrBrace(got) =>
      assert m[0] == 'e' && m[9] == '\'' && m[10] == ',' && m[17] == '}';
      if e2.ExpectedCommaOrBrace? {
        InfixCancel("expected ',' or '}', got '", got, e2.got, "'");
      }
    case ExpectedCommaOrBracket(got) =>
      assert m[0] == 'e' && m[9] == '\'' && m[10] == ',' && m[17] == ']';
      if e2.ExpectedCommaOrBracket? {
        InfixCancel("expected ',' or ']', got '", got, e2.got, "'");
      }
    case ExpectedValue(got) =>
      assert m[0] == 'e' && m[9] == 'v';
      if e2.ExpectedValue? {
        PrefixCancel("expected value, got ", got, e2.got);
      }
    case InvalidValue(cause) =>
      assert m[0] == 'i';
      if e2.InvalidValue? {
        PrefixCancel("invalid value: ", ErrorText(cause), ErrorText(e2.cause));
        ErrorTextInjective(cause, e2.cause);
      }
  }

  /** Success, with the index of the next lookahead token, or the first error and the token where it arose. */
  datatype Outcome = Accept(next: nat) | Reject(error: ParseError, at: nat)

  /**
    A token sequence the parser can read: it ends with an end-of-input or
    error token, the only tokens the parser never moves past.
   */
  predicate Readable(ts: seq<Token>) {
    0 < |ts| && Terminal(ts[|ts| - 1])
  }

  /** The outcome is where it may be: after `k` on success, at or after `k` on error, inside `ts`. */
  predicate Within(ts: seq<Token>, k: nat, o: Outcome) {
    match o
    case Accept(j) => k < j < |ts|
    case Reject(_, at) => k <= at < |ts|
  }

  /** A scalar value: one string, number, boolean or null token (parseValue's first case). */
  predicate IsScalar(kind: TokenType) {
    kind == TokenString || kind == TokenNumber || kind == TokenBoolean || kind == TokenNull
  }

  /** parseValue: a scalar, an object or an array; anything else, an error or end-of-input token included, is rejected. */
  function ValueAt(ts: seq<Token>, k: nat): (o: Outcome)
    requires Readable(ts) && k < |ts|
    ensures Within(ts, k, o)
    decreases |ts| - k, 1
  {
    var tok := ts[k];
    if IsScalar(tok.kind) then Accept(k + 1)
    else if tok.kind == TokenLeftBrace then ObjectAt(ts, k)
    else if tok.kind == TokenLeftBracket then ArrayAt(ts, k)
    else Reject(ExpectedValue(tok.literal), k)
  }

  /**
    ParseObject: a left brace, then either a right brace (the empty object) or
    the members. Whatever follows the closing brace is left for the caller.
   */
  function ObjectAt(ts: seq<Token>, k: nat): (o: Outcome)
    requires Readable(ts) && k < |ts|
    ensures Within(ts, k, o)
    decreases |ts| - k, 0
  {
    if ts[k].kind != TokenLeftBrace then Reject(ExpectedObject(ts[k].literal), k)
    else if ts[k + 1].kind == TokenRightBrace then Accept(k + 2)
    else MembersAt(ts, k + 1)
  }

  /**
    The first part of a turn of ParseObject's loop, at a key: a string, a
    colon and a value. A failing value is reported wrapped in InvalidValue.
   */
  function MemberAt(ts: seq<Token>, k: nat): (o: Outcome)
    requires Readable(ts) && k < |ts|
    ensures Within(ts, k, o)
    decreases |ts| - k, 0
  {
    if ts[k].kind != TokenString then Reject(ExpectedKey(ts[k].literal), k)
    else if ts[k + 1].kind != TokenColon then Reject(ExpectedColon(ts[k + 1].literal), k + 1)
    else
      match ValueAt(ts, k + 2)
      case Reject(e, at) => Reject(InvalidValue(e), at)
      case Accept(j) => Accept(j)
  }

  /**
    The turns of ParseObject's loop from a key on: a member, then a right
    brace (done) or a comma (next member).
   */
  function MembersAt(ts: seq<Token>, k: nat): (o: Outcome)
    requires Readable(ts) && k < |ts|
    ensures Within(ts, k, o)
    decreases |ts| - k, 1
  {
    match MemberAt(ts, k)
    case Reject(e, at) => Reject(e, at)
    case Accept(j) =>
      if ts[j].kind == TokenRightBrace then Accept(j + 1)
      else if ts[j].kind != TokenComma then Reject(ExpectedCommaOrBrace(ts[j].literal), j)
      else MembersAt(ts, j + 1)
  }

  /** parseArray, at its left bracket: a right bracket (the empty array) or the elements. */
  function ArrayAt(ts: seq<Token>, k: nat): (o: Outcome)
    requires Readable(ts) && k < |ts| && ts[k].kind == TokenLeftBracket
    ensures Within(ts, k, o)
    decreases |ts| - k, 0
  {
    if ts[k + 1].kind == TokenRightBracket then Accept(k + 2)
    else ElementsAt(ts, k + 1)
  }

  /**
    One turn of parseArray's loop: a value, then a right bracket (done) or a
    comma (next element). A failing value is reported as it is.
   */
  function ElementsAt(ts: seq<Token>, k: nat): (o: Outcome)
    requires Readable(ts) && k < |ts|
    ensures Within(ts, k, o)
    decreases |ts| - k, 2
  {
    match ValueAt(ts, k)
    case Reject(e, at) => Reject(e, at)
    case Accept(j) =>
      if ts[j].kind == TokenRightBracket then Accept(j + 1)
      else if ts[j].kind != TokenComma then Reject(ExpectedCommaOrBracket(ts[j].literal), j)
      else ElementsAt(ts, j + 1)
  }

  /** An accepted member list: a key, a colon and a value, then the closing brace or a comma and more members. */
  lemma MembersStep(ts: seq<Token>, k: nat)
    requires Readable(ts) && k < |ts| && MembersAt(ts, k).Accept?
    ensures MemberAt(ts, k).Accept?
    ensures var j := MemberAt(ts, k).next;
      || (ts[j].kind == TokenRightBrace && MembersAt(ts, k) == Accept(j + 1))
      || (ts[j].kind == TokenComma && j + 1 < |ts| && MembersAt(ts, k) == MembersAt(ts, j + 1))
  {
  }

  /** An accepted element list: a value, then the closing bracket or a comma and more elements. */
  lemma ElementsStep(ts: seq<Token>, k: nat)
    requires Readable(ts) && k < |ts| && ElementsAt(ts, k).Accept?
    ensures ValueAt(ts, k).Accept?
    ensures var j := ValueAt(ts, k).next;
      || (ts[j].kind == TokenRightBracket && ElementsAt(ts, k) == Accept(j + 1))
      || (ts[j].kind == TokenComma && j + 1 < |ts| && ElementsAt(ts, k) == ElementsAt(ts, j + 1))
  {
  }

  /** A turn of parseArray's loop once its value is accepted, ending at `j`. */
  lemma ElementsTurn(ts: seq<Token>, k: nat, j: nat)
    requires Readable(ts) && k < |ts| && ValueAt(ts, k) == Accept(j)
    ensures j < |ts|
    ensures ts[j].kind == TokenRightBracket ==> ElementsAt(ts, k) == Accept(j + 1)
    ensures ts[j].kind != TokenRightBracket && ts[j].kind != TokenComma ==>
      ElementsAt(ts, k) == Reject(ExpectedCommaOrBracket(ts[j].literal), j)
    ensures ts[j].kind == TokenComma ==> j + 1 < |ts| && ElementsAt(ts, k) == ElementsAt(ts, j + 1)
  {
  }

  /** A turn of ParseObject's loop once its member is accepted, ending at `j`. */
  lemma MembersTurn(ts: seq<Token>, k: nat, j: nat)
    requires Readable(ts) && k < |ts| && MemberAt(ts, k) == Accept(j)
    ensures j < |ts|
    ensures ts[j].kind == TokenRightBrace ==> MembersAt(ts, k) == Accept(j + 1)
    ensures ts[j].kind != TokenRightBrace && ts[j].kind != TokenComma ==>
      MembersAt(ts, k) == Reject(ExpectedCommaOrBrace(ts[j].literal), j)
    ensures ts[j].kind == TokenComma ==> j + 1 < |ts| && MembersAt(ts, k) == MembersAt(ts, j + 1)
  {
  }
}
