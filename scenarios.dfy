/**
  Worked examples, each proved about the model: what the lexer makes of a
  few short texts, and what the parser decides on a few token sequences,
  including the inputs on which this checker departs from the JSON grammar.
 */
module Scenarios {
  import opened Tokens
  import opened LexSpec
  import opened Grammar
  import opened JsonTree
  import opened StringEscapes
  import opened NumberShape
  import opened Printing

  const LBrace := Punct(TokenLeftBrace)
  const RBrace := Punct(TokenRightBrace)
  const LBracket := Punct(TokenLeftBracket)
  const RBracket := Punct(TokenRightBracket)
  const Colon := Punct(TokenColon)
  const Comma := Punct(TokenComma)
  const KeyA := Token(TokenString, "a")
  const One := Token(TokenNumber, "1")
  const Two := Token(TokenNumber, "2")
  const Three := Token(TokenNumber, "3")
  const KeyB := Token(TokenString, "b")
  const Null := Token(TokenNull, "null")

  /** `tru`: a near-keyword is a whole identifier, and an error. */
  lemma LexesNearKeyword()
    ensures Lex("tru", 0) == Lexed(Token(TokenError, "invalid identifier: tru"), 3)
  {
    LexIdentifier("tru", 0, 3);
    assert "tru"[0..3] == "tru";
  }

  /** `true_`: the underscore belongs to the identifier, so this is no Boolean. */
  lemma LexesKeywordWithUnderscore()
    ensures Lex("true_", 0) == Lexed(Token(TokenError, "invalid identifier: true_"), 5)
  {
    LexIdentifier("true_", 0, 5);
    assert "true_"[0..5] == "true_";
  }

  /** ` true,`: whitespace is skipped and the keyword ends at the comma. */
  lemma LexesKeyword()
    ensures Lex(" true,", 0) == Lexed(Token(TokenBoolean, "true"), 5)
  {
    var t := " true,";
    assert Lex(t, 0) == Lex(t, 1) by { LexSkipsWhitespace(t, 0, 1); }
    assert t[1..5] == "true";
    LexIdentifier(t, 1, 5);
  }

  /** The tokens of `{"a":1}`: one member, accepted up to the end-of-input token. */
  lemma AcceptsOneMember()
    ensures ObjectAt([LBrace, KeyA, Colon, One, RBrace, EofToken], 0) == Accept(5)
  {
    var ts := [LBrace, KeyA, Colon, One, RBrace, EofToken];
    assert MemberAt(ts, 1) == Accept(4);
    assert MembersAt(ts, 1) == Accept(5);
  }

  /**
    The tokens of `{} {`: the token after the closing brace of the root
    object is read into the lookahead, and both outcomes of the end-of-input
    test on it return nil.
   */
  lemma IgnoresTrailingContent()
    ensures ObjectAt([LBrace, RBrace, LBrace, EofToken], 0) == Accept(2)
  {
  }

  /** The tokens of `[]`: the root must be an object. */
  lemma RejectsArrayAtTop()
    ensures ObjectAt([LBracket, RBracket, EofToken], 0) == Reject(ExpectedObject("["), 0)
  {
  }

  /** The tokens of empty input: the end-of-input token, with its empty literal, is where the object should be. */
  lemma RejectsEmptyInput()
    ensures ObjectAt([EofToken], 0) == Reject(ExpectedObject(""), 0)
  {
  }

  /** The tokens of `{"a":1,}`: a trailing comma in an object asks for another key. */
  lemma RejectsTrailingCommaInObject()
    ensures ObjectAt([LBrace, KeyA, Colon, One, Comma, RBrace, EofToken], 0) == Reject(ExpectedKey("}"), 5)
  {
    var ts := [LBrace, KeyA, Colon, One, Comma, RBrace, EofToken];
    assert MemberAt(ts, 1) == Accept(4);
    assert MembersAt(ts, 5) == Reject(ExpectedKey("}"), 5);
    assert MembersAt(ts, 1) == MembersAt(ts, 5);
  }

  /** The tokens of `{"a"1}`: a missing colon. */
  lemma RejectsMissingColon()
    ensures ObjectAt([LBrace, KeyA, One, RBrace, EofToken], 0) == Reject(ExpectedColon("1"), 2)
  {
    var ts := [LBrace, KeyA, One, RBrace, EofToken];
    assert MemberAt(ts, 1) == Reject(ExpectedColon("1"), 2);
  }

  /** The tokens of `{"a":1 "b"}`: a member must be followed by a comma or the closing brace. */
  lemma RejectsMissingComma()
    ensures ObjectAt([LBrace, KeyA, Colon, One, Token(TokenString, "b"), RBrace, EofToken], 0)
      == Reject(ExpectedCommaOrBrace("b"), 4)
  {
    var ts := [LBrace, KeyA, Colon, One, Token(TokenString, "b"), RBrace, EofToken];
    assert MemberAt(ts, 1) == Accept(4);
  }

  /**
    The tokens of `{"a":[1,]}`: a trailing comma in an array asks for another value; the
    array reports that as it is, and the member around it wraps it.
   */
  lemma RejectsTrailingCommaInArray()
    ensures ObjectAt([LBrace, KeyA, Colon, LBracket, One, Comma, RBracket, RBrace, EofToken], 0)
      == Reject(InvalidValue(ExpectedValue("]")), 6)
  {
    var ts := [LBrace, KeyA, Colon, LBracket, One, Comma, RBracket, RBrace, EofToken];
    var e := ExpectedValue("]");
    assert ValueAt(ts, 4) == Accept(5);
    assert ValueAt(ts, 6) == Reject(e, 6);
    assert ElementsAt(ts, 6) == Reject(e, 6);
    ElementsTurn(ts, 4, 5);
    assert ArrayAt(ts, 3) == Reject(e, 6);
    assert ValueAt(ts, 3) == Reject(e, 6);
    assert MemberAt(ts, 1) == Reject(InvalidValue(e), 6);
    assert MembersAt(ts, 1) == Reject(InvalidValue(e), 6);
  }

  /** The messages main prints for the two errors above. */
  lemma ErrorMessages()
    ensures ErrorText(ExpectedObject("")) == "expected '{', got ''"
    ensures ErrorText(InvalidValue(ExpectedValue("]"))) == "invalid value: expected value, got ]"
  {
  }

  /** The tokens of `{"a":[1 1]}`: an element must be followed by a comma or the closing bracket. */
  lemma RejectsMissingCommaInArray()
    ensures ObjectAt([LBrace, KeyA, Colon, LBracket, One, One, RBracket, RBrace, EofToken], 0)
      == Reject(InvalidValue(ExpectedCommaOrBracket("1")), 5)
  {
    var ts := [LBrace, KeyA, Colon, LBracket, One, One, RBracket, RBrace, EofToken];
    var e := ExpectedCommaOrBracket("1");
    assert ValueAt(ts, 4) == Accept(5);
    ElementsTurn(ts, 4, 5);
    assert ArrayAt(ts, 3) == Reject(e, 5);
    assert ValueAt(ts, 3) == Reject(e, 5);
    assert MemberAt(ts, 1) == Reject(InvalidValue(e), 5);
    assert MembersAt(ts, 1) == Reject(InvalidValue(e), 5);
  }

  /** The tokens of `{"a":x}`: a lexical error where a value is due ends the parse with the lexer's message. */
  lemma RejectsLexicalError()
    ensures ObjectAt([LBrace, KeyA, Colon, Token(TokenError, "invalid identifier: x")], 0)
      == Reject(InvalidValue(ExpectedValue("invalid identifier: x")), 3)
  {
    var ts := [LBrace, KeyA, Colon, Token(TokenError, "invalid identifier: x")];
    assert MemberAt(ts, 1) == Reject(InvalidValue(ExpectedValue("invalid identifier: x")), 3);
  }

  /** The three tokens of the text `{} x`; the last one ends the token sequence. */
  lemma LexesTrailingGarbage()
    ensures Lex("{} x", 0) == Lexed(LBrace, 1)
    ensures Lex("{} x", 1) == Lexed(RBrace, 2)
    ensures Lex("{} x", 2) == Lexed(Token(TokenError, "invalid identifier: x"), 4)
  {
    var t := "{} x";
    LexPunctuation(t, 0);
    LexPunctuation(t, 1);
    assert Lex(t, 2) == Lex(t, 3) by { LexSkipsWhitespace(t, 2, 3); }
    assert t[3..4] == "x";
    LexIdentifier(t, 3, 4);
  }

  /**
    The text `{} x`: the lexer yields an object's braces and then an error
    token. The parser reads that token into its lookahead and tests it for
    end of input, but both outcomes of the test return nil, so main reports
    this text valid.
   */
  lemma AcceptsTextWithTrailingGarbage()
    ensures Tokenize("{} x", 0) == [LBrace, RBrace, Token(TokenError, "invalid identifier: x")]
    ensures ObjectAt(Tokenize("{} x", 0), 0) == Accept(2)
  {
    var t := "{} x";
    LexesTrailingGarbage();
    var l0, l1, l2 := Lex(t, 0), Lex(t, 1), Lex(t, 2);
    assert Lexemes(t, 2) == [l2];
    assert Lexemes(t, 1) == [l1] + [l2];
    assert Lexemes(t, 0) == [l0] + ([l1] + [l2]);
    assert Tokenize(t, 0) == [l0.token, l1.token, l2.token];
  }

  /** The elements of `[1,2,3]`. */
  const Numbers := [Scalar(One), Scalar(Two), Scalar(Three)]

  /** The tree of `{"a":[1,2,3]}`. */
  const NestedArray := [Member("a", Array(Numbers))]

  /** The inner object of `{"a":{"b":null}}`. */
  const Inner := [Member("b", Scalar(Null))]

  /** The tree of `{"a":{"b":null}}`. */
  const NestedObject := [Member("a", Object(Inner))]

  /** The tree of `{"s":"line\nbreak"}`, whose string holds a line feed. */
  const EscapedNewline := [Member("s", Scalar(Token(TokenString, "line\nbreak")))]

  lemma NumbersPrinted()
    ensures PrintElements(Numbers) == "1,2,3"
  {
    assert Numbers[1..] == [Scalar(Two), Scalar(Three)] && Numbers[1..][1..] == [Scalar(Three)];
    assert PrintElements(Numbers[1..][1..]) == "3";
    assert PrintElements(Numbers[1..]) == "2,3";
  }

  lemma NumbersRendered()
    ensures RenderElements(Numbers) == [One, Comma, Two, Comma, Three]
  {
    assert Numbers[1..] == [Scalar(Two), Scalar(Three)] && Numbers[1..][1..] == [Scalar(Three)];
    assert RenderElements(Numbers[1..][1..]) == [Three];
    assert RenderElements(Numbers[1..]) == [Two, Comma, Three];
  }

  lemma NestedArrayPrintable()
    ensures Printable(Object(NestedArray))
  {
    assert IsNumberPattern("1") && IsNumberPattern("2") && IsNumberPattern("3");
    assert Printable(Array(Numbers));
  }

  /** An object of one member prints as its quoted key, a colon and its value, in braces. */
  lemma PrintedPair(k: string, v: Tree)
    ensures Print(Object([Member(k, v)])) == ['{'] + (Quote(k) + ([':'] + Print(v)) + ['}'])
  {
    assert PrintMembers([Member(k, v)]) == PrintMember(Member(k, v));
  }

  /** An object of one member renders as its key token, a colon and its value's tokens, in braces. */
  lemma RenderedPair(k: string, v: Tree)
    ensures Render(Object([Member(k, v)])) == [LBrace, Token(TokenString, k), Colon] + Render(v) + [RBrace]
  {
    assert RenderMembers([Member(k, v)]) == RenderMember(Member(k, v));
  }

  lemma QuotedA()
    ensures Quote("a") == "\"a\""
  {
  }

  lemma NestedArrayText()
    ensures ['{'] + ("\"a\"" + ([':'] + "[1,2,3]") + ['}']) == "{\"a\":[1,2,3]}"
  {
  }

  lemma NumbersArrayPrinted()
    ensures Print(Array(Numbers)) == "[1,2,3]"
  {
    NumbersPrinted();
  }

  lemma NestedArrayPrinted()
    ensures Print(Object(NestedArray)) == "{\"a\":[1,2,3]}"
  {
    PrintedPair("a", Array(Numbers));
    NumbersArrayPrinted();
    QuotedA();
    NestedArrayText();
  }

  lemma NestedArrayRendered()
    ensures Render(Object(NestedArray)) == [LBrace, KeyA, Colon, LBracket, One, Comma, Two, Comma, Three, RBracket, RBrace]
  {
    RenderedPair("a", Array(Numbers));
    NumbersRendered();
    assert Render(Array(Numbers)) == [LBracket, One, Comma, Two, Comma, Three, RBracket];
  }

  lemma InnerPrinted()
    ensures Print(Object(Inner)) == "{\"b\":null}"
  {
    PrintedPair("b", Scalar(Null));
    assert Quote("b") == "\"b\"";
  }

  lemma InnerRendered()
    ensures Render(Object(Inner)) == [LBrace, KeyB, Colon, Null, RBrace]
  {
    RenderedPair("b", Scalar(Null));
  }

  lemma NestedObjectText()
    ensures ['{'] + ("\"a\"" + ([':'] + "{\"b\":null}") + ['}']) == "{\"a\":{\"b\":null}}"
  {
  }

  lemma NestedObjectPrinted()
    ensures Print(Object(NestedObject)) == "{\"a\":{\"b\":null}}"
  {
    PrintedPair("a", Object(Inner));
    InnerPrinted();
    QuotedA();
    NestedObjectText();
  }

  lemma NestedObjectRendered()
    ensures Render(Object(NestedObject)) == [LBrace, KeyA, Colon, LBrace, KeyB, Colon, Null, RBrace, RBrace]
  {
    RenderedPair("a", Object(Inner));
    InnerRendered();
  }

  lemma LineBreakSplit()
    ensures "line" + (['\n'] + "break") == "line\nbreak"
  {
  }

  lemma LineBreakEscaped()
    ensures Escape("line" + (['\n'] + "break"), false) == "line" + ("\\n" + "break")
  {
    EscapeBetween("line", '\n', "break", false);
  }

  lemma LineBreakQuoted()
    ensures EscapeChar('\n', false) == "\\n"
    ensures ['"'] + ("line" + ("\\n" + "break") + ['"']) == "\"line\\nbreak\""
  {
  }

  /** The escape table spells the line feed of "line\nbreak" with a backslash and `n`. */
  lemma EscapedLineBreak()
    ensures Quote("line\nbreak") == "\"line\\nbreak\""
  {
    LineBreakSplit();
    LineBreakEscaped();
    LineBreakQuoted();
  }

  lemma QuotedKey()
    ensures Quote("s") == "\"s\""
  {
  }

  /** An object of one string member prints as its quoted key and quoted value in braces. */
  lemma PrintedStringPair(k: string, v: string)
    ensures Print(Object([Member(k, Scalar(Token(TokenString, v)))])) == ['{'] + (Quote(k) + ([':'] + Quote(v)) + ['}'])
  {
    var m := Member(k, Scalar(Token(TokenString, v)));
    assert Print(m.value) == Quote(v);
    assert PrintMembers([m]) == PrintMember(m);
  }

  lemma StringPairText()
    ensures ['{'] + ("\"s\"" + ([':'] + "\"line\\nbreak\"") + ['}']) == "{\"s\":\"line\\nbreak\"}"
  {
  }

  lemma EscapedNewlinePrinted()
    ensures Print(Object(EscapedNewline)) == "{\"s\":\"line\\nbreak\"}"
  {
    PrintedStringPair("s", "line\nbreak");
    EscapedLineBreak();
    QuotedKey();
    StringPairText();
  }

  lemma EscapedNewlineRendered()
    ensures Printable(Object(EscapedNewline))
    ensures Render(Object(EscapedNewline)) == [LBrace, Token(TokenString, "s"), Colon, Token(TokenString, "line\nbreak"), RBrace]
  {
    assert RenderMember(EscapedNewline[0]) == [Token(TokenString, "s"), Colon, Token(TokenString, "line\nbreak")];
    assert Encodable("line\nbreak");
  }

  /** `{"a":[1,2,3]}`: an array in an object; the text lexes to the object's tokens and the parser accepts it. */
  lemma AcceptsNestedArray()
    ensures Spells(Tokenize("{\"a\":[1,2,3]}", 0), 0,
      [LBrace, KeyA, Colon, LBracket, One, Comma, Two, Comma, Three, RBracket, RBrace])
    ensures ObjectAt(Tokenize("{\"a\":[1,2,3]}", 0), 0) == Accept(11)
  {
    NestedArrayPrintable();
    NestedArrayPrinted();
    NestedArrayRendered();
    assert Print(Object(NestedArray)) + [] == Print(Object(NestedArray));
    PrintedAccepted(NestedArray, []);
    PrintedTokens(NestedArray, []);
  }

  /** `{"a":{"b":null}}`: an object in an object. */
  lemma AcceptsNestedObject()
    ensures Spells(Tokenize("{\"a\":{\"b\":null}}", 0), 0,
      [LBrace, KeyA, Colon, LBrace, KeyB, Colon, Null, RBrace, RBrace])
    ensures ObjectAt(Tokenize("{\"a\":{\"b\":null}}", 0), 0) == Accept(9)
  {
    NestedObjectPrinted();
    NestedObjectRendered();
    assert Printable(Object(NestedObject));
    assert Print(Object(NestedObject)) + [] == Print(Object(NestedObject));
    PrintedAccepted(NestedObject, []);
    PrintedTokens(NestedObject, []);
  }

  /** `{"s":"line\nbreak"}`: the escape `\n` in the text is a line feed in the string token. */
  lemma AcceptsEscapedNewline()
    ensures Spells(Tokenize("{\"s\":\"line\\nbreak\"}", 0), 0,
      [LBrace, Token(TokenString, "s"), Colon, Token(TokenString, "line\nbreak"), RBrace])
    ensures ObjectAt(Tokenize("{\"s\":\"line\\nbreak\"}", 0), 0) == Accept(5)
  {
    EscapedNewlinePrinted();
    EscapedNewlineRendered();
    assert Print(Object(EscapedNewline)) + [] == Print(Object(EscapedNewline));
    PrintedAccepted(EscapedNewline, []);
    PrintedTokens(EscapedNewline, []);
  }
}
