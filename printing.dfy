/**
  JSON trees written out as text, and the proof that the lexer reads such a
  text back as the tree's token spelling: whatever follows a printed object,
  the token sequence of the text begins with that object's tokens, so the
  parser accepts it.
 */
module Printing {
  import opened Wrappers
  import opened Tokens
  import opened LexSpec
  import opened StringEscapes
  import opened NumberShape
  import opened Grammar
  import opened JsonTree

  // ---------------------------------------------------------------- printing

  /** A string literal: the encoded text between quotes. */
  function Quote(s: string): string {
    ['"'] + (Escape(s, false) + ['"'])
  }

  /** A scalar's text: a string literal for a string, the literal itself otherwise. */
  function PrintScalar(tok: Token): string {
    if tok.kind == TokenString then Quote(tok.literal) else tok.literal
  }

  /** A value's text, with no whitespace. */
  function Print(v: Tree): string {
    match v
    case Scalar(tok) => PrintScalar(tok)
    case Object(ms) => ['{'] + (PrintMembers(ms) + ['}'])
    case Array(vs) => ['['] + (PrintElements(vs) + [']'])
  }

  /** A member's text: its key, a colon, then its value. */
  function PrintMember(m: Member): string {
    Quote(m.key) + ([':'] + Print(m.value))
  }

  /** Members separated by commas. */
  function PrintMembers(ms: seq<Member>): string {
    if ms == [] then []
    else if |ms| == 1 then PrintMember(ms[0])
    else PrintMember(ms[0]) + ([','] + PrintMembers(ms[1..]))
  }

  /** Elements separated by commas. */
  function PrintElements(vs: seq<Tree>): string {
    if vs == [] then []
    else if |vs| == 1 then Print(vs[0])
    else Print(vs[0]) + ([','] + PrintElements(vs[1..]))
  }

  /**
    A scalar the lexer reads back from its text: a string the escape table
    can spell, a number matching the number pattern that starts as the lexer
    expects, or a keyword.
   */
  predicate PrintableScalar(tok: Token) {
    match tok.kind
    case TokenString => Encodable(tok.literal)
    case TokenNumber =>
      && 0 < |tok.literal| && (IsDigit(tok.literal[0]) || tok.literal[0] == '-')
      && IsNumberPattern(tok.literal)
    case TokenBoolean => tok.literal == "true" || tok.literal == "false"
    case TokenNull => tok.literal == "null"
    case _ => false
  }

  /** A tree whose scalars and keys are all printable. */
  predicate Printable(v: Tree) {
    match v
    case Scalar(tok) => PrintableScalar(tok)
    case Object(ms) => forall i :: 0 <= i < |ms| ==> Encodable(ms[i].key) && Printable(ms[i].value)
    case Array(vs) => forall i :: 0 <= i < |vs| ==> Printable(vs[i])
  }

  /** Every member of the sequence has a printable key and value. */
  predicate PrintableMembers(ms: seq<Member>) {
    forall i :: 0 <= i < |ms| ==> Encodable(ms[i].key) && Printable(ms[i].value)
  }

  /** Every element of the sequence is printable. */
  predicate PrintableTrees(vs: seq<Tree>) {
    forall i :: 0 <= i < |vs| ==> Printable(vs[i])
  }

  lemma PrintableMembersSplit(ms: seq<Member>)
    requires ms != [] && PrintableMembers(ms)
    ensures Encodable(ms[0].key) && Printable(ms[0].value) && PrintableMembers(ms[1..])
  {
    assert forall i :: 0 <= i < |ms| - 1 ==> ms[1..][i] == ms[i + 1];
  }

  lemma PrintableTreesSplit(vs: seq<Tree>)
    requires vs != [] && PrintableTrees(vs)
    ensures Printable(vs[0]) && PrintableTrees(vs[1..])
  {
    assert forall i :: 0 <= i < |vs| - 1 ==> vs[1..][i] == vs[i + 1];
  }

  /** A printable tree is a valid tree: its scalars are string, number, boolean or null tokens. */
  lemma {:induction false} PrintableValid(v: Tree)
    requires Printable(v)
    ensures ValidTree(v)
    decreases v
  {
    match v
    case Scalar(tok) =>
    case Object(ms) =>
      forall i | 0 <= i < |ms| ensures ValidTree(ms[i].value) {
        PrintableValid(ms[i].value);
      }
    case Array(vs) =>
      forall i | 0 <= i < |vs| ensures ValidTree(vs[i]) {
        PrintableValid(vs[i]);
      }
  }

  // ---------------------------------------------------------------- lexing a text token by token

  /**
    The positions `ps` mark off the tokens `ts` in `t`: lexing at `ps[k]`
    yields `ts[k]`, neither end of input nor an error, and stops at `ps[k + 1]`.
   */
  predicate Marks(t: seq<char>, ps: seq<nat>, ts: seq<Token>) {
    && |ps| == |ts| + 1
    && (forall k :: 0 <= k < |ts| ==> ps[k] <= |t|)
    && forall k {:trigger Lex(t, ps[k])} :: 0 <= k < |ts| ==>
         Lex(t, ps[k]) == Lexed(ts[k], ps[k + 1]) && !Terminal(ts[k])
  }

  /** Lexing `t` from `i` yields the tokens `ts`, one call at a time, and stops at `j`. */
  ghost predicate LexesAs(t: seq<char>, i: nat, ts: seq<Token>, j: nat) {
    exists ps :: Marks(t, ps, ts) && ps[0] == i && ps[|ts|] == j
  }

  /** No tokens. */
  lemma LexesNone(t: seq<char>, i: nat)
    ensures LexesAs(t, i, [], i)
  {
    assert Marks(t, [i], []);
  }

  /** One token. */
  lemma LexesOne(t: seq<char>, i: nat, tok: Token, j: nat)
    requires i <= |t| && Lex(t, i) == Lexed(tok, j) && !Terminal(tok)
    ensures LexesAs(t, i, [tok], j)
  {
    assert Lex(t, [i, j][0]) == Lexed([tok][0], [i, j][1]);
    assert Marks(t, [i, j], [tok]);
  }

  /** Tokens lexed one after the other. */
  lemma LexesAppend(t: seq<char>, i: nat, a: seq<Token>, m: nat, b: seq<Token>, j: nat)
    requires LexesAs(t, i, a, m) && LexesAs(t, m, b, j)
    ensures LexesAs(t, i, a + b, j)
  {
    var p :| Marks(t, p, a) && p[0] == i && p[|a|] == m;
    var q :| Marks(t, q, b) && q[0] == m && q[|b|] == j;
    var ps := p + q[1..];
    forall k | 0 <= k < |a + b|
      ensures ps[k] <= |t| && Lex(t, ps[k]) == Lexed((a + b)[k], ps[k + 1]) && !Terminal((a + b)[k])
    {
      if k < |a| {
        assert ps[k] == p[k] && ps[k + 1] == p[k + 1] && (a + b)[k] == a[k];
        assert Lex(t, p[k]) == Lexed(a[k], p[k + 1]);
      } else {
        var l := k - |a|;
        assert ps[k] == q[l] && ps[k + 1] == q[l + 1] && (a + b)[k] == b[l];
        assert Lex(t, q[l]) == Lexed(b[l], q[l + 1]);
      }
    }
    assert Marks(t, ps, a + b);
    assert ps[0] == i && ps[|a + b|] == j;
  }

  /** The first marked token, and the marks of the rest. */
  lemma MarksTail(t: seq<char>, p: seq<nat>, ts: seq<Token>)
    requires ts != [] && Marks(t, p, ts)
    ensures p[0] <= |t| && Lex(t, p[0]) == Lexed(ts[0], p[1]) && !Terminal(ts[0])
    ensures Marks(t, p[1..], ts[1..])
  {
    assert Lex(t, p[0]) == Lexed(ts[0], p[1]);
    forall k | 0 <= k < |ts[1..]|
      ensures Lex(t, p[1..][k]) == Lexed(ts[1..][k], p[1..][k + 1]) && !Terminal(ts[1..][k])
    {
      assert Lex(t, p[k + 1]) == Lexed(ts[k + 1], p[k + 2]);
    }
  }

  /** Past a token that is neither end of input nor an error, the token sequence goes on from where it stopped. */
  lemma TokenizeCons(t: seq<char>, i: nat)
    requires i <= |t| && !Terminal(Lex(t, i).token)
    ensures Tokenize(t, i) == [Lex(t, i).token] + Tokenize(t, Lex(t, i).end)
  {
    var l := Lex(t, i);
    var ls := Lexemes(t, l.end);
    assert Lexemes(t, i) == [l] + ls;
    assert ([l] + ls)[1..] == ls;
  }

  /** Tokens the lexer yields one call at a time begin the token sequence the parser sees. */
  lemma {:induction false} LexesTokenize(t: seq<char>, i: nat, ts: seq<Token>, j: nat)
    requires i <= |t| && LexesAs(t, i, ts, j)
    ensures Spells(Tokenize(t, i), 0, ts)
    decreases |ts|
  {
    if ts != [] {
      var p :| Marks(t, p, ts) && p[0] == i && p[|ts|] == j;
      MarksTail(t, p, ts);
      assert p[1..][0] == p[1] && p[1..][|ts[1..]|] == j;
      TokenizeCons(t, i);
      LexesTokenize(t, p[1], ts[1..], j);
      SpellsFront(Tokenize(t, i), Tokenize(t, p[1]), ts);
    }
  }

  /** A token lexed in front of further tokens. */
  lemma LexesCons(t: seq<char>, i: nat, tok: Token, m: nat, b: seq<Token>, j: nat)
    requires i <= |t| && Lex(t, i) == Lexed(tok, m) && !Terminal(tok) && LexesAs(t, m, b, j)
    ensures LexesAs(t, i, [tok] + b, j)
  {
    LexesOne(t, i, tok, m);
    LexesAppend(t, i, [tok], m, b, j);
  }

  /** A token lexed after further tokens. */
  lemma LexesSnoc(t: seq<char>, i: nat, a: seq<Token>, m: nat, tok: Token, j: nat)
    requires m <= |t| && LexesAs(t, i, a, m) && Lex(t, m) == Lexed(tok, j) && !Terminal(tok)
    ensures LexesAs(t, i, a + [tok], j)
  {
    LexesOne(t, m, tok, j);
    LexesAppend(t, i, a, m, [tok], j);
  }

  /** A punctuation character is the token of its kind. */
  lemma LexesPunct(t: seq<char>, i: nat, k: TokenType)
    requires i < |t| && PunctuationKind(t[i]) == Some(k)
    ensures IsPunctuation(k) && Lex(t, i) == Lexed(Punct(k), i + 1)
  {
    LexPunctuation(t, i);
  }

  // ---------------------------------------------------------------- printed trees lex back to their spellings

  /** The text at `j` is followed by a punctuation character, which ends any scalar. */
  predicate Delimited(t: seq<char>, j: nat) {
    j < |t| && PunctuationKind(t[j]).Some?
  }

  /** A printed scalar followed by punctuation is its own token. */
  lemma LexesScalar(t: seq<char>, i: nat, tok: Token)
    requires PrintableScalar(tok) && Spells(t, i, PrintScalar(tok))
    requires Delimited(t, i + |PrintScalar(tok)|)
    ensures Lex(t, i) == Lexed(tok, i + |PrintScalar(tok)|) && !Terminal(tok)
  {
    var lit := tok.literal;
    var j := i + |PrintScalar(tok)|;
    if tok.kind == TokenString {
      LexString(t, i, lit, false);
    } else if tok.kind == TokenNumber {
      LexNumberLiteral(t, i, lit);
    } else {
      SpellsSlice(t, i, lit);
      forall k | i <= k < j ensures IsIdentChar(t[k]) {
        assert t[k] == t[i..j][k - i];
      }
      assert t[i] == t[i..j][0];
      LexIdentifier(t, i, j);
    }
  }

  /** A printed value followed by punctuation lexes to the value's tokens. */
  lemma {:induction false} LexesValue(t: seq<char>, i: nat, v: Tree)
    requires Printable(v) && Spells(t, i, Print(v)) && Delimited(t, i + |Print(v)|)
    ensures LexesAs(t, i, Render(v), i + |Print(v)|)
    decreases v
  {
    match v
    case Scalar(tok) =>
      LexesScalar(t, i, tok);
      LexesOne(t, i, tok, i + |Print(v)|);
    case Object(ms) =>
      LexesObject(t, i, ms);
    case Array(vs) =>
      LexesArray(t, i, vs);
  }

  /** A printed object lexes to the object's tokens, whatever follows it. */
  lemma {:induction false} LexesObject(t: seq<char>, i: nat, ms: seq<Member>)
    requires PrintableMembers(ms) && Spells(t, i, Print(Object(ms)))
    ensures LexesAs(t, i, Render(Object(ms)), i + |Print(Object(ms))|)
    decreases ms, 2
  {
    var body := PrintMembers(ms);
    var n := i + 1 + |body|;
    SpellsCons(t, i, '{', body + ['}']);
    SpellsAppend(t, i + 1, body, ['}'], n);
    SpellsCons(t, n, '}', []);
    if ms == [] {
      assert RenderMembers(ms) == [];
      LexesNone(t, i + 1);
    } else {
      LexesMembers(t, i + 1, ms);
    }
    LexesEnclosed(t, i, TokenLeftBrace, RenderMembers(ms), n, TokenRightBrace);
  }

  /** A printed member's text: its key's literal, a colon, then its value's text. */
  lemma MemberParts(t: seq<char>, i: nat, m: Member)
    requires Spells(t, i, PrintMember(m))
    ensures var q := i + |Quote(m.key)|;
      && Spells(t, i, Quote(m.key)) && q < |t| && t[q] == ':'
      && Spells(t, q + 1, Print(m.value)) && |PrintMember(m)| == |Quote(m.key)| + 1 + |Print(m.value)|
  {
    SpellsSplit(t, i, Quote(m.key), ':', Print(m.value));
  }

  /** A key's literal and a colon, in front of the value's tokens. */
  lemma LexesKeyed(t: seq<char>, i: nat, key: string, q: nat, b: seq<Token>, e: nat)
    requires Encodable(key) && Spells(t, i, Quote(key)) && q == i + |Quote(key)|
    requires q < |t| && t[q] == ':' && LexesAs(t, q + 1, b, e)
    ensures LexesAs(t, i, [Token(TokenString, key), Punct(TokenColon)] + b, e)
  {
    var tok, colon := Token(TokenString, key), Punct(TokenColon);
    LexString(t, i, key, false);
    LexesPunct(t, q, TokenColon);
    LexesCons(t, q, colon, q + 1, b, e);
    LexesCons(t, i, tok, q, [colon] + b, e);
    assert [tok, colon] + b == [tok] + ([colon] + b);
  }

  /** A printed member followed by punctuation lexes to its key, a colon and its value's tokens. */
  lemma {:induction false} LexesMember(t: seq<char>, i: nat, m: Member)
    requires Encodable(m.key) && Printable(m.value)
    requires Spells(t, i, PrintMember(m)) && Delimited(t, i + |PrintMember(m)|)
    ensures LexesAs(t, i, RenderMember(m), i + |PrintMember(m)|)
    decreases m
  {
    var q := i + |Quote(m.key)|;
    MemberParts(t, i, m);
    LexesValue(t, q + 1, m.value);
    LexesKeyed(t, i, m.key, q, Render(m.value), i + |PrintMember(m)|);
  }

  /** The text of several members, with the closing brace: the first member, a comma, then the rest. */
  lemma MembersText(t: seq<char>, i: nat, ms: seq<Member>)
    requires |ms| > 1 && Spells(t, i, PrintMembers(ms) + ['}'])
    ensures var j := i + |PrintMember(ms[0])|;
      && Spells(t, i, PrintMember(ms[0])) && j < |t| && t[j] == ','
      && Spells(t, j + 1, PrintMembers(ms[1..]) + ['}'])
      && |PrintMembers(ms)| == |PrintMember(ms[0])| + 1 + |PrintMembers(ms[1..])|
  {
    var p, rest := PrintMember(ms[0]), PrintMembers(ms[1..]);
    assert PrintMembers(ms) + ['}'] == p + ([','] + (rest + ['}']));
    SpellsSplit(t, i, p, ',', rest + ['}']);
  }

  /** The text of one member, with the closing brace. */
  lemma MemberText(t: seq<char>, i: nat, ms: seq<Member>)
    requires |ms| == 1 && Spells(t, i, PrintMembers(ms) + ['}'])
    ensures var j := i + |PrintMember(ms[0])|;
      && Spells(t, i, PrintMember(ms[0])) && j < |t| && t[j] == '}'
      && |PrintMembers(ms)| == |PrintMember(ms[0])|
  {
    assert PrintMembers(ms) + ['}'] == PrintMember(ms[0]) + (['}'] + []);
    SpellsSplit(t, i, PrintMember(ms[0]), '}', []);
  }

  /** Tokens, a comma, then more tokens. */
  lemma LexesSeparated(t: seq<char>, i: nat, a: seq<Token>, j: nat, b: seq<Token>, e: nat)
    requires i <= |t| && j < |t| && t[j] == ',' && LexesAs(t, i, a, j) && LexesAs(t, j + 1, b, e)
    ensures LexesAs(t, i, a + [Punct(TokenComma)] + b, e)
  {
    var comma := Punct(TokenComma);
    LexesPunct(t, j, TokenComma);
    LexesCons(t, j, comma, j + 1, b, e);
    LexesAppend(t, i, a, j, [comma] + b, e);
    assert a + [comma] + b == a + ([comma] + b);
  }

  /** Tokens between an opening and a closing punctuation character. */
  lemma LexesEnclosed(t: seq<char>, i: nat, open: TokenType, b: seq<Token>, n: nat, close: TokenType)
    requires i < |t| && PunctuationKind(t[i]) == Some(open) && LexesAs(t, i + 1, b, n)
    requires n < |t| && PunctuationKind(t[n]) == Some(close)
    ensures LexesAs(t, i, [Punct(open)] + b + [Punct(close)], n + 1)
  {
    LexesPunct(t, i, open);
    LexesPunct(t, n, close);
    LexesSnoc(t, i + 1, b, n, Punct(close), n + 1);
    LexesCons(t, i, Punct(open), i + 1, b + [Punct(close)], n + 1);
    assert [Punct(open)] + b + [Punct(close)] == [Punct(open)] + (b + [Punct(close)]);
  }

  /** Printed members, followed by the object's closing brace, lex to the members' tokens. */
  lemma {:induction false} LexesMembers(t: seq<char>, i: nat, ms: seq<Member>)
    requires ms != [] && PrintableMembers(ms) && Spells(t, i, PrintMembers(ms) + ['}'])
    ensures LexesAs(t, i, RenderMembers(ms), i + |PrintMembers(ms)|)
    decreases ms, 1
  {
    PrintableMembersSplit(ms);
    if |ms| == 1 {
      MemberText(t, i, ms);
      LexesMember(t, i, ms[0]);
    } else {
      LexesMembersTail(t, i, ms);
    }
  }

  /** LexesMembers for two or more members: the first member, a comma, then the others. */
  lemma {:induction false} LexesMembersTail(t: seq<char>, i: nat, ms: seq<Member>)
    requires |ms| > 1 && Spells(t, i, PrintMembers(ms) + ['}'])
    requires Encodable(ms[0].key) && Printable(ms[0].value) && PrintableMembers(ms[1..])
    ensures LexesAs(t, i, RenderMembers(ms), i + |PrintMembers(ms)|)
    decreases ms, 0
  {
    var j := i + |PrintMember(ms[0])|;
    MembersText(t, i, ms);
    LexesMember(t, i, ms[0]);
    LexesMembers(t, j + 1, ms[1..]);
    LexesSeparated(t, i, RenderMember(ms[0]), j, RenderMembers(ms[1..]), i + |PrintMembers(ms)|);
  }

  /** A printed array lexes to the array's tokens, whatever follows it. */
  lemma {:induction false} LexesArray(t: seq<char>, i: nat, vs: seq<Tree>)
    requires PrintableTrees(vs) && Spells(t, i, Print(Array(vs)))
    ensures LexesAs(t, i, Render(Array(vs)), i + |Print(Array(vs))|)
    decreases vs, 2
  {
    var body := PrintElements(vs);
    var n := i + 1 + |body|;
    SpellsCons(t, i, '[', body + [']']);
    SpellsAppend(t, i + 1, body, [']'], n);
    SpellsCons(t, n, ']', []);
    if vs == [] {
      assert RenderElements(vs) == [];
      LexesNone(t, i + 1);
    } else {
      LexesElements(t, i + 1, vs);
    }
    LexesEnclosed(t, i, TokenLeftBracket, RenderElements(vs), n, TokenRightBracket);
  }

  /** The text of several elements, with the closing bracket: the first value, a comma, then the rest. */
  lemma ElementsText(t: seq<char>, i: nat, vs: seq<Tree>)
    requires |vs| > 1 && Spells(t, i, PrintElements(vs) + [']'])
    ensures var j := i + |Print(vs[0])|;
      && Spells(t, i, Print(vs[0])) && j < |t| && t[j] == ','
      && Spells(t, j + 1, PrintElements(vs[1..]) + [']'])
      && |PrintElements(vs)| == |Print(vs[0])| + 1 + |PrintElements(vs[1..])|
  {
    var p, rest := Print(vs[0]), PrintElements(vs[1..]);
    assert PrintElements(vs) + [']'] == p + ([','] + (rest + [']']));
    SpellsSplit(t, i, p, ',', rest + [']']);
  }

  /** The text of one element, with the closing bracket. */
  lemma ElementText(t: seq<char>, i: nat, vs: seq<Tree>)
    requires |vs| == 1 && Spells(t, i, PrintElements(vs) + [']'])
    ensures var j := i + |Print(vs[0])|;
      && Spells(t, i, Print(vs[0])) && j < |t| && t[j] == ']'
      && |PrintElements(vs)| == |Print(vs[0])|
  {
    assert PrintElements(vs) + [']'] == Print(vs[0]) + ([']'] + []);
    SpellsSplit(t, i, Print(vs[0]), ']', []);
  }

  /** Printed elements, followed by the array's closing bracket, lex to the elements' tokens. */
  lemma {:induction false} LexesElements(t: seq<char>, i: nat, vs: seq<Tree>)
    requires vs != [] && PrintableTrees(vs) && Spells(t, i, PrintElements(vs) + [']'])
    ensures LexesAs(t, i, RenderElements(vs), i + |PrintElements(vs)|)
    decreases vs, 1
  {
    var j := i + |Print(vs[0])|;
    PrintableTreesSplit(vs);
    if |vs| == 1 {
      ElementText(t, i, vs);
      LexesValue(t, i, vs[0]);
    } else {
      ElementsText(t, i, vs);
      LexesValue(t, i, vs[0]);
      LexesElements(t, j + 1, vs[1..]);
      LexesSeparated(t, i, Render(vs[0]), j, RenderElements(vs[1..]), i + |PrintElements(vs)|);
    }
  }

  // ---------------------------------------------------------------- printed objects are accepted

  /**
    Whatever text `w` follows a printed object, the token sequence of the
    whole text begins with the object's spelling.
   */
  lemma PrintedTokens(ms: seq<Member>, w: string)
    requires Printable(Object(ms))
    ensures Spells(Tokenize(Print(Object(ms)) + w, 0), 0, Render(Object(ms)))
  {
    var p := Print(Object(ms));
    var t := p + w;
    assert t[0..|p|] == p;
    SpellsSlice(t, 0, p);
    LexesObject(t, 0, ms);
    LexesTokenize(t, 0, Render(Object(ms)), |p|);
  }

  /**
    The parser accepts a printed object, whatever follows it, and stops right
    after its tokens; the text meets the condition under which Validate
    reports no error.
   */
  lemma PrintedAccepted(ms: seq<Member>, w: string)
    requires Printable(Object(ms))
    ensures ValidMembers(ms)
    ensures ObjectAt(Tokenize(Print(Object(ms)) + w, 0), 0) == Accept(|Render(Object(ms))|)
    ensures exists ns :: ValidMembers(ns) && Spells(Tokenize(Print(Object(ms)) + w, 0), 0, Render(Object(ns)))
  {
    PrintableValid(Object(ms));
    PrintedTokens(ms, w);
    ObjectComplete(Tokenize(Print(Object(ms)) + w, 0), 0, ms);
  }
}
