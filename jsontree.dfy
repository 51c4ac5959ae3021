/**
  The syntax trees of the JSON texts the parser accepts, their token
  spelling, and the proof that the parser's grammar (module Grammar) accepts
  exactly the spellings of trees: every tree's tokens are accepted and end
  where the tree ends (completeness), and whatever is accepted is the
  spelling of a tree (soundness).
 */
module JsonTree {
  import opened Tokens
  import opened Grammar

  /** A value: one scalar token, an object of members, or an array of elements. */
  datatype Tree = Scalar(token: Token) | Object(members: seq<Member>) | Array(elements: seq<Tree>)

  /** An object member: its key and its value. */
  datatype Member = Member(key: string, value: Tree)

  /** Scalar leaves are string, number, boolean and null tokens. */
  predicate ValidTree(v: Tree) {
    match v
    case Scalar(tok) => IsScalar(tok.kind)
    case Object(ms) => forall i :: 0 <= i < |ms| ==> ValidTree(ms[i].value)
    case Array(vs) => forall i :: 0 <= i < |vs| ==> ValidTree(vs[i])
  }

  /** The tokens of a value, as the lexer spells them. */
  function Render(v: Tree): seq<Token> {
    match v
    case Scalar(tok) => [tok]
    case Object(ms) => [Punct(TokenLeftBrace)] + RenderMembers(ms) + [Punct(TokenRightBrace)]
    case Array(vs) => [Punct(TokenLeftBracket)] + RenderElements(vs) + [Punct(TokenRightBracket)]
  }

  /** A member: its key token, a colon and its value. */
  function RenderMember(m: Member): seq<Token> {
    [Token(TokenString, m.key), Punct(TokenColon)] + Render(m.value)
  }

  /** Members separated by commas. */
  function RenderMembers(ms: seq<Member>): seq<Token> {
    if ms == [] then []
    else if |ms| == 1 then RenderMember(ms[0])
    else RenderMember(ms[0]) + [Punct(TokenComma)] + RenderMembers(ms[1..])
  }

  /** Elements separated by commas. */
  function RenderElements(vs: seq<Tree>): seq<Token> {
    if vs == [] then []
    else if |vs| == 1 then Render(vs[0])
    else Render(vs[0]) + [Punct(TokenComma)] + RenderElements(vs[1..])
  }

  /** Every member value is a valid tree. */
  predicate ValidMembers(ms: seq<Member>) {
    forall i :: 0 <= i < |ms| ==> ValidTree(ms[i].value)
  }

  /** Every element is a valid tree. */
  predicate ValidTrees(vs: seq<Tree>) {
    forall i :: 0 <= i < |vs| ==> ValidTree(vs[i])
  }

  /** A non-empty sequence of members is valid when its first member and the rest are. */
  lemma ValidMembersSplit(ms: seq<Member>)
    requires ms != []
    ensures ValidMembers(ms) <==> ValidTree(ms[0].value) && ValidMembers(ms[1..])
  {
    assert forall i :: 0 <= i < |ms| - 1 ==> ms[1..][i] == ms[i + 1];
  }

  /** A non-empty sequence of trees is valid when its first tree and the rest are. */
  lemma ValidTreesSplit(vs: seq<Tree>)
    requires vs != []
    ensures ValidTrees(vs) <==> ValidTree(vs[0]) && ValidTrees(vs[1..])
  {
    assert forall i :: 0 <= i < |vs| - 1 ==> vs[1..][i] == vs[i + 1];
  }

  // ---------------------------------------------------------------- spellings in a token sequence

  /** An occurrence of `x` followed by the token `t`, at `j`. */
  lemma SpellsThen(ts: seq<Token>, k: nat, x: seq<Token>, t: Token, j: nat)
    requires j == k + |x|
    ensures Spells(ts, k, x + [t]) <==> Spells(ts, k, x) && j < |ts| && ts[j] == t
  {
    SpellsAppend(ts, k, x, [t], j);
    SpellsOne(ts, j, t);
  }

  /** An occurrence of `x`, a separator at `j`, then `y` and a closing token. */
  lemma SpellsSeparated(ts: seq<Token>, k: nat, x: seq<Token>, sep: Token, y: seq<Token>, close: Token, j: nat)
    requires j == k + |x|
    ensures Spells(ts, k, x + [sep] + y + [close]) <==>
      Spells(ts, k, x) && j < |ts| && ts[j] == sep && Spells(ts, j + 1, y + [close])
  {
    assert x + [sep] + y + [close] == (x + [sep]) + (y + [close]);
    SpellsAppend(ts, k, x + [sep], y + [close], j + 1);
    SpellsThen(ts, k, x, sep, j);
  }

  /** A punctuation token spelled by its own symbol. */
  predicate Spelled(ts: seq<Token>) {
    forall j :: 0 <= j < |ts| && IsPunctuation(ts[j].kind) ==> ts[j].literal == Symbol(ts[j].kind)
  }

  /** In a spelled sequence, a punctuation token is determined by its kind. */
  lemma SpelledPunct(ts: seq<Token>, j: nat)
    requires Spelled(ts) && j < |ts| && IsPunctuation(ts[j].kind)
    ensures ts[j] == Punct(ts[j].kind)
  {
  }

  // ---------------------------------------------------------------- spellings of trees, token by token

  /** An object's spelling: its braces around its members. */
  lemma ObjectSpelling(ts: seq<Token>, k: nat, ms: seq<Member>)
    ensures Spells(ts, k, Render(Object(ms))) <==>
      && k < |ts| && ts[k] == Punct(TokenLeftBrace)
      && if ms == [] then k + 1 < |ts| && ts[k + 1] == Punct(TokenRightBrace)
         else Spells(ts, k + 1, RenderMembers(ms) + [Punct(TokenRightBrace)])
  {
    var open, close := Punct(TokenLeftBrace), Punct(TokenRightBrace);
    assert Render(Object(ms)) == [open] + (RenderMembers(ms) + [close]);
    if ms == [] {
      assert RenderMembers(ms) + [close] == [close];
      SpellsOne(ts, k + 1, close);
    }
  }

  /** A member's spelling: its key, a colon, then its value. */
  lemma MemberSpelling(ts: seq<Token>, k: nat, m: Member)
    ensures Spells(ts, k, RenderMember(m)) <==>
      k + 1 < |ts| && ts[k] == Token(TokenString, m.key) && ts[k + 1] == Punct(TokenColon) && Spells(ts, k + 2, Render(m.value))
  {
    var key := [Token(TokenString, m.key), Punct(TokenColon)];
    SpellsAppend(ts, k, key, Render(m.value), k + 2);
    assert key == [key[0]] + [key[1]];
    SpellsAppend(ts, k, [key[0]], [key[1]], k + 1);
    SpellsOne(ts, k, key[0]);
    SpellsOne(ts, k + 1, key[1]);
  }

  /** The spelling of members, closed by a right brace: a member, then a brace or a comma and more members. */
  lemma MembersSpelling(ts: seq<Token>, k: nat, ms: seq<Member>)
    requires ms != []
    ensures Spells(ts, k, RenderMembers(ms) + [Punct(TokenRightBrace)]) <==>
      && Spells(ts, k, RenderMember(ms[0]))
      && var j := k + |RenderMember(ms[0])|;
        if |ms| == 1 then j < |ts| && ts[j] == Punct(TokenRightBrace)
        else j < |ts| && ts[j] == Punct(TokenComma) && Spells(ts, j + 1, RenderMembers(ms[1..]) + [Punct(TokenRightBrace)])
  {
    var j := k + |RenderMember(ms[0])|;
    if |ms| == 1 {
      SpellsThen(ts, k, RenderMember(ms[0]), Punct(TokenRightBrace), j);
    } else {
      SpellsSeparated(ts, k, RenderMember(ms[0]), Punct(TokenComma), RenderMembers(ms[1..]), Punct(TokenRightBrace), j);
    }
  }

  /** An array's spelling: its brackets around its elements. */
  lemma ArraySpelling(ts: seq<Token>, k: nat, vs: seq<Tree>)
    ensures Spells(ts, k, Render(Array(vs))) <==>
      && k < |ts| && ts[k] == Punct(TokenLeftBracket)
      && if vs == [] then k + 1 < |ts| && ts[k + 1] == Punct(TokenRightBracket)
         else Spells(ts, k + 1, RenderElements(vs) + [Punct(TokenRightBracket)])
  {
    var open, close := Punct(TokenLeftBracket), Punct(TokenRightBracket);
    assert Render(Array(vs)) == [open] + (RenderElements(vs) + [close]);
    if vs == [] {
      assert RenderElements(vs) + [close] == [close];
      SpellsOne(ts, k + 1, close);
    }
  }

  /** The spelling of elements, closed by a right bracket: a value, then a bracket or a comma and more elements. */
  lemma ElementsSpelling(ts: seq<Token>, k: nat, vs: seq<Tree>)
    requires vs != []
    ensures Spells(ts, k, RenderElements(vs) + [Punct(TokenRightBracket)]) <==>
      && Spells(ts, k, Render(vs[0]))
      && var j := k + |Render(vs[0])|;
        if |vs| == 1 then j < |ts| && ts[j] == Punct(TokenRightBracket)
        else j < |ts| && ts[j] == Punct(TokenComma) && Spells(ts, j + 1, RenderElements(vs[1..]) + [Punct(TokenRightBracket)])
  {
    var j := k + |Render(vs[0])|;
    if |vs| == 1 {
      SpellsThen(ts, k, Render(vs[0]), Punct(TokenRightBracket), j);
    } else {
      SpellsSeparated(ts, k, Render(vs[0]), Punct(TokenComma), RenderElements(vs[1..]), Punct(TokenRightBracket), j);
    }
  }

  /** Members spelled piece by piece: the first member, then the closing brace or a comma and the rest. */
  lemma MembersSpelledBy(ts: seq<Token>, k: nat, m: Member, rest: seq<Member>, j: nat)
    requires j == k + |RenderMember(m)|
    requires Spells(ts, k, RenderMember(m)) && j < |ts|
    requires rest == [] ==> ts[j] == Punct(TokenRightBrace)
    requires rest != [] ==> ts[j] == Punct(TokenComma) && Spells(ts, j + 1, RenderMembers(rest) + [Punct(TokenRightBrace)])
    ensures Spells(ts, k, RenderMembers([m] + rest) + [Punct(TokenRightBrace)])
  {
    var ms := [m] + rest;
    assert ms[0] == m && ms[1..] == rest;
    MembersSpelling(ts, k, ms);
  }

  /** Elements spelled piece by piece: the first value, then the closing bracket or a comma and the rest. */
  lemma ElementsSpelledBy(ts: seq<Token>, k: nat, v: Tree, rest: seq<Tree>, j: nat)
    requires j == k + |Render(v)|
    requires Spells(ts, k, Render(v)) && j < |ts|
    requires rest == [] ==> ts[j] == Punct(TokenRightBracket)
    requires rest != [] ==> ts[j] == Punct(TokenComma) && Spells(ts, j + 1, RenderElements(rest) + [Punct(TokenRightBracket)])
    ensures Spells(ts, k, RenderElements([v] + rest) + [Punct(TokenRightBracket)])
  {
    var vs := [v] + rest;
    assert vs[0] == v && vs[1..] == rest;
    ElementsSpelling(ts, k, vs);
  }

  /** The length of a spelling of several members. */
  lemma MembersLength(ms: seq<Member>)
    requires |ms| > 1
    ensures |RenderMembers(ms)| == |RenderMember(ms[0])| + 1 + |RenderMembers(ms[1..])|
  {
  }

  /** The length of a spelling of several elements. */
  lemma ElementsLength(vs: seq<Tree>)
    requires |vs| > 1
    ensures |RenderElements(vs)| == |Render(vs[0])| + 1 + |RenderElements(vs[1..])|
  {
  }

  // ---------------------------------------------------------------- completeness

  /** The parser accepts the spelling of every tree, and its lookahead is then the token after it. */
  lemma {:induction false} ValueComplete(ts: seq<Token>, k: nat, v: Tree)
    requires Readable(ts) && ValidTree(v) && Spells(ts, k, Render(v))
    ensures k < |ts| && ValueAt(ts, k) == Accept(k + |Render(v)|)
    decreases v
  {
    match v
    case Scalar(tok) =>
      assert Render(v) == [tok];
      SpellsOne(ts, k, tok);
    case Object(ms) =>
      ObjectComplete(ts, k, ms);
    case Array(vs) =>
      ArrayComplete(ts, k, vs);
  }

  lemma {:induction false} ObjectComplete(ts: seq<Token>, k: nat, ms: seq<Member>)
    requires Readable(ts) && ValidMembers(ms) && Spells(ts, k, Render(Object(ms)))
    ensures k < |ts| && ObjectAt(ts, k) == Accept(k + |Render(Object(ms))|)
    decreases ms, 2
  {
    ObjectSpelling(ts, k, ms);
    if ms != [] {
      MembersComplete(ts, k + 1, ms, k + |Render(Object(ms))|);
    }
  }

  /** A member's spelling is accepted as a member, which ends after its value. */
  lemma {:induction false} MemberComplete(ts: seq<Token>, k: nat, m: Member)
    requires Readable(ts) && ValidTree(m.value) && Spells(ts, k, RenderMember(m))
    ensures k < |ts| && MemberAt(ts, k) == Accept(k + |RenderMember(m)|)
    decreases m
  {
    MemberSpelling(ts, k, m);
    ValueComplete(ts, k + 2, m.value);
  }

  /** The first member of a spelling of members is accepted, and the brace or the comma after it is in place. */
  lemma {:induction false} FirstMemberComplete(ts: seq<Token>, k: nat, ms: seq<Member>)
    requires Readable(ts) && ms != [] && ValidMembers(ms)
    requires Spells(ts, k, RenderMembers(ms) + [Punct(TokenRightBrace)])
    ensures var j := k + |RenderMember(ms[0])|;
      && MemberAt(ts, k) == Accept(j) && j < |ts|
      && (|ms| == 1 ==> ts[j].kind == TokenRightBrace && |RenderMembers(ms)| == |RenderMember(ms[0])|)
      && (|ms| > 1 ==>
            && ts[j].kind == TokenComma && ValidMembers(ms[1..])
            && Spells(ts, j + 1, RenderMembers(ms[1..]) + [Punct(TokenRightBrace)])
            && |RenderMembers(ms)| == |RenderMember(ms[0])| + 1 + |RenderMembers(ms[1..])|)
    decreases ms, 0
  {
    MembersSpelling(ts, k, ms);
    ValidMembersSplit(ms);
    MemberComplete(ts, k, ms[0]);
    if |ms| > 1 {
      MembersLength(ms);
    }
  }

  /** The members of an object, up to its closing brace, which ends at `n`, are accepted. */
  lemma {:induction false} MembersComplete(ts: seq<Token>, k: nat, ms: seq<Member>, n: nat)
    requires Readable(ts) && ms != [] && ValidMembers(ms)
    requires Spells(ts, k, RenderMembers(ms) + [Punct(TokenRightBrace)])
    requires n == k + |RenderMembers(ms)| + 1
    ensures k < |ts| && MembersAt(ts, k) == Accept(n)
    decreases ms, 1
  {
    var j := k + |RenderMember(ms[0])|;
    FirstMemberComplete(ts, k, ms);
    MembersTurn(ts, k, j);
    if |ms| > 1 {
      MembersComplete(ts, j + 1, ms[1..], n);
    }
  }

  lemma {:induction false} ArrayComplete(ts: seq<Token>, k: nat, vs: seq<Tree>)
    requires Readable(ts) && ValidTrees(vs)
    requires Spells(ts, k, Render(Array(vs)))
    ensures k < |ts| && ts[k].kind == TokenLeftBracket && ArrayAt(ts, k) == Accept(k + |Render(Array(vs))|)
    decreases vs, 2
  {
    ArraySpelling(ts, k, vs);
    if vs != [] {
      ElementsComplete(ts, k + 1, vs, k + |Render(Array(vs))|);
    }
  }

  /** The first value of a spelling of elements is accepted, and the bracket or the comma after it is in place. */
  lemma {:induction false} FirstElementComplete(ts: seq<Token>, k: nat, vs: seq<Tree>)
    requires Readable(ts) && vs != [] && ValidTrees(vs)
    requires Spells(ts, k, RenderElements(vs) + [Punct(TokenRightBracket)])
    ensures var j := k + |Render(vs[0])|;
      && ValueAt(ts, k) == Accept(j) && j < |ts|
      && (|vs| == 1 ==> ts[j].kind == TokenRightBracket && |RenderElements(vs)| == |Render(vs[0])|)
      && (|vs| > 1 ==>
            && ts[j].kind == TokenComma && ValidTrees(vs[1..])
            && Spells(ts, j + 1, RenderElements(vs[1..]) + [Punct(TokenRightBracket)])
            && |RenderElements(vs)| == |Render(vs[0])| + 1 + |RenderElements(vs[1..])|)
    decreases vs, 0
  {
    ElementsSpelling(ts, k, vs);
    ValidTreesSplit(vs);
    ValueComplete(ts, k, vs[0]);
    if |vs| > 1 {
      ElementsLength(vs);
    }
  }

  /** The elements of an array, up to its closing bracket, which ends at `n`, are accepted. */
  lemma {:induction false} ElementsComplete(ts: seq<Token>, k: nat, vs: seq<Tree>, n: nat)
    requires Readable(ts) && vs != [] && ValidTrees(vs)
    requires Spells(ts, k, RenderElements(vs) + [Punct(TokenRightBracket)])
    requires n == k + |RenderElements(vs)| + 1
    ensures k < |ts| && ElementsAt(ts, k) == Accept(n)
    decreases vs, 1
  {
    var j := k + |Render(vs[0])|;
    FirstElementComplete(ts, k, vs);
    ElementsTurn(ts, k, j);
    if |vs| > 1 {
      ElementsComplete(ts, j + 1, vs[1..], n);
    }
  }

  // ---------------------------------------------------------------- soundness

  /** Whatever the parser accepts as a value spells a tree, which ends where the parser stops. */
  lemma {:induction false} ValueSound(ts: seq<Token>, k: nat) returns (v: Tree)
    requires Readable(ts) && Spelled(ts) && k < |ts| && ValueAt(ts, k).Accept?
    ensures ValidTree(v) && Spells(ts, k, Render(v)) && ValueAt(ts, k).next == k + |Render(v)|
    decreases |ts| - k, 1
  {
    var tok := ts[k];
    if IsScalar(tok.kind) {
      v := Scalar(tok);
      assert Render(v) == [tok];
      SpellsOne(ts, k, tok);
    } else if tok.kind == TokenLeftBrace {
      var ms := ObjectSound(ts, k);
      v := Object(ms);
    } else {
      var vs := ArraySound(ts, k);
      v := Array(vs);
    }
  }

  lemma {:induction false} ObjectSound(ts: seq<Token>, k: nat) returns (ms: seq<Member>)
    requires Readable(ts) && Spelled(ts) && k < |ts| && ObjectAt(ts, k).Accept?
    ensures ValidMembers(ms) && Spells(ts, k, Render(Object(ms)))
    ensures ObjectAt(ts, k).next == k + |Render(Object(ms))|
    decreases |ts| - k, 0
  {
    SpelledPunct(ts, k);
    if ts[k + 1].kind == TokenRightBrace {
      SpelledPunct(ts, k + 1);
      ms := [];
    } else {
      ms := MembersSound(ts, k + 1);
    }
    ObjectSpelling(ts, k, ms);
  }

  /** An accepted member is the spelling of a key and a tree, and ends after it. */
  lemma {:induction false} MemberSound(ts: seq<Token>, k: nat) returns (m: Member)
    requires Readable(ts) && Spelled(ts) && k < |ts| && MemberAt(ts, k).Accept?
    ensures ValidTree(m.value) && Spells(ts, k, RenderMember(m))
    ensures MemberAt(ts, k).next == k + |RenderMember(m)|
    decreases |ts| - k, 0
  {
    var v := ValueSound(ts, k + 2);
    m := Member(ts[k].literal, v);
    SpelledPunct(ts, k + 1);
    MemberSpelling(ts, k, m);
  }

  /** Accepted members, up to the closing brace, spell a non-empty sequence of members and that brace. */
  lemma {:induction false} MembersSound(ts: seq<Token>, k: nat) returns (ms: seq<Member>)
    requires Readable(ts) && Spelled(ts) && k < |ts| && MembersAt(ts, k).Accept?
    ensures ms != [] && ValidMembers(ms) && Spells(ts, k, RenderMembers(ms) + [Punct(TokenRightBrace)])
    ensures MembersAt(ts, k).next == k + |RenderMembers(ms)| + 1
    decreases |ts| - k, 1
  {
    MembersStep(ts, k);
    var m := MemberSound(ts, k);
    var j := k + |RenderMember(m)|;
    SpelledPunct(ts, j);
    if ts[j].kind == TokenRightBrace {
      ms := [m];
      MembersSpelledBy(ts, k, m, [], j);
      assert [m] + [] == ms;
    } else {
      var rest := MembersSound(ts, j + 1);
      ms := [m] + rest;
      MembersSpelledBy(ts, k, m, rest, j);
      assert ms[0] == m && ms[1..] == rest;
      MembersLength(ms);
      ValidMembersSplit(ms);
    }
  }

  lemma {:induction false} ArraySound(ts: seq<Token>, k: nat) returns (vs: seq<Tree>)
    requires Readable(ts) && Spelled(ts) && k < |ts| && ts[k].kind == TokenLeftBracket && ArrayAt(ts, k).Accept?
    ensures ValidTrees(vs) && Spells(ts, k, Render(Array(vs)))
    ensures ArrayAt(ts, k).next == k + |Render(Array(vs))|
    decreases |ts| - k, 0
  {
    SpelledPunct(ts, k);
    if ts[k + 1].kind == TokenRightBracket {
      SpelledPunct(ts, k + 1);
      vs := [];
    } else {
      vs := ElementsSound(ts, k + 1);
    }
    ArraySpelling(ts, k, vs);
  }

  /** Accepted elements, up to the closing bracket, spell a non-empty sequence of trees and that bracket. */
  lemma {:induction false} ElementsSound(ts: seq<Token>, k: nat) returns (vs: seq<Tree>)
    requires Readable(ts) && Spelled(ts) && k < |ts| && ElementsAt(ts, k).Accept?
    ensures vs != [] && ValidTrees(vs)
    ensures Spells(ts, k, RenderElements(vs) + [Punct(TokenRightBracket)])
    ensures ElementsAt(ts, k).next == k + |RenderElements(vs)| + 1
    decreases |ts| - k, 2
  {
    ElementsStep(ts, k);
    var v := ValueSound(ts, k);
    var j := k + |Render(v)|;
    SpelledPunct(ts, j);
    if ts[j].kind == TokenRightBracket {
      vs := [v];
      ElementsSpelledBy(ts, k, v, [], j);
      assert [v] + [] == vs;
    } else {
      var rest := ElementsSound(ts, j + 1);
      vs := [v] + rest;
      ElementsSpelledBy(ts, k, v, rest, j);
      assert vs[0] == v && vs[1..] == rest;
      ElementsLength(vs);
      ValidTreesSplit(vs);
    }
  }

  /**
    The parser accepts an object at `k` exactly when the tokens from `k` on
    begin with the spelling of an object, and it then stops right after
    that spelling.
   */
  lemma ObjectAccepts(ts: seq<Token>, k: nat)
    requires Readable(ts) && Spelled(ts) && k < |ts|
    ensures ObjectAt(ts, k).Accept? <==> exists ms :: ValidMembers(ms) && Spells(ts, k, Render(Object(ms)))
    ensures forall ms :: ValidMembers(ms) && Spells(ts, k, Render(Object(ms))) ==>
      ObjectAt(ts, k) == Accept(k + |Render(Object(ms))|)
  {
    if ObjectAt(ts, k).Accept? {
      var ms := ObjectSound(ts, k);
    }
    forall ms | ValidMembers(ms) && Spells(ts, k, Render(Object(ms)))
      ensures ObjectAt(ts, k) == Accept(k + |Render(Object(ms))|)
    {
      ObjectComplete(ts, k, ms);
    }
  }
}
