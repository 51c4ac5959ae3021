/**
  The numbers the lexer accepts, the regular language
  -? d* ( . d* )? ( [eE] [+-]? d* )?, defined twice: part by part
  (IsNumberPattern) and by running the number automaton over a whole text
  (IsNumberShape). The two agree, and the lexer's greedy scan
  (LexSpec.NumberEnd) stops at the end of the longest prefix in the
  language. Every part is optional, so "-", "1.", "1e", "-.5", "-e5" and
  "007" all have the shape.
 */
module NumberShape {
  import opened Tokens
  import opened LexSpec

  /** The state the number automaton reaches after reading all of `s` from `q`. */
  function Run(q: NumState, s: seq<char>): NumState
    decreases |s|
  {
    if s == [] then q else Run(Step(q, s[0]), s[1..])
  }

  /** `s` is a number as the lexer understands it: the automaton does not die on it. */
  predicate IsNumberShape(s: seq<char>) {
    Run(Start, s) != Dead
  }

  /** Nothing revives a dead automaton. */
  lemma {:induction false} RunDead(s: seq<char>)
    ensures Run(Dead, s) == Dead
    decreases |s|
  {
    if s != [] {
      RunDead(s[1..]);
    }
  }

  /** Running over the slice `t[i..e]` steps on `t[i]` and then runs over `t[i + 1..e]`. */
  lemma RunCons(q: NumState, t: seq<char>, i: nat, e: nat)
    requires i < e <= |t|
    ensures Run(q, t[i..e]) == Run(Step(q, t[i]), t[i + 1..e])
  {
    assert t[i..e][0] == t[i];
    assert t[i..e][1..] == t[i + 1..e];
  }

  /** What the scan from a live state `q` consumes keeps the automaton alive. */
  lemma {:induction false} ScanAlive(q: NumState, t: seq<char>, i: nat)
    requires i <= |t| && q != Dead
    ensures Run(q, t[i..ScanEnd(q, t, i)]) != Dead
    decreases |t| - i
  {
    var e := ScanEnd(q, t, i);
    if i == |t| || Step(q, t[i]) == Dead {
      assert t[i..e] == [];
    } else {
      RunCons(q, t, i, e);
      ScanAlive(Step(q, t[i]), t, i + 1);
    }
  }

  /** Reading past where the scan stops kills the automaton. */
  lemma {:induction false} ScanDies(q: NumState, t: seq<char>, i: nat, k: nat)
    requires i <= |t| && ScanEnd(q, t, i) < k <= |t|
    ensures Run(q, t[i..k]) == Dead
    decreases |t| - i
  {
    RunCons(q, t, i, k);
    if Step(q, t[i]) == Dead {
      RunDead(t[i + 1..k]);
    } else {
      ScanDies(Step(q, t[i]), t, i + 1, k);
    }
  }

  /**
    The number pattern `-? d* (. d*)? ([eE] [+-]? d*)?` read part by part,
    independently of the automaton: an optional minus, the integer digits,
    an optional fraction, an optional exponent, and then nothing more. Each
    part is told from the next by its first character, so reading each part
    as far as it goes is the only way to match.
   */
  predicate IsNumberPattern(s: seq<char>) {
    ExponentEnd(s, FractionEnd(s, RunEnd(s, SignEnd(s), Digits))) == |s|
  }

  /** Where the optional minus sign at the start of `s` ends. */
  function SignEnd(s: seq<char>): (a: nat)
    ensures a <= |s|
  {
    if 0 < |s| && s[0] == '-' then 1 else 0
  }

  /** Where the optional fraction at `b`, a dot and digits, ends. */
  function FractionEnd(s: seq<char>, b: nat): (c: nat)
    requires b <= |s|
    ensures b <= c <= |s|
  {
    if b < |s| && s[b] == '.' then RunEnd(s, b + 1, Digits) else b
  }

  /** Where the optional exponent at `c`, a marker, an optional sign and digits, ends. */
  function ExponentEnd(s: seq<char>, c: nat): (d: nat)
    requires c <= |s|
    ensures c <= d <= |s|
  {
    if c < |s| && (s[c] == 'e' || s[c] == 'E') then
      RunEnd(s, if c + 1 < |s| && (s[c + 1] == '+' || s[c + 1] == '-') then c + 2 else c + 1, Digits)
    else c
  }

  /** The automaton, in state `q`, survives the rest of `s` from `i`. */
  predicate Alive(q: NumState, s: seq<char>, i: nat)
    requires i <= |s|
  {
    Run(q, s[i..]) != Dead
  }

  /** One step of the automaton on `s[i]`. */
  lemma AliveStep(q: NumState, s: seq<char>, i: nat)
    requires i < |s|
    ensures Alive(q, s, i) == Alive(Step(q, s[i]), s, i + 1)
  {
    assert s[i..][0] == s[i];
    assert s[i..][1..] == s[i + 1..];
  }

  /** At the end of the text the automaton is alive unless it is dead. */
  lemma AliveEnd(q: NumState, s: seq<char>)
    ensures Alive(q, s, |s|) == (q != Dead)
  {
    assert s[|s|..] == [];
  }

  /** A dead automaton stays dead. */
  lemma NotAliveDead(s: seq<char>, i: nat)
    requires i <= |s|
    ensures !Alive(Dead, s, i)
  {
    RunDead(s[i..]);
  }

  /** The digit states read a run of digits without changing. */
  lemma {:induction false} AliveDigits(q: NumState, s: seq<char>, i: nat)
    requires i <= |s| && (q == Int || q == Frac || q == ExpDigits)
    ensures Alive(q, s, i) == Alive(q, s, RunEnd(s, i, Digits))
    decreases |s| - i
  {
    if i < |s| && IsDigit(s[i]) {
      AliveStep(q, s, i);
      AliveDigits(q, s, i + 1);
    }
  }

  /** The exponent digit state survives from `e` exactly when the digits from `e` run to the end. */
  lemma AliveExponentDigits(s: seq<char>, e: nat)
    requires e <= |s|
    ensures Alive(ExpDigits, s, e) == (RunEnd(s, e, Digits) == |s|)
  {
    var d := RunEnd(s, e, Digits);
    AliveDigits(ExpDigits, s, e);
    RunEndMaximal(s, e, Digits);
    if d == |s| {
      AliveEnd(ExpDigits, s);
    } else {
      AliveStep(ExpDigits, s, d);
      NotAliveDead(s, d + 1);
    }
  }

  /** After the exponent marker at `c`, the automaton survives exactly when the exponent ends the text. */
  lemma AliveExponent(s: seq<char>, c: nat)
    requires c < |s| && (s[c] == 'e' || s[c] == 'E')
    ensures Alive(Exp, s, c + 1) == (ExponentEnd(s, c) == |s|)
  {
    if c + 1 == |s| {
      AliveEnd(Exp, s);
    } else {
      AliveStep(Exp, s, c + 1);
      AliveExponentDigits(s, c + 2);
      if s[c + 1] != '+' && s[c + 1] != '-' {
        if IsDigit(s[c + 1]) {
          assert RunEnd(s, c + 1, Digits) == RunEnd(s, c + 2, Digits);
        } else {
          NotAliveDead(s, c + 2);
        }
      }
    }
  }

  /** After the fraction's digits, at `c`, only an exponent may follow. */
  lemma AliveAfterFraction(s: seq<char>, c: nat)
    requires c <= |s| && (c == |s| || !IsDigit(s[c]))
    ensures Alive(Frac, s, c) == (ExponentEnd(s, c) == |s|)
  {
    if c == |s| {
      AliveEnd(Frac, s);
    } else {
      AliveStep(Frac, s, c);
      if s[c] == 'e' || s[c] == 'E' {
        AliveExponent(s, c);
      } else {
        NotAliveDead(s, c + 1);
      }
    }
  }

  /** After the integer digits, at `b`, an optional fraction and an optional exponent may follow. */
  lemma AliveAfterInteger(s: seq<char>, b: nat)
    requires b <= |s| && (b == |s| || !IsDigit(s[b]))
    ensures Alive(Int, s, b) == (ExponentEnd(s, FractionEnd(s, b)) == |s|)
  {
    if b == |s| {
      AliveEnd(Int, s);
    } else {
      AliveStep(Int, s, b);
      if s[b] == '.' {
        var c := RunEnd(s, b + 1, Digits);
        AliveDigits(Frac, s, b + 1);
        RunEndMaximal(s, b + 1, Digits);
        AliveAfterFraction(s, c);
      } else if s[b] == 'e' || s[b] == 'E' {
        AliveExponent(s, b);
      } else {
        NotAliveDead(s, b + 1);
      }
    }
  }

  /** The pattern read part by part and the automaton accept the same texts. */
  lemma NumberPatternIsShape(s: seq<char>)
    ensures IsNumberPattern(s) <==> IsNumberShape(s)
  {
    var a := SignEnd(s);
    assert s[0..] == s;
    // the start state reads like the integer state once past an optional minus
    if 0 < |s| {
      AliveStep(Start, s, 0);
      AliveStep(Int, s, 0);
    } else {
      AliveEnd(Start, s);
      AliveEnd(Int, s);
    }
    assert Alive(Start, s, 0) == Alive(Int, s, a);
    AliveDigits(Int, s, a);
    RunEndMaximal(s, a, Digits);
    AliveAfterInteger(s, RunEnd(s, a, Digits));
  }

  /**
    Maximal munch: the text the lexer takes as a number from `i` has the
    number shape, and no longer text from `i` has it.
   */
  lemma NumberMaximalMunch(t: seq<char>, i: nat)
    requires i <= |t|
    ensures IsNumberShape(t[i..NumberEnd(t, i)])
    ensures forall k :: NumberEnd(t, i) < k <= |t| ==> !IsNumberShape(t[i..k])
  {
    ScanAlive(Start, t, i);
    forall k | NumberEnd(t, i) < k <= |t| ensures !IsNumberShape(t[i..k]) {
      ScanDies(Start, t, i, k);
    }
  }

  /**
    At a digit or minus sign the lexer produces a Number token whose literal
    is exactly the consumed text, the longest text there that matches the
    number pattern; nothing beyond that pattern is validated.
   */
  lemma LexNumber(t: seq<char>, i: nat)
    requires i < |t| && (IsDigit(t[i]) || t[i] == '-')
    ensures Lex(t, i).token.kind == TokenNumber
    ensures Lex(t, i).token.literal == t[i..Lex(t, i).end]
    ensures IsNumberPattern(t[i..Lex(t, i).end])
    ensures forall k :: Lex(t, i).end < k <= |t| ==> !IsNumberPattern(t[i..k])
  {
    assert RunEnd(t, i, Whitespace) == i;
    NumberMaximalMunch(t, i);
    NumberPatternIsShape(t[i..NumberEnd(t, i)]);
    forall k | NumberEnd(t, i) < k <= |t| ensures !IsNumberPattern(t[i..k]) {
      NumberPatternIsShape(t[i..k]);
    }
  }

  /** The characters a number can be made of. */
  predicate IsNumberChar(c: char) {
    IsDigit(c) || c == '-' || c == '+' || c == '.' || c == 'e' || c == 'E'
  }

  /**
    A scan from `q` that survives `t[i..n]`, where the next character cannot
    continue a number, stops exactly at `n`.
   */
  lemma {:induction false} ScanEndAt(q: NumState, t: seq<char>, i: nat, n: nat)
    requires i <= n <= |t| && Run(q, t[i..n]) != Dead
    requires n == |t| || !IsNumberChar(t[n])
    ensures ScanEnd(q, t, i) == n
    decreases n - i
  {
    if i == n {
      assert t[i..n] == [];
    } else {
      RunCons(q, t, i, n);
      if Step(q, t[i]) == Dead {
        RunDead(t[i + 1..n]);
      }
      ScanEndAt(Step(q, t[i]), t, i + 1, n);
    }
  }

  /**
    A text matching the number pattern, starting with a digit or minus sign
    and followed by a character that cannot continue it, is one Number token
    whose literal is exactly that text.
   */
  lemma LexNumberLiteral(t: seq<char>, i: nat, lit: string)
    requires Spells(t, i, lit) && IsNumberPattern(lit)
    requires 0 < |lit| && (IsDigit(lit[0]) || lit[0] == '-')
    requires i + |lit| < |t| ==> !IsNumberChar(t[i + |lit|])
    ensures Lex(t, i) == Lexed(Token(TokenNumber, lit), i + |lit|)
  {
    SpellsSlice(t, i, lit);
    assert t[i] == lit[0];
    NumberPatternIsShape(lit);
    ScanEndAt(Start, t, i, i + |lit|);
    assert RunEnd(t, i, Whitespace) == i;
  }

  /** Texts that are no JSON numbers but that the lexer still takes, whole, as one Number token. */
  lemma LooseNumbers()
    ensures Lex("-", 0) == Lexed(Token(TokenNumber, "-"), 1)
    ensures Lex("1.", 0) == Lexed(Token(TokenNumber, "1."), 2)
    ensures Lex("1e", 0) == Lexed(Token(TokenNumber, "1e"), 2)
    ensures Lex("-.5", 0) == Lexed(Token(TokenNumber, "-.5"), 3)
    ensures Lex("-e5", 0) == Lexed(Token(TokenNumber, "-e5"), 3)
    ensures Lex("007", 0) == Lexed(Token(TokenNumber, "007"), 3)
  {
    assert "1."[0..2] == "1.";
    assert "1e"[0..2] == "1e";
    assert "-.5"[0..3] == "-.5";
    assert "-e5"[0..3] == "-e5";
    assert "007"[0..3] == "007";
  }
}
