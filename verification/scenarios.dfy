/** Small concrete rule sets and grammars, and what the model computes on them:
    keyword precedence by rule order, the `3 + 4` sum, an incomplete sum that
    fails to parse, and a character no rule covers. The patterns used (a
    literal, and a non-empty run of one character class such as digits or
    blanks) are written out as matchers. The lexing lemmas take the rule set as
    a parameter equal to `Arith` rather than naming the constant, which keeps
    the verifier from unfolding its definition everywhere. */
module Scenarios {
  import opened Streams
  import opened Values
  import opened Lexer
  import opened Parser

  /** Length of the longest prefix of `t` whose characters all satisfy `p`. */
  function RunLength(t: string, p: char -> bool): (n: nat)
    ensures n <= |t|
    ensures forall i :: 0 <= i < n ==> p(t[i])
    ensures n < |t| ==> !p(t[n])
  {
    if |t| == 0 || !p(t[0]) then 0 else 1 + RunLength(t[1..], p)
  }

  /** The pattern `[class]+`: the longest non-empty run of the class. */
  function RunOf(p: char -> bool, t: string): (r: Option<nat>)
    ensures r.Some? ==> 0 < r.value <= |t|
  {
    var n := RunLength(t, p); if n > 0 then Some(n) else None
  }

  /** A literal pattern such as `if` or `\+`. */
  function LiteralOf(w: string, t: string): (r: Option<nat>)
    ensures r.Some? ==> r.value == |w| <= |t|
  {
    if w != [] && w <= t then Some(|w|) else None
  }

  /** The patterns `\+`, `if` and `[a-z]+`, and ASCII approximations of `\d+`
      and `\s+` (on strings Python's classes also admit non-ASCII digits and
      whitespace). */
  function Digits(t: string): Option<nat> { RunOf(IsDigit, t) }
  function PlusSign(t: string): Option<nat> { LiteralOf("+", t) }
  function Blanks(t: string): Option<nat> { RunOf(IsSpace, t) }
  function IfKeyword(t: string): Option<nat> { LiteralOf("if", t) }
  function Lowers(t: string): Option<nat> { RunOf(IsLower, t) }

  predicate IsDigit(c: char) { '0' <= c <= '9' }
  predicate IsLower(c: char) { 'a' <= c <= 'z' }
  predicate IsSpace(c: char) { c == ' ' || c == '\t' || c == '\n' || c == '\r' || c == '\U{0B}' || c == '\U{0C}' }

  /** Value of a string of decimal digits. */
  function Decimal(s: string): int {
    if |s| == 0 then 0 else 10 * Decimal(s[..|s| - 1]) + (s[|s| - 1] as int - '0' as int)
  }

  // ---------------------------------------------------------------------------
  // Rule order decides between rules that match the same prefix.

  const Keywords: Lex := Lex([Rule("KW", IfKeyword), Rule("ID", Lowers)], [])

  /** Both rules match "if"; the keyword rule is declared first and wins. */
  lemma KeywordRuleWins()
    ensures Keywords.rules[1].matcher("if").Some?
    ensures Tokenize(Keywords, "if") == Lexed(New([Token("KW", "if")]))
  {
    assert RunLength("if", IsLower) == 2;
    TokenizeRestStep(Keywords, "if", 0, 2);
    assert "if"[2..] == [] && "if"[..2] == "if";
    assert [Token("KW", "if")] + [] == [Token("KW", "if")];
  }

  // ---------------------------------------------------------------------------
  // Sums of two numbers, whitespace dropped.

  const Arith: Lex :=
    Lex([Rule("NUM", Digits), Rule("PLUS", PlusSign), Rule("WS", Blanks)], ["WS"])

  /** A single digit not followed by another is a NUM token. */
  lemma DigitIsNumber(l: Lex, u: string)
    requires l == Arith
    requires |u| > 0 && IsDigit(u[0]) && (|u| == 1 || !IsDigit(u[1]))
    ensures TokenizeRest(l, u) == Prepend([Token("NUM", u[..1])], TokenizeRest(l, u[1..]))
  {
    assert RunLength(u, IsDigit) == 1;
    assert l.rules[0].matcher(u) == Some(1);
    TokenizeRestStep(l, u, 0, 1);
  }

  /** A `+` is a PLUS token. */
  lemma PlusIsPlus(l: Lex, u: string)
    requires l == Arith
    requires |u| > 0 && u[0] == '+'
    ensures TokenizeRest(l, u) == Prepend([Token("PLUS", "+")], TokenizeRest(l, u[1..]))
  {
    assert u[..1] == "+";
    assert RunLength(u, IsDigit) == 0;
    assert l.rules[0].matcher(u) == None;
    assert l.rules[1].matcher(u) == Some(1);
    TokenizeRestStep(l, u, 1, 1);
  }

  /** A single blank not followed by more whitespace is consumed and dropped. */
  lemma BlankIsDropped(l: Lex, u: string)
    requires l == Arith
    requires |u| > 0 && u[0] == ' ' && (|u| == 1 || !IsSpace(u[1]))
    ensures TokenizeRest(l, u) == TokenizeRest(l, u[1..])
  {
    assert RunLength(u, IsDigit) == 0 && RunLength(u, IsSpace) == 1;
    assert l.rules[0].matcher(u) == None;
    assert l.rules[1].matcher(u) == None;
    assert l.rules[2].matcher(u) == Some(1);
    TokenizeRestStep(l, u, 2, 1);
    PrependEmpty(TokenizeRest(l, u[1..]));
  }

  /** No rule matches `#`: lexing stops there and reports the rest of the line. */
  lemma HashIsUncovered(l: Lex, u: string)
    requires l == Arith
    requires |u| > 0 && u[0] == '#'
    ensures TokenizeRest(l, u) == LexError(Snippet(u))
  {
    assert RunLength(u, IsDigit) == 0 && RunLength(u, IsSpace) == 0;
    assert l.rules[0].matcher(u) == None;
    assert l.rules[1].matcher(u) == None;
    assert l.rules[2].matcher(u) == None;
    assert FirstMatch(l.rules, u).None?;
  }

  /** `int(a) + int(c)` over the results of `NUM PLUS NUM`. */
  function AddOperands(args: seq<Value>): Value {
    if |args| == 3 && args[0].Str? && args[2].Str? then Int(Decimal(args[0].s) + Decimal(args[2].s))
    else NoneValue
  }

  const Sum: Grammar := map["start" := [Production(["NUM", "PLUS", "NUM"], AddOperands)]]

  const SumTokens: seq<Token> := [Token("NUM", "3"), Token("PLUS", "+"), Token("NUM", "4")]

  // "3 + 4", lexed from the end: each lemma adds one turn of the loop.

  lemma LexFour(l: Lex)
    requires l == Arith
    ensures TokenizeRest(l, "4") == Lexed([Token("NUM", "4")])
  {
    assert "4"[1..] == [] && "4"[..1] == "4";
    DigitIsNumber(l, "4");
    assert [Token("NUM", "4")] + [] == [Token("NUM", "4")];
  }

  lemma LexBlankFour(l: Lex)
    requires l == Arith
    ensures TokenizeRest(l, " 4") == Lexed([Token("NUM", "4")])
  {
    LexFour(l);
    assert " 4"[1..] == "4";
    BlankIsDropped(l, " 4");
  }

  lemma LexPlusFour(l: Lex)
    requires l == Arith
    ensures TokenizeRest(l, "+ 4") == Lexed([Token("PLUS", "+"), Token("NUM", "4")])
  {
    LexBlankFour(l);
    assert "+ 4"[1..] == " 4";
    PlusIsPlus(l, "+ 4");
    assert [Token("PLUS", "+")] + [Token("NUM", "4")] == [Token("PLUS", "+"), Token("NUM", "4")];
  }

  lemma LexBlankPlusFour(l: Lex)
    requires l == Arith
    ensures TokenizeRest(l, " + 4") == Lexed([Token("PLUS", "+"), Token("NUM", "4")])
  {
    LexPlusFour(l);
    assert " + 4"[1..] == "+ 4";
    BlankIsDropped(l, " + 4");
  }

  /** The blanks are consumed and dropped; the stream holds NUM PLUS NUM. */
  lemma LexSum(l: Lex)
    requires l == Arith
    ensures Tokenize(l, "3 + 4") == Lexed(New(SumTokens))
  {
    LexBlankPlusFour(l);
    assert "3 + 4"[1..] == " + 4" && "3 + 4"[..1] == "3";
    DigitIsNumber(l, "3 + 4");
    assert [Token("NUM", "3")] + [Token("PLUS", "+"), Token("NUM", "4")] == SumTokens;
  }

  /** The only production matches all three tokens and its reducer adds the
      operands. */
  lemma ParseSum()
    ensures Parse(Sum, "start", New(SumTokens), 1) == Parsed(Int(7), TokenStream(SumTokens, 3))
  {
    var s := New(SumTokens);
    TerminalRun(Sum, ["NUM", "PLUS", "NUM"], s, 0, 0);
    assert TerminalsAt(["NUM", "PLUS", "NUM"], SumTokens, 0);
    ParseFirstCompletingWins(Sum, "start", s, 1, 0);
    assert Decimal("3") == 3 && Decimal("4") == 4;
  }

  // "3 +" lexes, but does not parse.

  const ShortTokens: seq<Token> := [Token("NUM", "3"), Token("PLUS", "+")]

  lemma LexPlus(l: Lex)
    requires l == Arith
    ensures TokenizeRest(l, "+") == Lexed([Token("PLUS", "+")])
  {
    assert "+"[1..] == [];
    PlusIsPlus(l, "+");
    assert [Token("PLUS", "+")] + [] == [Token("PLUS", "+")];
  }

  lemma LexBlankPlus(l: Lex)
    requires l == Arith
    ensures TokenizeRest(l, " +") == Lexed([Token("PLUS", "+")])
  {
    LexPlus(l);
    assert " +"[1..] == "+";
    BlankIsDropped(l, " +");
  }

  lemma IncompleteSumLexes(l: Lex)
    requires l == Arith
    ensures Tokenize(l, "3 +") == Lexed(New(ShortTokens))
  {
    LexBlankPlus(l);
    assert "3 +"[1..] == " +" && "3 +"[..1] == "3";
    DigitIsNumber(l, "3 +");
    assert [Token("NUM", "3")] + [Token("PLUS", "+")] == ShortTokens;
  }

  /** No NUM follows the PLUS: the only production fails, and the stream is
      back at its start. */
  lemma IncompleteSumFails()
    ensures Parse(Sum, "start", New(ShortTokens), 1) == Parsed(FailureMarker, New(ShortTokens))
  {
    var s := New(ShortTokens);
    TerminalRun(Sum, ["NUM", "PLUS", "NUM"], s, 0, 0);
    ParseAllFailRestores(Sum, "start", s, 1);
  }

  // A character no rule covers.

  lemma UncoveredCharacterFails(l: Lex)
    requires l == Arith
    ensures Tokenize(l, "3#") == LexError("#")
  {
    assert "3#"[1..] == "#" && "3#"[..1] == "3";
    HashIsUncovered(l, "#");
    DigitIsNumber(l, "3#");
  }

  /** A remainder of several lines is reported by its first line only. */
  lemma HashLineIsReported(l: Lex)
    requires l == Arith
    ensures TokenizeRest(l, "#\nmore") == LexError("#")
  {
    var u := "#\nmore";
    assert u[0] == '#' && u[1] == '\n';
    assert Snippet(u[1..]) == [];
    assert Snippet(u) == "#";
    HashIsUncovered(l, u);
  }

  /** The error reports only the first line of what is left. */
  lemma ErrorShowsFirstLine(l: Lex)
    requires l == Arith
    ensures Tokenize(l, "3#\nmore") == LexError("#")
  {
    assert "3#\nmore"[1..] == "#\nmore" && "3#\nmore"[..1] == "3";
    HashLineIsReported(l);
    DigitIsNumber(l, "3#\nmore");
  }
}
