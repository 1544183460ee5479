/** The lexer: an ordered list of (kind, pattern) rules and a list of kinds to
    drop. At each position the FIRST rule whose anchored match succeeds wins
    (not the longest); the matched prefix is consumed whether or not its kind is
    dropped. The regular-expression engine is a library outside this model, so a
    compiled pattern is an abstract prefix matcher. */
module Lexer {
  import opened Streams

  datatype Option<+T> = None | Some(value: T)

  /** A compiled, start-anchored pattern: on a match it gives the length of the
      matched prefix, which never exceeds the text. A zero-length match is
      allowed, as it is for regular expressions. */
  type Matcher = m: string -> Option<nat> | forall t :: m(t).Some? ==> m(t).value <= |t|
    witness (t: string) => None

  datatype Rule = Rule(kind: string, matcher: Matcher)

  /** A configured lexer: rules in declaration order, and the kinds to drop. */
  datatype Lex = Lex(rules: seq<Rule>, ignore: seq<string>)

  /** Building a lexer compiles every (name, pattern) pair once, keeping the
      declared order; `compile` stands for the regular-expression compiler. */
  function NewLex<P>(tokenList: seq<(string, P)>, ignoreList: seq<string>, compile: P -> Matcher): (l: Lex)
    ensures |l.rules| == |tokenList| && l.ignore == ignoreList
    ensures forall i :: 0 <= i < |tokenList| ==>
              l.rules[i].kind == tokenList[i].0 && l.rules[i].matcher == compile(tokenList[i].1)
  {
    Lex(seq(|tokenList|, i requires 0 <= i < |tokenList| => Rule(tokenList[i].0, compile(tokenList[i].1))), ignoreList)
  }

  /** The winning rule at a position and the length of its match. */
  datatype Hit = Hit(rule: nat, len: nat)

  /** The rule that wins on `text`: the lowest-indexed one whose matcher
      succeeds, or None when no rule matches. */
  function FirstMatch(rules: seq<Rule>, text: string): (r: Option<Hit>)
    ensures r.Some? ==> r.value.rule < |rules|
                        && rules[r.value.rule].matcher(text) == Some(r.value.len)
                        && r.value.len <= |text|
                        && forall j :: 0 <= j < r.value.rule ==> rules[j].matcher(text).None?
    ensures r.None? <==> forall j :: 0 <= j < |rules| ==> rules[j].matcher(text).None?
  {
    if |rules| == 0 then None
    else match rules[0].matcher(text)
      case Some(n) => Some(Hit(0, n))
      case None =>
        match FirstMatch(rules[1..], text)
        case Some(h) => Some(Hit(h.rule + 1, h.len))
        case None => None
  }

  /** The first line of `text`: everything before the first newline, or the
      whole text when it has none. */
  function Snippet(text: string): (r: string)
    ensures r <= text
    ensures '\n' !in r
    ensures |r| < |text| ==> text[|r|] == '\n'
  {
    if |text| == 0 || text[0] == '\n' then [] else [text[0]] + Snippet(text[1..])
  }

  /** The message the lexing error carries for a stuck remainder. */
  function ErrorMessage(snippet: string): (m: string)
    ensures |m| == |snippet| + 14
    ensures m[..10] == "Error at: " && m[10..|m| - 4] == snippet && m[|m| - 4..] == " ..."
  {
    "Error at: " + snippet + " ..."
  }

  /** Outcome of lexing. `LexError` carries the first line of the text no rule
      matches. `Diverges` stands for the source looping forever: the winning rule
      matched zero characters, so the text never shrinks. */
  datatype LexResult<+T> = Lexed(value: T) | LexError(snippet: string) | Diverges

  /** Puts `acc` in front of a successful token list; failures pass through. */
  function Prepend(acc: seq<Token>, r: LexResult<seq<Token>>): LexResult<seq<Token>> {
    match r
    case Lexed(ts) => Lexed(acc + ts)
    case LexError(e) => LexError(e)
    case Diverges => Diverges
  }

  /** The tokens emitted for `text`, one step of the source loop per call. */
  function TokenizeRest(l: Lex, text: string): (r: LexResult<seq<Token>>)
    ensures text == [] ==> r == Lexed([])
    ensures r.Lexed? ==> |r.value| <= |text|
    ensures r.Lexed? ==> forall i :: 0 <= i < |r.value| ==>
                           r.value[i].kind !in l.ignore && r.value[i].lexeme != []
    ensures r.LexError? ==> '\n' !in r.snippet
    decreases |text|
  {
    if |text| == 0 then Lexed([])
    else match FirstMatch(l.rules, text)
      case None => LexError(Snippet(text))
      case Some(h) =>
        if h.len == 0 then Diverges
        else
          var kind := l.rules[h.rule].kind;
          var emitted := if kind in l.ignore then [] else [Token(kind, text[..h.len])];
          Prepend(emitted, TokenizeRest(l, text[h.len..]))
  }

  /** `tokenize`: on success, a fresh stream over the emitted tokens. */
  function Tokenize(l: Lex, text: string): (r: LexResult<TokenStream>)
    ensures r.Lexed? ==> r.value.Valid() && r.value.head == 0
  {
    match TokenizeRest(l, text)
    case Lexed(ts) => Lexed(New(ts))
    case LexError(e) => LexError(e)
    case Diverges => Diverges
  }

  lemma PrependEmpty(r: LexResult<seq<Token>>)
    ensures Prepend([], r) == r
  {
    if r.Lexed? {
      assert [] + r.value == r.value;
    }
  }

  lemma PrependAppend(a: seq<Token>, b: seq<Token>, r: LexResult<seq<Token>>)
    ensures Prepend(a + b, r) == Prepend(a, Prepend(b, r))
  {
    if r.Lexed? {
      assert a + b + r.value == a + (b + r.value);
    }
  }

  /** The rule the inner `for` loop stops at is the one `FirstMatch` picks. */
  lemma FirstMatchIsLowestMatching(rules: seq<Rule>, text: string, i: nat)
    requires i < |rules| && rules[i].matcher(text).Some?
    requires forall j :: 0 <= j < i ==> rules[j].matcher(text).None?
    ensures FirstMatch(rules, text) == Some(Hit(i, rules[i].matcher(text).value))
  {
  }

  /** One turn of the source's `while` loop: when rule `i` is the first whose
      matcher succeeds, its match is cut off and emitted unless its kind is
      dropped, whatever later rules would have matched. */
  lemma TokenizeRestStep(l: Lex, text: string, i: nat, n: nat)
    requires text != [] && i < |l.rules| && l.rules[i].matcher(text) == Some(n) && n > 0
    requires forall j :: 0 <= j < i ==> l.rules[j].matcher(text).None?
    ensures n <= |text|
    ensures TokenizeRest(l, text) ==
            Prepend(if l.rules[i].kind in l.ignore then [] else [Token(l.rules[i].kind, text[..n])],
                    TokenizeRest(l, text[n..]))
  {
    FirstMatchIsLowestMatching(l.rules, text, i);
  }

  /** The source's inner `for` loop: the index of the first rule that matches
      `text`, or `|rules|` (the `else` branch) when none does. */
  method FindRule(rules: seq<Rule>, text: string) returns (i: nat)
    ensures i <= |rules|
    ensures i < |rules| ==> rules[i].matcher(text).Some?
    ensures forall j :: 0 <= j < i ==> rules[j].matcher(text).None?
  {
    i := 0;
    while i < |rules| && rules[i].matcher(text).None?
      invariant i <= |rules|
      invariant forall j :: 0 <= j < i ==> rules[j].matcher(text).None?
    {
      i := i + 1;
    }
  }

  /** The source's while/for loop, step by step: the token list it accumulates
      and the text left to lex. It yields exactly what `Tokenize` defines. */
  method TokenizeLoop(l: Lex, text: string) returns (r: LexResult<TokenStream>)
    ensures r == Tokenize(l, text)
  {
    var matched: seq<Token> := [];
    var rest := text;
    PrependEmpty(TokenizeRest(l, text));
    while rest != []
      invariant Prepend(matched, TokenizeRest(l, rest)) == TokenizeRest(l, text)
      decreases |rest|
    {
      var i := FindRule(l.rules, rest);
      if i == |l.rules| {
        assert FirstMatch(l.rules, rest).None?;
        return LexError(Snippet(rest));
      }
      var n := l.rules[i].matcher(rest).value;
      FirstMatchIsLowestMatching(l.rules, rest, i);
      if n == 0 {
        return Diverges;
      }
      var kind := l.rules[i].kind;
      var emitted := if kind in l.ignore then [] else [Token(kind, rest[..n])];
      assert TokenizeRest(l, rest) == Prepend(emitted, TokenizeRest(l, rest[n..]));
      PrependAppend(matched, emitted, TokenizeRest(l, rest[n..]));
      matched := matched + emitted;
      rest := rest[n..];
    }
    assert matched + [] == matched;
    return Lexed(New(matched));
  }

  // ---------------------------------------------------------------------------
  // A declarative account of lexing, independent of the loop above.

  /** Concatenation of the lexemes of `ps`, in order. */
  function Concat(ps: seq<Token>): string {
    if |ps| == 0 then [] else ps[0].lexeme + Concat(ps[1..])
  }

  /** The tokens of `ps` whose kind is not dropped, in order. */
  function Kept(ps: seq<Token>, ignore: seq<string>): (r: seq<Token>)
    ensures |r| <= |ps|
    ensures forall t :: t in r ==> t in ps && t.kind !in ignore
    ensures forall t :: t in ps && t.kind !in ignore ==> t in r
  {
    if |ps| == 0 then []
    else (if ps[0].kind in ignore then [] else [ps[0]]) + Kept(ps[1..], ignore)
  }

  /** `p` is the piece first-match-wins lexing cuts off the front of `text`:
      the kind of the lowest-indexed matching rule and its (non-empty) match. */
  predicate Winner(rules: seq<Rule>, text: string, p: Token) {
    var m := FirstMatch(rules, text);
    m.Some? && 0 < m.value.len && p == Token(rules[m.value.rule].kind, text[..m.value.len])
  }

  /** Cutting the pieces `ps` off `text`, each by first-match-wins, leaves `rest`. */
  predicate Consumes(rules: seq<Rule>, ps: seq<Token>, text: string, rest: string)
    decreases |ps|
  {
    if |ps| == 0 then text == rest
    else Winner(rules, text, ps[0]) && Consumes(rules, ps[1..], text[|ps[0].lexeme|..], rest)
  }

  /** Every piece cut from the text, dropped kinds included, and where lexing
      stopped: at the end, at a remainder no rule matches, or at a remainder
      whose winning rule matches nothing. */
  datatype ScanResult =
    | Scanned(pieces: seq<Token>)
    | Stuck(pieces: seq<Token>, rest: string)
    | Stalled(pieces: seq<Token>, rest: string)

  /** Reference lexer that keeps every piece. */
  function Scan(rules: seq<Rule>, text: string): (r: ScanResult)
    ensures r.Scanned? ==> Consumes(rules, r.pieces, text, [])
    ensures r.Stuck? ==> Consumes(rules, r.pieces, text, r.rest) && r.rest != []
                         && FirstMatch(rules, r.rest).None?
    ensures r.Stalled? ==> Consumes(rules, r.pieces, text, r.rest) && r.rest != []
                           && FirstMatch(rules, r.rest).Some? && FirstMatch(rules, r.rest).value.len == 0
    decreases |text|
  {
    if |text| == 0 then Scanned([])
    else match FirstMatch(rules, text)
      case None => Stuck([], text)
      case Some(h) =>
        if h.len == 0 then Stalled([], text)
        else
          var p := Token(rules[h.rule].kind, text[..h.len]);
          match Scan(rules, text[h.len..])
          case Scanned(ps) => Scanned([p] + ps)
          case Stuck(ps, rest) => Stuck([p] + ps, rest)
          case Stalled(ps, rest) => Stalled([p] + ps, rest)
  }

  /** The winning piece is a non-empty prefix of the text. */
  lemma WinnerIsPrefix(rules: seq<Rule>, text: string, p: Token)
    requires Winner(rules, text, p)
    ensures 0 < |p.lexeme| <= |text| && p.lexeme == text[..|p.lexeme|]
  {
  }

  lemma ConcatStep(ps: seq<Token>, rest: string)
    requires |ps| > 0
    ensures Concat(ps) + rest == ps[0].lexeme + (Concat(ps[1..]) + rest)
  {
  }

  /** Lexing loses nothing: the pieces cut off, followed by what is left, spell
      the input exactly. */
  lemma {:induction false} ConsumesLossless(rules: seq<Rule>, ps: seq<Token>, text: string, rest: string)
    requires Consumes(rules, ps, text, rest)
    ensures Concat(ps) + rest == text
    decreases |ps|
  {
    if |ps| > 0 {
      var n := |ps[0].lexeme|;
      WinnerIsPrefix(rules, text, ps[0]);
      ConsumesLossless(rules, ps[1..], text[n..], rest);
      ConcatStep(ps, rest);
      assert text[..n] + text[n..] == text;
    }
  }

  /** The converse of `Scan`'s contract: a first-match-wins decomposition of the
      text is the one `Scan` finds, so the pieces are determined by the rules. */
  lemma {:induction false} ScanFindsEveryDecomposition(rules: seq<Rule>, ps: seq<Token>, text: string, rest: string)
    requires Consumes(rules, ps, text, rest)
    ensures rest == [] ==> Scan(rules, text) == Scanned(ps)
    ensures rest != [] && FirstMatch(rules, rest).None? ==> Scan(rules, text) == Stuck(ps, rest)
    ensures rest != [] && FirstMatch(rules, rest).Some? && FirstMatch(rules, rest).value.len == 0
            ==> Scan(rules, text) == Stalled(ps, rest)
    decreases |ps|
  {
    if |ps| > 0 {
      var n := |ps[0].lexeme|;
      ScanFindsEveryDecomposition(rules, ps[1..], text[n..], rest);
      assert [ps[0]] + ps[1..] == ps;
    }
  }

  /** The loop's outcome, read off the reference lexer: success emits the kept
      pieces; an unmatched remainder is reported by its first line; a zero-width
      winner diverges. */
  lemma {:induction false} TokenizeRestMatchesScan(l: Lex, text: string)
    ensures TokenizeRest(l, text) ==
            match Scan(l.rules, text)
            case Scanned(ps) => Lexed(Kept(ps, l.ignore))
            case Stuck(_, rest) => LexError(Snippet(rest))
            case Stalled(_, _) => Diverges
    decreases |text|
  {
    if |text| > 0 {
      match FirstMatch(l.rules, text)
      case None =>
      case Some(h) =>
        if h.len > 0 {
          var p := Token(l.rules[h.rule].kind, text[..h.len]);
          TokenizeRestMatchesScan(l, text[h.len..]);
          match Scan(l.rules, text[h.len..])
          case Scanned(ps) =>
            assert ([p] + ps)[1..] == ps;
          case Stuck(_, _) =>
          case Stalled(_, _) =>
        }
    }
  }

  /** A successful `tokenize` is lossless and faithful to rule order: the input
      splits into first-match-wins pieces whose concatenation, dropped kinds
      included, is the input, and the stream holds exactly the kept pieces in
      order, positioned at its start. */
  lemma TokenizeSuccess(l: Lex, text: string)
    requires Tokenize(l, text).Lexed?
    ensures Scan(l.rules, text).Scanned?
    ensures Consumes(l.rules, Scan(l.rules, text).pieces, text, [])
    ensures Concat(Scan(l.rules, text).pieces) == text
    ensures Tokenize(l, text).value == New(Kept(Scan(l.rules, text).pieces, l.ignore))
  {
    TokenizeRestMatchesScan(l, text);
    var ps := Scan(l.rules, text).pieces;
    ConsumesLossless(l.rules, ps, text, []);
    assert Concat(ps) + [] == Concat(ps);
  }

  /** Conversely, whenever the text splits into first-match-wins pieces,
      `tokenize` succeeds with the kept ones. */
  lemma TokenizeComplete(l: Lex, ps: seq<Token>, text: string)
    requires Consumes(l.rules, ps, text, [])
    ensures Tokenize(l, text) == Lexed(New(Kept(ps, l.ignore)))
  {
    ScanFindsEveryDecomposition(l.rules, ps, text, []);
    TokenizeRestMatchesScan(l, text);
  }

  /** `tokenize` fails exactly when lexing reaches a non-empty remainder that no
      rule matches; the error names the first line of that remainder, and what
      came before it was lexed by first-match-wins. */
  lemma TokenizeFailure(l: Lex, text: string)
    ensures Tokenize(l, text).LexError? <==> Scan(l.rules, text).Stuck?
    ensures Tokenize(l, text).LexError? ==>
              var r := Scan(l.rules, text);
              && Tokenize(l, text).snippet == Snippet(r.rest)
              && Concat(r.pieces) + r.rest == text
              && r.rest != []
              && forall j :: 0 <= j < |l.rules| ==> l.rules[j].matcher(r.rest).None?
  {
    TokenizeRestMatchesScan(l, text);
    var r := Scan(l.rules, text);
    if r.Stuck? {
      ConsumesLossless(l.rules, r.pieces, text, r.rest);
    }
  }

  /** Rules that never match the empty string. */
  ghost predicate NoEmptyMatch(rules: seq<Rule>) {
    forall i, t :: 0 <= i < |rules| && rules[i].matcher(t).Some? ==> rules[i].matcher(t).value > 0
  }

  /** With such rules `tokenize` always terminates: it either lexes the text
      or reports an error. */
  lemma NonEmptyRulesTerminate(l: Lex, text: string)
    requires NoEmptyMatch(l.rules)
    ensures Tokenize(l, text).Lexed? || Tokenize(l, text).LexError?
  {
    TokenizeRestMatchesScan(l, text);
  }
}
