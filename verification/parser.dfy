/** The parser: ordered-choice recursive descent with backtracking over a
    token stream. A grammar maps each non-terminal to its productions in
    declaration order; a production is a right-hand side of symbols and a
    reducer applied to the symbols' results. Python's truthiness decides
    whether a symbol succeeded, and `False` is returned when no production
    completes.

    The source recurses without bound (a left-recursive grammar exhausts the
    stack). Here every non-terminal call spends one unit of `fuel`, and running
    out is a distinct outcome, never confused with a parse failure. */
module Parser {
  import opened Streams
  import opened Values

  /** A right-hand side and its reducer; the reducer receives one argument per
      symbol, in order. */
  datatype Production = Production(rhs: seq<string>, reduce: seq<Value> -> Value)

  type Grammar = map<string, seq<Production>>

  /** A value with the stream left behind, or the recursion bound was hit. */
  datatype ParseResult = Parsed(value: Value, stream: TokenStream) | OutOfFuel

  /** Outcome of matching one right-hand side: every symbol succeeded (their
      results, in order), or one failed and the stream was sought back to the
      non-terminal's saved head, or the recursion bound was hit. */
  datatype SeqResult =
    | Completed(args: seq<Value>, stream: TokenStream)
    | Failed(stream: TokenStream)
    | Exhausted

  /** `parse(tokens, lhs)`: saves the head, then tries the productions of `lhs`
      in order. */
  function Parse(g: Grammar, lhs: string, s: TokenStream, fuel: nat): (r: ParseResult)
    requires lhs in g
    requires s.Valid()
    ensures r.Parsed? ==> r.stream.Valid() && r.stream.tokens == s.tokens && s.head <= r.stream.head
    decreases fuel, 0
  {
    if fuel == 0 then OutOfFuel
    else Choice(g, g[lhs], s, fuel - 1)
  }

  /** Tries `prods` in order from the saved head `s.head`; the first one that
      completes is reduced, and `False` is returned when none does. */
  function Choice(g: Grammar, prods: seq<Production>, s: TokenStream, fuel: nat): (r: ParseResult)
    requires s.Valid()
    ensures r.Parsed? ==> r.stream.Valid() && r.stream.tokens == s.tokens && s.head <= r.stream.head
    decreases fuel, 3, |prods|
  {
    if |prods| == 0 then Parsed(FailureMarker, s)
    else match Sequence(g, prods[0].rhs, s, s.head, fuel)
      case Completed(args, s') => Parsed(prods[0].reduce(args), s')
      case Failed(s') => Choice(g, prods[1..], s', fuel)
      case Exhausted => OutOfFuel
  }

  /** Matches the symbols of `rhs` in order from `s`; on the first falsy symbol
      result the stream is sought back to `entry`, the head saved on entry to
      the non-terminal. */
  function Sequence(g: Grammar, rhs: seq<string>, s: TokenStream, entry: nat, fuel: nat): (r: SeqResult)
    requires s.Valid() && entry <= s.head
    ensures r.Completed? ==> && |r.args| == |rhs|
                             && (forall i :: 0 <= i < |rhs| ==> Truthy(r.args[i]))
                             && r.stream.Valid() && r.stream.tokens == s.tokens
                             && s.head <= r.stream.head
    ensures r.Failed? ==> r.stream == TokenStream(s.tokens, entry)
    decreases fuel, 2, |rhs|
  {
    if |rhs| == 0 then Completed([], s)
    else match Step(g, rhs[0], s, fuel)
      case OutOfFuel => Exhausted
      case Parsed(v, s') =>
        if !Truthy(v) then Failed(Seek(s', entry))
        else match Sequence(g, rhs[1..], s', entry, fuel)
          case Completed(args, s'') => Completed([v] + args, s'')
          case Failed(s'') => Failed(s'')
          case Exhausted => Exhausted
  }

  /** The result of one symbol. A grammar key is always parsed as a
      non-terminal. Any other symbol is a terminal: it matches only a token of
      exactly that kind (never the end-of-stream sentinel), consumes that one
      token and yields its lexeme; otherwise it yields `None` and consumes
      nothing. */
  function Step(g: Grammar, sym: string, s: TokenStream, fuel: nat): (r: ParseResult)
    requires s.Valid()
    ensures sym in g ==> r == Parse(g, sym, s, fuel)
    ensures sym !in g && s.head < |s.tokens| && s.tokens[s.head].kind == sym ==>
              r == Parsed(Str(s.tokens[s.head].lexeme), TokenStream(s.tokens, s.head + 1))
    ensures sym !in g && (s.head == |s.tokens| || s.tokens[s.head].kind != sym) ==>
              r == Parsed(NoneValue, s)
    ensures r.Parsed? ==> r.stream.Valid() && r.stream.tokens == s.tokens && s.head <= r.stream.head
    decreases fuel, 1
  {
    var next := Peak(s);
    if sym !in g && next.Item? && next.token.kind == sym then
      var (t, s') := Get(s);
      Parsed(Str(t.token.lexeme), s')
    else if sym in g then Parse(g, sym, s, fuel)
    else Parsed(NoneValue, s)
  }

  /** One attempt at production `p` from `s`, with `s.head` as the saved head. */
  function Attempt(g: Grammar, p: Production, s: TokenStream, fuel: nat): (r: SeqResult)
    requires s.Valid()
    ensures r.Completed? ==> |r.args| == |p.rhs| && r.stream.Valid() && r.stream.tokens == s.tokens
                             && s.head <= r.stream.head
    ensures r.Failed? ==> r.stream == s
  {
    Sequence(g, p.rhs, s, s.head, fuel)
  }

  // ---------------------------------------------------------------------------
  // Ordered choice and backtracking.

  /** A failed attempt leaves the stream exactly where the non-terminal found it. */
  lemma FailedAttemptRestores(g: Grammar, p: Production, s: TokenStream, fuel: nat)
    requires s.Valid()
    requires Attempt(g, p, s, fuel).Failed?
    ensures Attempt(g, p, s, fuel).stream == s
  {
  }

  lemma {:induction false} ChoiceFirstCompletingWins(g: Grammar, prods: seq<Production>, s: TokenStream, fuel: nat, k: nat)
    requires s.Valid() && k < |prods|
    requires forall j :: 0 <= j < k ==> Attempt(g, prods[j], s, fuel).Failed?
    requires Attempt(g, prods[k], s, fuel).Completed?
    ensures Choice(g, prods, s, fuel) ==
            Parsed(prods[k].reduce(Attempt(g, prods[k], s, fuel).args), Attempt(g, prods[k], s, fuel).stream)
    decreases k
  {
    if k > 0 {
      assert Attempt(g, prods[0], s, fuel).Failed?;
      FailedAttemptRestores(g, prods[0], s, fuel);
      assert forall j :: 0 <= j < k - 1 ==> prods[1..][j] == prods[j + 1];
      ChoiceFirstCompletingWins(g, prods[1..], s, fuel, k - 1);
    }
  }

  lemma {:induction false} ChoiceAllFail(g: Grammar, prods: seq<Production>, s: TokenStream, fuel: nat)
    requires s.Valid()
    requires forall j :: 0 <= j < |prods| ==> Attempt(g, prods[j], s, fuel).Failed?
    ensures Choice(g, prods, s, fuel) == Parsed(FailureMarker, s)
    decreases |prods|
  {
    if |prods| > 0 {
      assert Attempt(g, prods[0], s, fuel).Failed?;
      FailedAttemptRestores(g, prods[0], s, fuel);
      assert forall j :: 0 <= j < |prods| - 1 ==> prods[1..][j] == prods[j + 1];
      ChoiceAllFail(g, prods[1..], s, fuel);
    }
  }

  lemma {:induction false} ChoiceStopsWhenExhausted(g: Grammar, prods: seq<Production>, s: TokenStream, fuel: nat, k: nat)
    requires s.Valid() && k < |prods|
    requires forall j :: 0 <= j < k ==> Attempt(g, prods[j], s, fuel).Failed?
    requires Attempt(g, prods[k], s, fuel).Exhausted?
    ensures Choice(g, prods, s, fuel) == OutOfFuel
    decreases k
  {
    if k > 0 {
      assert Attempt(g, prods[0], s, fuel).Failed?;
      FailedAttemptRestores(g, prods[0], s, fuel);
      assert forall j :: 0 <= j < k - 1 ==> prods[1..][j] == prods[j + 1];
      ChoiceStopsWhenExhausted(g, prods[1..], s, fuel, k - 1);
    }
  }

  /** Ordered choice: when production `k` is the first of `lhs` whose every
      symbol succeeds, `parse` returns its reducer applied to the symbols'
      results, and leaves the stream where that production stopped. Each
      earlier production was tried from the very head `parse` started at. */
  lemma ParseFirstCompletingWins(g: Grammar, lhs: string, s: TokenStream, fuel: nat, k: nat)
    requires lhs in g && s.Valid() && fuel > 0 && k < |g[lhs]|
    requires forall j :: 0 <= j < k ==> Attempt(g, g[lhs][j], s, fuel - 1).Failed?
    requires Attempt(g, g[lhs][k], s, fuel - 1).Completed?
    ensures Parse(g, lhs, s, fuel) ==
            Parsed(g[lhs][k].reduce(Attempt(g, g[lhs][k], s, fuel - 1).args),
                   Attempt(g, g[lhs][k], s, fuel - 1).stream)
  {
    ChoiceFirstCompletingWins(g, g[lhs], s, fuel - 1, k);
  }

  /** Backtracking: when no production of `lhs` completes, `parse` returns
      `False` and the stream is exactly as it was on entry. */
  lemma ParseAllFailRestores(g: Grammar, lhs: string, s: TokenStream, fuel: nat)
    requires lhs in g && s.Valid() && fuel > 0
    requires forall j :: 0 <= j < |g[lhs]| ==> Attempt(g, g[lhs][j], s, fuel - 1).Failed?
    ensures Parse(g, lhs, s, fuel) == Parsed(FailureMarker, s)
  {
    ChoiceAllFail(g, g[lhs], s, fuel - 1);
  }

  /** Running out of fuel in the first attempt that does not fail makes `parse`
      run out of fuel; `ParseOutOfFuelCause` is the converse. */
  lemma ParseOutOfFuel(g: Grammar, lhs: string, s: TokenStream, fuel: nat, k: nat)
    requires lhs in g && s.Valid() && fuel > 0 && k < |g[lhs]|
    requires forall j :: 0 <= j < k ==> Attempt(g, g[lhs][j], s, fuel - 1).Failed?
    requires Attempt(g, g[lhs][k], s, fuel - 1).Exhausted?
    ensures Parse(g, lhs, s, fuel) == OutOfFuel
  {
    ChoiceStopsWhenExhausted(g, g[lhs], s, fuel - 1, k);
  }

  lemma {:induction false} ChoiceOutOfFuelCause(g: Grammar, prods: seq<Production>, s: TokenStream, fuel: nat)
    requires s.Valid() && Choice(g, prods, s, fuel).OutOfFuel?
    ensures exists k :: 0 <= k < |prods| && (forall j :: 0 <= j < k ==> Attempt(g, prods[j], s, fuel).Failed?)
                        && Attempt(g, prods[k], s, fuel).Exhausted?
    decreases |prods|
  {
    if !Attempt(g, prods[0], s, fuel).Exhausted? {
      ChoiceOutOfFuelCause(g, prods[1..], s, fuel);
      var k :| 0 <= k < |prods| - 1 && (forall j :: 0 <= j < k ==> Attempt(g, prods[1..][j], s, fuel).Failed?)
               && Attempt(g, prods[1..][k], s, fuel).Exhausted?;
      assert forall j :: 0 <= j < k ==> prods[1..][j] == prods[j + 1];
      assert Attempt(g, prods[k + 1], s, fuel).Exhausted?;
    }
  }

  /** The only ways `parse` runs out of fuel: it was called with none, or the
      first of its productions that does not fail ran out. */
  lemma ParseOutOfFuelCause(g: Grammar, lhs: string, s: TokenStream, fuel: nat)
    requires lhs in g && s.Valid() && Parse(g, lhs, s, fuel).OutOfFuel?
    ensures fuel == 0 || exists k :: 0 <= k < |g[lhs]|
                                    && (forall j :: 0 <= j < k ==> Attempt(g, g[lhs][j], s, fuel - 1).Failed?)
                                    && Attempt(g, g[lhs][k], s, fuel - 1).Exhausted?
  {
    if fuel > 0 {
      ChoiceOutOfFuelCause(g, g[lhs], s, fuel - 1);
    }
  }

  /** Re-running `parse` after seeking back to the head it started from gives
      the same result again. */
  lemma ParseRerunAfterSeek(g: Grammar, lhs: string, s: TokenStream, fuel: nat)
    requires lhs in g && s.Valid()
    requires Parse(g, lhs, s, fuel).Parsed?
    ensures Seek(Parse(g, lhs, s, fuel).stream, s.head) == s
    ensures Parse(g, lhs, Seek(Parse(g, lhs, s, fuel).stream, s.head), fuel) == Parse(g, lhs, s, fuel)
  {
  }

  // ---------------------------------------------------------------------------
  // Terminal-only right-hand sides.

  predicate AllTerminals(g: Grammar, rhs: seq<string>) {
    forall i :: 0 <= i < |rhs| ==> rhs[i] !in g
  }

  /** The tokens from `h` on have exactly the kinds of `rhs`, with non-empty
      lexemes. */
  predicate TerminalsAt(rhs: seq<string>, tokens: seq<Token>, h: nat) {
    && h + |rhs| <= |tokens|
    && forall i :: 0 <= i < |rhs| ==> tokens[h + i].kind == rhs[i] && tokens[h + i].lexeme != []
  }

  /** A right-hand side of terminals completes exactly when the next tokens
      carry its kinds in order with non-empty lexemes; it then consumes one
      token per symbol and passes their lexemes to the reducer. Otherwise it
      fails and the stream is back at the saved head. */
  lemma {:induction false} TerminalRun(g: Grammar, rhs: seq<string>, s: TokenStream, entry: nat, fuel: nat)
    requires s.Valid() && entry <= s.head
    requires AllTerminals(g, rhs)
    ensures Sequence(g, rhs, s, entry, fuel).Completed? <==> TerminalsAt(rhs, s.tokens, s.head)
    ensures Sequence(g, rhs, s, entry, fuel).Completed? ==>
              && Sequence(g, rhs, s, entry, fuel).stream.head == s.head + |rhs|
              && forall i :: 0 <= i < |rhs| ==>
                   Sequence(g, rhs, s, entry, fuel).args[i] == Str(s.tokens[s.head + i].lexeme)
    ensures !Sequence(g, rhs, s, entry, fuel).Completed? ==>
              Sequence(g, rhs, s, entry, fuel) == Failed(TokenStream(s.tokens, entry))
    decreases |rhs|
  {
    if |rhs| > 0 {
      var s' := TokenStream(s.tokens, s.head + 1);
      TerminalsAtStep(rhs, s.tokens, s.head);
      if s.head < |s.tokens| && s.tokens[s.head].kind == rhs[0] && s.tokens[s.head].lexeme != [] {
        assert AllTerminals(g, rhs[1..]) by {
          assert forall i :: 0 <= i < |rhs| - 1 ==> rhs[1..][i] == rhs[i + 1];
        }
        TerminalRun(g, rhs[1..], s', entry, fuel);
        var r := Sequence(g, rhs[1..], s', entry, fuel);
        if r.Completed? {
          assert Sequence(g, rhs, s, entry, fuel).args == [Str(s.tokens[s.head].lexeme)] + r.args;
        }
      }
    }
  }

  /** `TerminalsAt` one token at a time. */
  lemma TerminalsAtStep(rhs: seq<string>, tokens: seq<Token>, h: nat)
    requires |rhs| > 0
    ensures TerminalsAt(rhs, tokens, h) <==>
            && h < |tokens| && tokens[h].kind == rhs[0] && tokens[h].lexeme != []
            && TerminalsAt(rhs[1..], tokens, h + 1)
  {
    var tail := rhs[1..];
    if TerminalsAt(rhs, tokens, h) {
      assert h + 0 == h && h < |tokens|;
      forall i | 0 <= i < |tail|
        ensures tokens[h + 1 + i].kind == tail[i] && tokens[h + 1 + i].lexeme != []
      {
        assert h + 1 + i == h + (i + 1) && tail[i] == rhs[i + 1];
      }
      assert TerminalsAt(tail, tokens, h + 1);
    }
    if h < |tokens| && tokens[h].kind == rhs[0] && tokens[h].lexeme != [] && TerminalsAt(tail, tokens, h + 1) {
      forall i | 0 <= i < |rhs|
        ensures tokens[h + i].kind == rhs[i] && tokens[h + i].lexeme != []
      {
        if i > 0 {
          assert h + i == h + 1 + (i - 1) && tail[i - 1] == rhs[i];
        }
      }
      assert TerminalsAt(rhs, tokens, h);
    }
  }

  // ---------------------------------------------------------------------------
  // Where the reducer's arguments come from.

  /** `sts` are the streams a right-hand side passes through: symbol `i` is
      read from `sts[i]`, yields `args[i]` and leaves `sts[i + 1]`. */
  predicate Chain(g: Grammar, rhs: seq<string>, args: seq<Value>, sts: seq<TokenStream>, fuel: nat) {
    && |args| == |rhs| && |sts| == |rhs| + 1
    && forall i :: 0 <= i < |rhs| ==>
         sts[i].Valid() && Step(g, rhs[i], sts[i], fuel) == Parsed(args[i], sts[i + 1])
  }

  /** A completed right-hand side hands the reducer, in order, what each symbol
      yielded from the stream the previous symbol left behind, starting at the
      stream it was given and ending at the one it returns. */
  lemma {:induction false} SequenceCompletedChain(g: Grammar, rhs: seq<string>, s: TokenStream, entry: nat, fuel: nat)
    requires s.Valid() && entry <= s.head
    requires Sequence(g, rhs, s, entry, fuel).Completed?
    ensures exists sts :: Chain(g, rhs, Sequence(g, rhs, s, entry, fuel).args, sts, fuel)
                          && sts[0] == s && sts[|rhs|] == Sequence(g, rhs, s, entry, fuel).stream
    decreases |rhs|
  {
    var r := Sequence(g, rhs, s, entry, fuel);
    if |rhs| == 0 {
      assert Chain(g, rhs, r.args, [s], fuel);
    } else {
      var v := Step(g, rhs[0], s, fuel).value;
      var s' := Step(g, rhs[0], s, fuel).stream;
      var rest := Sequence(g, rhs[1..], s', entry, fuel);
      SequenceCompletedChain(g, rhs[1..], s', entry, fuel);
      var sts' :| Chain(g, rhs[1..], rest.args, sts', fuel) && sts'[0] == s' && sts'[|rhs| - 1] == rest.stream;
      var sts := [s] + sts';
      assert r.args == [v] + rest.args;
      forall i | 0 <= i < |rhs|
        ensures sts[i].Valid() && Step(g, rhs[i], sts[i], fuel) == Parsed(r.args[i], sts[i + 1])
      {
        if i > 0 {
          assert sts[i] == sts'[i - 1] && sts[i + 1] == sts'[i] && rhs[i] == rhs[1..][i - 1];
        }
      }
      assert Chain(g, rhs, r.args, sts, fuel);
    }
  }

  /** Dropping the first symbol of a chain leaves a chain. */
  lemma ChainTail(g: Grammar, rhs: seq<string>, args: seq<Value>, sts: seq<TokenStream>, fuel: nat)
    requires |rhs| > 0 && Chain(g, rhs, args, sts, fuel)
    ensures Chain(g, rhs[1..], args[1..], sts[1..], fuel)
  {
    forall i | 0 <= i < |rhs| - 1
      ensures sts[1..][i].Valid() && Step(g, rhs[1..][i], sts[1..][i], fuel) == Parsed(args[1..][i], sts[1..][i + 1])
    {
      assert sts[1..][i] == sts[i + 1] && sts[1..][i + 1] == sts[i + 2];
      assert rhs[1..][i] == rhs[i + 1] && args[1..][i] == args[i + 1];
    }
  }

  /** Conversely to `SequenceCompletedChain`: when every symbol in turn yields a
      truthy result, the right-hand side completes with those results, in
      order, and the stream the last symbol left. */
  lemma {:induction false} ChainCompletes(g: Grammar, rhs: seq<string>, args: seq<Value>, sts: seq<TokenStream>,
                                          s: TokenStream, entry: nat, fuel: nat)
    requires s.Valid() && entry <= s.head
    requires Chain(g, rhs, args, sts, fuel) && sts[0] == s
    requires forall i :: 0 <= i < |args| ==> Truthy(args[i])
    ensures Sequence(g, rhs, s, entry, fuel) == Completed(args, sts[|rhs|])
    decreases |rhs|
  {
    if |rhs| > 0 {
      assert Step(g, rhs[0], s, fuel) == Parsed(args[0], sts[1]);
      ChainTail(g, rhs, args, sts, fuel);
      ChainCompletes(g, rhs[1..], args[1..], sts[1..], sts[1], entry, fuel);
      assert [args[0]] + args[1..] == args;
    }
  }

  /** A falsy result fails the right-hand side: when the first `k` symbols
      yield truthy results and symbol `k` yields a falsy one (an empty lexeme,
      a falsy reducer output, `False` or `None`), the stream is sought back to
      the saved entry head. */
  lemma {:induction false} FalsySymbolFails(g: Grammar, rhs: seq<string>, k: nat, args: seq<Value>,
                                            sts: seq<TokenStream>, s: TokenStream, entry: nat, fuel: nat,
                                            v: Value, t: TokenStream)
    requires s.Valid() && entry <= s.head && k < |rhs|
    requires Chain(g, rhs[..k], args, sts, fuel) && sts[0] == s
    requires forall i :: 0 <= i < |args| ==> Truthy(args[i])
    requires sts[k].Valid() && Step(g, rhs[k], sts[k], fuel) == Parsed(v, t) && !Truthy(v)
    ensures Sequence(g, rhs, s, entry, fuel) == Failed(TokenStream(s.tokens, entry))
    decreases k
  {
    if k > 0 {
      assert rhs[..k][0] == rhs[0];
      assert Step(g, rhs[0], s, fuel) == Parsed(args[0], sts[1]);
      ChainTail(g, rhs[..k], args, sts, fuel);
      assert rhs[..k][1..] == rhs[1..][..k - 1];
      assert rhs[1..][k - 1] == rhs[k] && sts[1..][k - 1] == sts[k];
      FalsySymbolFails(g, rhs[1..], k - 1, args[1..], sts[1..], sts[1], entry, fuel, v, t);
    }
  }

  // ---------------------------------------------------------------------------
  // Fuel only bounds the recursion: once a result is reached, more fuel gives
  // the same result.

  lemma {:induction false} ParseFuelMonotone(g: Grammar, lhs: string, s: TokenStream, fuel: nat, more: nat)
    requires lhs in g && s.Valid() && fuel <= more
    requires Parse(g, lhs, s, fuel).Parsed?
    ensures Parse(g, lhs, s, more) == Parse(g, lhs, s, fuel)
    decreases fuel, 0
  {
    ChoiceFuelMonotone(g, g[lhs], s, fuel - 1, more - 1);
  }

  lemma {:induction false} ChoiceFuelMonotone(g: Grammar, prods: seq<Production>, s: TokenStream, fuel: nat, more: nat)
    requires s.Valid() && fuel <= more
    requires Choice(g, prods, s, fuel).Parsed?
    ensures Choice(g, prods, s, more) == Choice(g, prods, s, fuel)
    decreases fuel, 3, |prods|
  {
    if |prods| > 0 {
      SequenceFuelMonotone(g, prods[0].rhs, s, s.head, fuel, more);
      match Sequence(g, prods[0].rhs, s, s.head, fuel)
      case Completed(_, _) =>
      case Failed(s') => ChoiceFuelMonotone(g, prods[1..], s', fuel, more);
      case Exhausted =>
    }
  }

  lemma {:induction false} SequenceFuelMonotone(g: Grammar, rhs: seq<string>, s: TokenStream, entry: nat, fuel: nat, more: nat)
    requires s.Valid() && entry <= s.head && fuel <= more
    requires !Sequence(g, rhs, s, entry, fuel).Exhausted?
    ensures Sequence(g, rhs, s, entry, more) == Sequence(g, rhs, s, entry, fuel)
    decreases fuel, 2, |rhs|
  {
    if |rhs| > 0 {
      StepFuelMonotone(g, rhs[0], s, fuel, more);
      match Step(g, rhs[0], s, fuel)
      case Parsed(v, s') =>
        if Truthy(v) {
          SequenceFuelMonotone(g, rhs[1..], s', entry, fuel, more);
        }
      case OutOfFuel =>
    }
  }

  lemma {:induction false} StepFuelMonotone(g: Grammar, sym: string, s: TokenStream, fuel: nat, more: nat)
    requires s.Valid() && fuel <= more
    requires Step(g, sym, s, fuel).Parsed?
    ensures Step(g, sym, s, more) == Step(g, sym, s, fuel)
    decreases fuel, 1
  {
    if sym in g {
      ParseFuelMonotone(g, sym, s, fuel, more);
    }
  }
}
