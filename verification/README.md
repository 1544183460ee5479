# Restream in Dafny

A model of the runtime of `restream.py`, a small lex/yacc pair:

- **Pipeline:** text goes through `Lex.tokenize`, which produces a `TokenStream`, which `Yacc.parse` turns into a value.
- **`Lex.tokenize`:** a first-match-wins lexer. At each position it tries the rules in declaration order. The first rule whose anchored pattern matches consumes its match. The token is emitted unless its kind is in the ignore list. If no rule matches, lexing fails with the first line of the remaining text.
- **`TokenStream`:** a cursor over the (kind, lexeme) list. `get` consumes, `peak` looks ahead, `seek` moves the head (out-of-range targets are ignored) and `to_list` shows the unconsumed suffix.
- **`Yacc.parse`:** an ordered-choice recursive-descent parser with backtracking.
  - It saves the head on entry to a non-terminal and tries its productions in order.
  - Each right-hand-side symbol is parsed recursively when it is a grammar key. Otherwise it must equal the kind of the next token.
  - A falsy symbol result seeks back to the saved head and moves on to the next production.
  - The first production whose symbols all succeed returns its reducer applied to their results. `False` is returned when none does.

Modules:

- `Streams` (`streams.dfy`): the token-stream cursor as an immutable record. Every operation returns the new cursor.
- `Values` (`values.dfy`): the Python values that flow through the parser, with Python truthiness.
- `Lexer` (`lexer.dfy`): the lexer; the loop of the source, written as a method; and a declarative reference account of lexing (`Scan`, `Consumes`), with the lemmas that tie them together.
- `Parser` (`parser.dfy`): the parser as four mutually recursive functions, one per level of the source's nested loops:
  - `Parse`: a non-terminal;
  - `Choice`: its productions, in order;
  - `Sequence`: one right-hand side;
  - `Step`: one symbol.
- `Scenarios` (`scenarios.dfy`): concrete rule sets and grammars worked end to end.
  - A keyword rule wins over an identifier rule.
  - `3 + 4` lexes to NUM PLUS NUM and parses to 7.
  - `3 +` lexes but fails to parse, and the stream is restored.
  - `3#` fails to lex at `#`.

Modelling choices:

- **Patterns:** the regular-expression engine is outside the model. A compiled pattern is a `Matcher`: a function from the text to the length of its anchored match, never longer than the text. `Lex.__init__` receives the compiler as a parameter.
- **Zero-width matches:** a winning rule that matches the empty string makes the source loop forever, because `text` never shrinks (restream.py:99). The model does not exclude such rules by a precondition. Lexing yields a distinct `Diverges` outcome there, and `NonEmptyRulesTerminate` shows that rules without empty matches never reach it.
- **Errors:** the lexing error is the `LexError` outcome. It carries the snippet, which the code takes from the text that is LEFT when no rule matches (`text` has been shortened by the loop at restream.py:99). For input `3#` the snippet is `#`, not the whole input; the model follows the code.
- **Recursion bound:** the parser spends one unit of `fuel` per non-terminal call. `OutOfFuel` is a distinct outcome, never confused with a parse failure. The fuel-monotonicity lemmas show that more fuel never changes a result already reached.
- **Values:** `False` is `Bool(false)`. A terminal yields `Str(lexeme)`. Reducers are total functions from the argument sequence to a `Value`.

## Model

| member | source | states |
|---|---|---|
| Values.Truthy | restream.py:163 | exactly `None`, `False`, `0`, the empty string and the empty list are falsy |
| Streams.New | restream.py:18-24 | a new stream is positioned before the first token, satisfies the head bound, and its unconsumed suffix is the whole token list |
| Streams.Peak | restream.py:37-45 | the sentinel is returned exactly when the head is at the end; otherwise the token under the head |
| Streams.Get | restream.py:26-35 | returns what `peak` would; at the end it leaves the stream unchanged, otherwise it advances the head by exactly one; the token list is untouched and the head bound kept |
| Streams.Seek | restream.py:47-55 | a target in `0..len` becomes the head; any other target leaves the stream unchanged; the head bound is kept |
| Streams.ToList | restream.py:57-62 | the unconsumed suffix: `len - head` tokens, element `i` being the token at `head + i` |
| Streams.PeakIsFirstRemaining | restream.py:37-45 | `peak` is the first element of `to_list`, or the sentinel when `to_list` is empty |
| Streams.GetConsumesFirstRemaining | restream.py:26-35 | a successful `get` removes exactly the first unconsumed token; at the end nothing remains before or after |
| Streams.SeekUndoesGet | restream.py:47-55 | seeking to the head saved before a `get` restores the stream exactly |
| Streams.SeekToObservedHead | restream.py:53-55 | any head the stream has been at is a legal seek target, so seeking to it restores that state |
| Lexer.NewLex | restream.py:76-83 | one compiled rule per (name, pattern) pair, in declaration order, and the ignore list kept as given |
| Lexer.FirstMatch | restream.py:94-100 | the winning rule is the lowest-indexed one whose matcher succeeds, with its match length; none exactly when no rule matches |
| Lexer.Snippet | restream.py:102 | the error text is a prefix of the remainder with no newline, ending at the first newline or at the end of the text |
| Lexer.TokenizeRest | restream.py:93-103 | the `while` loop: empty text lexes to nothing; emitted tokens are never of an ignored kind and never empty, so there are at most as many as characters; an error snippet holds no newline |
| Lexer.ErrorMessage | restream.py:103 | the message is `Error at: `, then the snippet, then ` ...`, so the snippet can be read back from it |
| Lexer.Tokenize | restream.py:104 | a successful tokenization returns a stream positioned at head 0 |
| Lexer.FirstMatchIsLowestMatching | restream.py:94-100 | the rule the inner loop stops at (first to match, all earlier ones failing) is the winner |
| Lexer.TokenizeRestStep | restream.py:93-100 | one turn of the loop: the winning rule's non-empty match is emitted unless its kind is ignored, and lexing continues on the rest of the text whatever later rules would match |
| Lexer.FindRule | restream.py:94-101 | the inner `for` loop: the index of the first matching rule, or the number of rules when none matches |
| Lexer.TokenizeLoop | restream.py:85-104 | the source's `while`/`for` loop, with its accumulator and shrinking text, computes exactly the lexing outcome |
| Lexer.Kept | restream.py:97-98 | the tokens whose kind is not ignored: every kept token is an unignored piece and every unignored piece is kept |
| Lexer.Scan | restream.py:93-103 | the reference lexer's pieces are a first-match-wins decomposition of the text, ending at the end, at a remainder no rule matches, or at a zero-width winner |
| Lexer.ConsumesLossless | restream.py:93-99 | the matched prefixes, ignored kinds included, followed by the remainder spell the input exactly |
| Lexer.ScanFindsEveryDecomposition | restream.py:94-100 | the first-match-wins decomposition is unique: any one is the one the reference lexer finds |
| Lexer.TokenizeRestMatchesScan | restream.py:93-103 | the loop emits the unignored pieces of the decomposition, fails with the first line of an unmatched remainder, and diverges on a zero-width winner |
| Lexer.TokenizeSuccess | restream.py:93-104 | on success the input splits into first-match-wins pieces whose concatenation is the input, and the stream holds exactly the unignored pieces in order, at head 0 |
| Lexer.TokenizeComplete | restream.py:93-104 | conversely, whenever the input splits into first-match-wins pieces, tokenization succeeds with the unignored ones |
| Lexer.TokenizeFailure | restream.py:101-103 | tokenization fails exactly when a non-empty remainder matches no rule; the error carries the first line of that remainder and everything before it was lexed losslessly |
| Lexer.NonEmptyRulesTerminate | restream.py:93-100 | rules that never match the empty string always lex or fail, never loop |
| Parser.Parse | restream.py:141-170 | a parse that returns keeps the token list, the head bound, and never moves the head before its entry value |
| Parser.Choice | restream.py:151-170 | trying productions in order keeps the token list and the head bound and never moves the head back past the entry |
| Parser.Sequence | restream.py:156-169 | a completed right-hand side yields one truthy result per symbol and never moves the head back; a failed one leaves the stream at the saved entry head |
| Parser.SequenceCompletedChain | restream.py:156-169 | the reducer's arguments are, in right-hand-side order, what each symbol yielded from the stream the previous symbol left, from the stream the production started at to the one it ends at |
| Parser.ChainCompletes | restream.py:156-169 | conversely, when every symbol in turn yields a truthy result, the right-hand side completes with exactly those results, in order, ending at the stream the last symbol left |
| Parser.FalsySymbolFails | restream.py:156-167 | when the symbols before it succeed and one symbol yields a falsy result (empty lexeme, falsy reducer output, `False`, `None`), the right-hand side fails with the stream back at the saved entry head |
| Parser.Step | restream.py:156-162 | a grammar key is parsed as a non-terminal; any other symbol consumes one token and yields its lexeme when it equals the next token's kind, never at the end of the stream, and otherwise yields None without consuming |
| Parser.Attempt | restream.py:152-167 | one attempt at a production from the current head: on completion one result per symbol and a head no earlier than the start; on failure the stream exactly as found |
| Parser.FailedAttemptRestores | restream.py:163-167 | a failed production leaves the stream exactly where the non-terminal found it |
| Parser.ChoiceFirstCompletingWins | restream.py:151-169 | when production `k` is the first to complete, its reducer applied to its results is returned, with the stream where it stopped |
| Parser.ChoiceAllFail | restream.py:151-170 | when no production completes, `False` is returned and the stream is unchanged |
| Parser.ChoiceStopsWhenExhausted | restream.py:151-169 | running out of fuel in the first attempt that does not fail ends the choice with out-of-fuel |
| Parser.ParseFirstCompletingWins | restream.py:148-169 | `parse` returns the earliest-declared completing production's reducer applied to its symbol results, and every earlier production was tried from the entry head |
| Parser.ParseAllFailRestores | restream.py:150-170 | if no production of `lhs` completes, `parse` returns `False` and the head equals its value on entry |
| Parser.ParseOutOfFuel | restream.py:148-169 | when the first production that does not fail runs out of fuel, so does `parse` |
| Parser.ChoiceOutOfFuelCause | restream.py:151-169 | an ordered choice runs out of fuel only when some production does, after every earlier one failed |
| Parser.ParseOutOfFuelCause | restream.py:148-169 | conversely, `parse` runs out of fuel only when called with none or when the first production that does not fail ran out |
| Parser.ParseRerunAfterSeek | restream.py:150 | seeking back to the entry head after a parse restores the original stream, and parsing again gives the same result |
| Parser.TerminalRun | restream.py:156-167 | a right-hand side of terminals completes exactly when the next tokens carry its kinds with non-empty lexemes; it then consumes one token per symbol and passes their lexemes in order, and otherwise fails back to the saved head |
| Parser.TerminalsAtStep | restream.py:156-159 | matching a run of terminals is matching the first token and then the rest |
| Parser.ParseFuelMonotone | restream.py:141-170 | more recursion fuel never changes a parse result already reached |
| Parser.ChoiceFuelMonotone | restream.py:151-170 | more fuel never changes the result of an ordered choice already reached |
| Parser.SequenceFuelMonotone | restream.py:156-169 | more fuel never changes the outcome of a right-hand side already reached |
| Parser.StepFuelMonotone | restream.py:156-162 | more fuel never changes the result of one symbol already reached |
| Scenarios.RunLength | restream.py:95 | the matched run is the longest prefix of characters in the class |
| Scenarios.KeywordRuleWins | restream.py:94-100 | with a keyword rule declared before an identifier rule that also matches, `if` lexes as the keyword |
| Scenarios.LexSum | restream.py:93-104 | `3 + 4` lexes to NUM PLUS NUM with the whitespace consumed and dropped |
| Scenarios.ParseSum | restream.py:141-169 | the sum grammar parses NUM PLUS NUM to the reducer's result 7 and consumes all three tokens |
| Scenarios.IncompleteSumLexes | restream.py:93-104 | `3 +` lexes to NUM PLUS |
| Scenarios.IncompleteSumFails | restream.py:163-170 | with no NUM after the PLUS, the only production fails, `False` is returned and the stream is back at its start |
| Scenarios.UncoveredCharacterFails | restream.py:101-103 | in `3#` the NUM is lexed and lexing then fails at `#`, reporting the remainder |
| Scenarios.ErrorShowsFirstLine | restream.py:102 | the error snippet stops at the first newline of the remainder |

## Left out

- `tokenize_verbose` and `parse_verbose` (restream.py:106-127, restream.py:172-208): the same logic as `tokenize` and `parse` plus printing.
- `TokenStream.__str__` (restream.py:64-69): a diagnostic rendering.
- The `re` engine (restream.py:82, restream.py:95): a foreign library. Each compiled pattern is an abstract prefix matcher, and `Lex.__init__` takes the compiler as a parameter. The scenarios write their few patterns out as matchers.
- The exception `tokenize` raises: it is the `LexError` outcome, and `Lexer.ErrorMessage` gives its message text; `LexError` carries only the snippet. Python exception types are not modelled.
- The `KeyError` for an unknown non-terminal (restream.py:148): `lhs in g` is a precondition of `Parser.Parse`. Every nested call is guarded by the `symbol in self.grammar` test, so only the outermost call can raise it.
- Exceptions or side effects inside reducer callables: a reducer is a total function of its arguments.
- Python values beyond `None`, booleans, integers, strings and lists: reducers may return only these.
- Unbounded recursion: `Parser.Parse` takes a fuel bound. A left-recursive grammar, which exhausts the Python stack, ends in `OutOfFuel` here.
- Non-termination of `tokenize` on a zero-width winning match: it is the `Diverges` outcome rather than a loop.
- Mutation: the stream is immutable, and each operation returns the new cursor instead of updating `head` in place. The aliasing of one stream object across nested `parse` calls becomes explicit threading of the returned cursor.
- The default start symbol of `parse` (`lhs='start'`, restream.py:141): `Parser.Parse` has no default argument, and callers pass `"start"` explicitly, as the scenarios do.
- `Yacc.__init__` (restream.py:134-139): it only stores the grammar, which is the `g` parameter here.
- setup.py: packaging metadata.
