/** The token-stream cursor: an immutable sequence of (kind, lexeme) tokens and a
    read position `head`. The source class mutates `head` in place; here every
    operation returns the new cursor, so a caller that wants to backtrack simply
    keeps (or seeks back to) an earlier value. */
module Streams {

  /** A (kind, lexeme) pair produced by the lexer. */
  datatype Token = Token(kind: string, lexeme: string)

  /** What `get` and `peak` hand back: a token, or the `[None, None]` pair
      returned once the stream is exhausted. */
  datatype Read = Sentinel | Item(token: Token)

  datatype TokenStream = TokenStream(tokens: seq<Token>, head: nat) {
    /** The class invariant: the head never passes the end of the list. */
    predicate Valid() {
      head <= |tokens|
    }

    /** True once every token has been consumed. */
    predicate AtEnd() {
      head == |tokens|
    }
  }

  /** A fresh stream over `tokens`, positioned before the first one. */
  function New(tokens: seq<Token>): (s: TokenStream)
    ensures s.Valid() && s.head == 0 && s.tokens == tokens
    ensures ToList(s) == tokens
  {
    TokenStream(tokens, 0)
  }

  /** Reads the token under the head without consuming it. */
  function Peak(s: TokenStream): (r: Read)
    requires s.Valid()
    ensures r.Sentinel? <==> s.AtEnd()
    ensures r.Item? ==> r.token == s.tokens[s.head]
  {
    if s.head == |s.tokens| then Sentinel else Item(s.tokens[s.head])
  }

  /** Consumes the token under the head; at the end it returns the sentinel and
      leaves the stream as it is. */
  function Get(s: TokenStream): (r: (Read, TokenStream))
    requires s.Valid()
    ensures r.0 == Peak(s)
    ensures r.1.Valid() && r.1.tokens == s.tokens
    ensures r.0.Sentinel? ==> r.1 == s
    ensures r.0.Item? ==> r.1.head == s.head + 1
  {
    if s.head == |s.tokens| then (Sentinel, s)
    else (Item(s.tokens[s.head]), TokenStream(s.tokens, s.head + 1))
  }

  /** Moves the head to `h` when `0 <= h <= |tokens|`; any other request is
      silently ignored. */
  function Seek(s: TokenStream, h: int): (r: TokenStream)
    requires s.Valid()
    ensures r.Valid() && r.tokens == s.tokens
    ensures 0 <= h <= |s.tokens| ==> r.head == h
    ensures h < 0 || h > |s.tokens| ==> r == s
  {
    if h < 0 || h > |s.tokens| then s else TokenStream(s.tokens, h)
  }

  /** The tokens not consumed yet. */
  function ToList(s: TokenStream): (r: seq<Token>)
    requires s.Valid()
    ensures |r| == |s.tokens| - s.head
    ensures forall i :: 0 <= i < |r| ==> r[i] == s.tokens[s.head + i]
  {
    s.tokens[s.head..]
  }

  /** `peak` shows the first unconsumed token, and the sentinel exactly when
      nothing is left. */
  lemma PeakIsFirstRemaining(s: TokenStream)
    requires s.Valid()
    ensures Peak(s) == if ToList(s) == [] then Sentinel else Item(ToList(s)[0])
  {
  }

  /** A successful `get` removes exactly the first unconsumed token. */
  lemma GetConsumesFirstRemaining(s: TokenStream)
    requires s.Valid()
    ensures Get(s).0.Item? ==> [Get(s).0.token] + ToList(Get(s).1) == ToList(s)
    ensures Get(s).0.Sentinel? ==> ToList(Get(s).1) == ToList(s) == []
  {
  }

  /** Seeking back to the head saved before a `get` undoes it: this is the
      restore step that backtracking relies on. */
  lemma SeekUndoesGet(s: TokenStream)
    requires s.Valid()
    ensures Seek(Get(s).1, s.head) == s
  {
  }

  /** Every head value the stream can be in is a legal seek target, so a seek
      to a previously observed head always takes effect. */
  lemma SeekToObservedHead(s: TokenStream, t: TokenStream)
    requires s.Valid() && t.Valid() && t.tokens == s.tokens
    ensures Seek(t, s.head) == s
    ensures ToList(Seek(t, s.head)) == ToList(s)
  {
  }
}
