/**
 * The tokenizer as the parsers see it. NthParser and SelectorParser only call
 * nextToken and getPosition on a shared Tokenizer. nextToken is deterministic
 * and, once the input is used up, keeps returning the EOF token without moving
 * (Lexer.Tokenizer.NextToken states both), so the parsers' view of it is a
 * replay of the tokens Lexer.Tokenize produces, together with the cursor
 * position after each of them.
 */
module Streams {
  import opened Tokens

  /** The tokens of one input and the tokenizer's `pos` after each of them. */
  datatype Replay = Replay(tokens: seq<Token>, ends: seq<nat>)
  {
    /**
     * What Lexer.Tokenize guarantees: one final EOF, no earlier EOF, every
     * token well kinded; the cursor never moves back, every token but EOF
     * moves it forward, and each such token is placed inside the text it was
     * read from.
     */
    ghost predicate Valid() {
      && |tokens| > 0
      && |ends| == |tokens|
      && tokens[|tokens| - 1] == EofToken
      && (forall k :: 0 <= k < |tokens| - 1 ==> !tokens[k].kind.Eof?)
      && (forall k :: 0 <= k < |tokens| ==> tokens[k].WellKinded())
      && (forall k, m :: 0 <= k < m < |ends| ==> ends[k] <= ends[m])
      && (forall k {:trigger tokens[k]} :: 0 <= k < |tokens| - 1 ==>
            var start := if k == 0 then 0 else ends[k - 1];
            start < ends[k] && start <= tokens[k].position <= ends[k])
    }

    /** The index of the final EOF token. */
    function Last(): nat
      requires |tokens| > 0
    {
      |tokens| - 1
    }

    /** The token nextToken returns when `i` tokens have been read before it. */
    function At(i: nat): (t: Token)
      requires Valid() && i < |tokens|
      ensures t.WellKinded()
      ensures t.kind.Eof? <==> i == Last()
    {
      tokens[i]
    }

    /** The read index after one more nextToken: reading EOF does not move. */
    function Advance(i: nat): (j: nat)
      requires Valid() && i < |tokens|
      ensures j < |tokens|
      ensures j == i <==> At(i).kind.Eof?
      ensures j != i ==> j == i + 1
    {
      if i < Last() then i + 1 else i
    }

    /** Tokenizer.getPosition once the tokens before `i` have been read. */
    function Position(i: nat): nat
      requires Valid() && i < |tokens|
    {
      if i == 0 then 0 else ends[i - 1]
    }
  }

  /** The shared Tokenizer object: a replay and how far it has been read. */
  class TokenStream {
    const replay: Replay
    var next: nat

    ghost predicate Valid()
      reads this
    {
      replay.Valid() && next < |replay.tokens|
    }

    constructor(tokens: seq<Token>, ends: seq<nat>)
      requires Replay(tokens, ends).Valid()
      ensures Valid() && replay == Replay(tokens, ends) && next == 0
    {
      replay := Replay(tokens, ends);
      next := 0;
    }

    /** Tokenizer.nextToken: the next token; past the end, the EOF token again. */
    method NextToken() returns (t: Token)
      requires Valid()
      modifies this
      ensures Valid()
      ensures t == replay.At(old(next)) && next == replay.Advance(old(next))
    {
      t := replay.tokens[next];
      if next < |replay.tokens| - 1 {
        next := next + 1;
      }
    }

    /** Tokenizer.getPosition. */
    function Position(): nat
      requires Valid()
      reads this
    {
      replay.Position(next)
    }
  }
}
