/** Concrete placements worked through the scoring rule and the hand check. */
module Scenarios {
  import opened Tiles
  import opened Commands

  /** Placing new C, A and T scores 5, with no bonus. */
  lemma ScoreExampleCat(cmd: Command)
    requires cmd == ["PLACE", "7", "7", "A", "C", "A", "T"]
    ensures WellFormed(cmd) && Score(cmd) == 5
  {
    var toks: seq<string> := [];
    AppendToken(toks, cmd[4]); toks := toks + [cmd[4]];
    AppendToken(toks, cmd[5]); toks := toks + [cmd[5]];
    AppendToken(toks, cmd[6]); toks := toks + [cmd[6]];
    assert LetterTokens(cmd) == toks;
  }

  /** A hand holding A and T cannot place new A, T and S; with an S in hand it can. */
  lemma HandCheckExampleMissing(cmd: Command)
    requires cmd == ["PLACE", "7", "7", "A", "A", "T", "S"]
    ensures WellFormed(cmd)
    ensures !HandCheck(multiset{'A', 'T'}, cmd)
    ensures HandCheck(multiset{'A', 'T', 'S'}, cmd)
  {
    var toks: seq<string> := [];
    AppendToken(toks, cmd[4]); toks := toks + [cmd[4]];
    AppendToken(toks, cmd[5]); toks := toks + [cmd[5]];
    AppendToken(toks, cmd[6]); toks := toks + [cmd[6]];
    assert LetterTokens(cmd) == toks;
    assert multiset{'A', 'T'}['S'] == 0;
  }

  /** With the S already on the board, a hand holding A and T can make the same word. */
  lemma HandCheckExamplePlaced(cmd: Command)
    requires cmd == ["PLACE", "7", "7", "A", "A", "T", "(S)"]
    ensures WellFormed(cmd) && HandCheck(multiset{'A', 'T'}, cmd)
  {
    var toks: seq<string> := [];
    AppendToken(toks, cmd[4]); toks := toks + [cmd[4]];
    AppendToken(toks, cmd[5]); toks := toks + [cmd[5]];
    AppendToken(toks, cmd[6]); toks := toks + [cmd[6]];
    assert LetterTokens(cmd) == toks;
  }
}
