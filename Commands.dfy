/**
 * What the game reads off a parsed command: its score, the word it spells and the letters it takes
 * from the hand. Tokens 0 to 3 are the keyword and its metadata; letter tokens start at index 4. A
 * letter token is either a plain letter ("A", a tile newly placed from the hand) or a letter in
 * parentheses ("(A)", a tile already on the board).
 */
module Commands {
  import opened Tiles

  type Command = seq<string>

  /** Index of the first letter token of a command. */
  const FirstLetter: nat := 4

  /** Points added when exactly this many new tiles are placed. */
  const BingoTiles: nat := 7
  const BingoBonus: nat := 50

  /** `startsWith("(")`: the token names a tile already on the board. */
  predicate IsPlaced(tok: string)
  {
    |tok| > 0 && tok[0] == '('
  }

  /** A token whose letter can be read: character 0 of a plain token, character 1 of a placed one. */
  predicate WellFormedToken(tok: string)
  {
    |tok| > 0 && (tok[0] == '(' ==> |tok| > 1)
  }

  predicate AllWellFormed(toks: seq<string>)
  {
    forall k :: 0 <= k < |toks| ==> WellFormedToken(toks[k])
  }

  /** Every letter token of the command can be read (otherwise `charAt` throws). */
  predicate WellFormed(cmd: Command)
  {
    AllWellFormed(LetterTokens(cmd))
  }

  /** The letter tokens of a command: those from index 4 on. */
  function LetterTokens(cmd: Command): seq<string>
  {
    if |cmd| <= FirstLetter then [] else cmd[FirstLetter..]
  }

  function TokenLetter(tok: string): char
    requires WellFormedToken(tok)
  {
    if IsPlaced(tok) then tok[1] else tok[0]
  }

  /** Sum of the letter values of the tokens, placed ones included. */
  function LetterSum(toks: seq<string>): nat
    requires AllWellFormed(toks)
  {
    if toks == [] then 0
    else LetterSum(toks[..|toks| - 1]) + LetterValue(TokenLetter(toks[|toks| - 1]))
  }

  /** Number of plain (newly placed) tokens. */
  function PlainCount(toks: seq<string>): (n: nat)
    ensures n <= |toks|
  {
    if toks == [] then 0
    else PlainCount(toks[..|toks| - 1]) + if IsPlaced(toks[|toks| - 1]) then 0 else 1
  }

  /** Number of tokens marked as already placed; with the plain ones they make up every token. */
  function PlacedCount(toks: seq<string>): (n: nat)
    ensures n + PlainCount(toks) == |toks|
  {
    if toks == [] then 0
    else PlacedCount(toks[..|toks| - 1]) + if IsPlaced(toks[|toks| - 1]) then 1 else 0
  }

  /** The letters of the plain tokens: the tiles a placement takes from the hand. */
  function PlainLetters(toks: seq<string>): multiset<char>
    requires AllWellFormed(toks)
  {
    if toks == [] then multiset{}
    else
      var last := toks[|toks| - 1];
      PlainLetters(toks[..|toks| - 1]) + if IsPlaced(last) then multiset{} else multiset{last[0]}
  }

  /** A placement takes one letter from the hand per plain token. */
  lemma {:induction false} PlainLettersSize(toks: seq<string>)
    requires AllWellFormed(toks)
    ensures |PlainLetters(toks)| == PlainCount(toks)
  {
    if toks != [] {
      PlainLettersSize(toks[..|toks| - 1]);
    }
  }

  /** Taking one more letter out of a hand is taking it out of what is left. */
  lemma SubtractOne(hand: multiset<char>, taken: multiset<char>, c: char)
    ensures hand - (taken + multiset{c}) == (hand - taken) - multiset{c}
  {
  }

  /**
   * The points a placement earns: the value of every letter token's letter, plus the bonus when
   * exactly seven of them are plain. No premium square is applied.
   */
  function Score(cmd: Command): nat
    requires WellFormed(cmd)
  {
    var toks := LetterTokens(cmd);
    LetterSum(toks) + if PlainCount(toks) == BingoTiles then BingoBonus else 0
  }

  /** `scoredPoints`: the loop over the letter tokens that accumulates `sum` and `count`. */
  method ScoredPoints(cmd: Command) returns (sum: int)
    requires WellFormed(cmd)
    ensures sum == Score(cmd)
  {
    sum := 0;
    var count := 0;
    var i := FirstLetter;
    while i < |cmd|
      invariant FirstLetter <= i && (i <= |cmd| || i == FirstLetter)
      invariant i <= |cmd| ==> sum == LetterSum(cmd[FirstLetter..i]) && count == PlainCount(cmd[FirstLetter..i])
      invariant i > |cmd| ==> sum == 0 && count == 0
    {
      assert cmd[FirstLetter..i + 1][..i - FirstLetter] == cmd[FirstLetter..i];
      assert cmd[FirstLetter..i + 1][i - FirstLetter] == cmd[i];
      if !IsPlaced(cmd[i]) {
        sum := sum + LetterValue(cmd[i][0]);
        count := count + 1;
      } else {
        sum := sum + LetterValue(cmd[i][1]);
      }
      i := i + 1;
    }
    if i > FirstLetter {
      assert cmd[FirstLetter..i] == LetterTokens(cmd);
    }
    if count == BingoTiles {
      sum := sum + BingoBonus;
    }
  }

  /** Appending one token adds its letter's value, and its letter to those taken from the hand if it is plain. */
  lemma AppendToken(a: seq<string>, t: string)
    requires AllWellFormed(a) && WellFormedToken(t)
    ensures AllWellFormed(a + [t])
    ensures LetterSum(a + [t]) == LetterSum(a) + LetterValue(TokenLetter(t))
    ensures PlainCount(a + [t]) == PlainCount(a) + if IsPlaced(t) then 0 else 1
    ensures PlainLetters(a + [t]) == PlainLetters(a) + if IsPlaced(t) then multiset{} else multiset{t[0]}
  {
    assert (a + [t])[..|a|] == a;
  }

  /** The letter sum of two runs of tokens is the sum of their letter sums. */
  lemma {:induction false} LetterSumAppend(a: seq<string>, b: seq<string>)
    requires AllWellFormed(a) && AllWellFormed(b)
    ensures AllWellFormed(a + b)
    ensures LetterSum(a + b) == LetterSum(a) + LetterSum(b)
    decreases |b|
  {
    if b != [] {
      var c := b[..|b| - 1];
      assert (a + b)[..|a + b| - 1] == a + c;
      LetterSumAppend(a, c);
    } else {
      assert a + b == a;
    }
  }

  /** Plain tokens of two runs of tokens add up, and so do the letters they take. */
  lemma {:induction false} PlainAppend(a: seq<string>, b: seq<string>)
    requires AllWellFormed(a) && AllWellFormed(b)
    ensures AllWellFormed(a + b)
    ensures PlainCount(a + b) == PlainCount(a) + PlainCount(b)
    ensures PlainLetters(a + b) == PlainLetters(a) + PlainLetters(b)
    decreases |b|
  {
    if b != [] {
      var c := b[..|b| - 1];
      assert (a + b)[..|a + b| - 1] == a + c;
      PlainAppend(a, c);
    } else {
      assert a + b == a;
    }
  }

  /**
   * Marking a plain token as already placed keeps its letter in the sum but takes it out of the
   * count of new tiles and out of the letters taken from the hand.
   */
  lemma {:induction false} MarkPlaced(a: seq<string>, c: char, b: seq<string>)
    requires AllWellFormed(a) && AllWellFormed(b) && c != '('
    ensures AllWellFormed(a + [[c]] + b) && AllWellFormed(a + [['(', c, ')']] + b)
    ensures LetterSum(a + [['(', c, ')']] + b) == LetterSum(a + [[c]] + b)
    ensures PlainCount(a + [['(', c, ')']] + b) + 1 == PlainCount(a + [[c]] + b)
    ensures PlainLetters(a + [['(', c, ')']] + b) + multiset{c} == PlainLetters(a + [[c]] + b)
  {
    AppendToken(a, [c]);
    AppendToken(a, ['(', c, ')']);
    LetterSumAppend(a + [[c]], b);
    LetterSumAppend(a + [['(', c, ')']], b);
    PlainAppend(a + [[c]], b);
    PlainAppend(a + [['(', c, ')']], b);
  }

  /** Each letter is worth at most 10, so a placement of n letter tokens scores at most 10n + 50. */
  lemma {:induction false} LetterSumBound(toks: seq<string>)
    requires AllWellFormed(toks)
    ensures LetterSum(toks) <= 10 * |toks|
  {
    if toks != [] {
      LetterSumBound(toks[..|toks| - 1]);
    }
  }

  lemma ScoreBound(cmd: Command)
    requires WellFormed(cmd)
    ensures Score(cmd) <= 10 * |LetterTokens(cmd)| + BingoBonus
    ensures PlainCount(LetterTokens(cmd)) == BingoTiles ==> Score(cmd) >= BingoBonus
  {
    LetterSumBound(LetterTokens(cmd));
  }


  /** `String.replace(ch, "")`: every occurrence of `ch` removed, the rest kept in order. */
  function Remove(s: string, ch: char): (r: string)
    ensures ch !in r && |r| <= |s|
    ensures ch !in s ==> r == s
  {
    if s == [] then []
    else Remove(s[..|s| - 1], ch) + if s[|s| - 1] == ch then [] else [s[|s| - 1]]
  }

  /** Removing `ch` keeps exactly the other characters. */
  lemma {:induction false} RemoveKeeps(s: string, ch: char)
    ensures forall x :: x in Remove(s, ch) <==> x in s && x != ch
  {
    if s != [] {
      var p := s[..|s| - 1];
      RemoveKeeps(p, ch);
      assert s == p + [s[|s| - 1]];
    }
  }

  /** A token with every '(' and then every ')' removed. */
  function Strip(tok: string): string
  {
    Remove(Remove(tok, '('), ')')
  }

  /** A stripped token has no parentheses left, and a token without any is unchanged. */
  lemma StripClean(tok: string)
    ensures '(' !in Strip(tok) && ')' !in Strip(tok)
    ensures '(' !in tok && ')' !in tok ==> Strip(tok) == tok
  {
    RemoveKeeps(Remove(tok, '('), ')');
  }

  /** A letter in parentheses, as an already-placed token is written, strips to the letter alone. */
  lemma StripMarked(c: char)
    requires c != '(' && c != ')'
    ensures Strip(['(', c, ')']) == [c]
  {
    var tok := ['(', c, ')'];
    assert tok[..2][..1] == ['('] && tok[..2] == ['(', c];
    assert Remove(['('], '(') == [] by {
      assert ['('][..0] == [];
    }
    assert Remove(tok, '(') == [c, ')'];
    assert Remove([c, ')'], ')') == [c] by {
      assert [c, ')'][..1] == [c];
    }
  }

  /** The stripped tokens, concatenated in order. */
  function Spell(toks: seq<string>): string
  {
    if toks == [] then [] else Spell(toks[..|toks| - 1]) + Strip(toks[|toks| - 1])
  }

  /** What `wordCheck` builds: the stripped tokens from index 4 up to, but not including, the last one. */
  function Word(cmd: Command): string
  {
    if |cmd| <= FirstLetter + 1 then [] else Spell(cmd[FirstLetter..|cmd| - 1])
  }

  /** `wordCheck`: the loop that appends the stripped tokens, then the lookup in the word bank. */
  method WordCheck(cmd: Command, wordBank: seq<string>) returns (legal: bool)
    ensures legal <==> Word(cmd) in wordBank
  {
    var word: string := [];
    var i := FirstLetter;
    ghost var toks := LetterTokens(cmd);
    ghost var end := if |cmd| <= FirstLetter + 1 then FirstLetter else |cmd| - 1;
    ghost var j := 0;
    while i < |cmd| - 1
      invariant FirstLetter <= i <= end && j == i - FirstLetter <= |toks|
      invariant word == Spell(toks[..j])
    {
      SpellNext(toks, j);
      assert toks[j] == cmd[i];
      word := word + Strip(cmd[i]);
      i, j := i + 1, j + 1;
    }
    if |cmd| > FirstLetter + 1 {
      assert toks[..j] == cmd[FirstLetter..|cmd| - 1];
    }
    legal := word in wordBank;
  }

  /** Spelling one more token appends its stripped text. */
  lemma SpellNext(toks: seq<string>, j: nat)
    requires j < |toks|
    ensures Spell(toks[..j + 1]) == Spell(toks[..j]) + Strip(toks[j])
  {
    assert toks[..j + 1][..j] == toks[..j];
  }

  lemma {:induction false} SpellAppend(a: seq<string>, b: seq<string>)
    ensures Spell(a + b) == Spell(a) + Spell(b)
    decreases |b|
  {
    if b != [] {
      var c := b[..|b| - 1];
      assert (a + b)[..|a + b| - 1] == a + c;
      SpellAppend(a, c);
    } else {
      assert a + b == a;
    }
  }

  /**
   * The asymmetry between the two loops: a token appended at the end of a command adds its letter
   * to the score, but the word checked is spelled by the tokens before it, whatever it is.
   */
  lemma LastTokenScoredNotSpelled(cmd: Command, t: string)
    requires |cmd| >= FirstLetter && WellFormed(cmd) && WellFormedToken(t)
    ensures WellFormed(cmd + [t])
    ensures LetterSum(LetterTokens(cmd + [t])) == LetterSum(LetterTokens(cmd)) + LetterValue(TokenLetter(t))
    ensures Word(cmd + [t]) == Spell(LetterTokens(cmd))
  {
    assert LetterTokens(cmd + [t]) == LetterTokens(cmd) + [t];
    LetterSumAppend(LetterTokens(cmd), [t]);
    assert [t][..0] == [];
    if |cmd| == FirstLetter {
      assert LetterTokens(cmd) == [];
    } else {
      assert (cmd + [t])[FirstLetter..|cmd + [t]| - 1] == LetterTokens(cmd);
    }
  }

  /** Whatever the last token is, the word checked is the same. */
  lemma LastTokenNeverSpelled(cmd: Command, t: string, u: string)
    ensures Word(cmd + [t]) == Word(cmd + [u])
  {
    if |cmd| > FirstLetter {
      assert (cmd + [t])[FirstLetter..|cmd + [t]| - 1] == cmd[FirstLetter..];
      assert (cmd + [u])[FirstLetter..|cmd + [u]| - 1] == cmd[FirstLetter..];
    }
  }

  /**
   * `handCheck`: the hand holds every plain token's letter, as many times as the tokens name it;
   * so a hand that passes holds at least one tile per plain token.
   */
  function HandCheck(hand: multiset<char>, cmd: Command): (ok: bool)
    requires WellFormed(cmd)
    ensures ok ==> PlainCount(LetterTokens(cmd)) <= |hand|
  {
    PlainLettersSize(LetterTokens(cmd));
    assert PlainLetters(LetterTokens(cmd)) <= hand ==> hand == PlainLetters(LetterTokens(cmd)) + (hand - PlainLetters(LetterTokens(cmd)));
    PlainLetters(LetterTokens(cmd)) <= hand
  }
}
