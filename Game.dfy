/**
 * The game itself: the letter bag, the two players' hands and scores, the word bank, and the turn
 * loop of `play`. A hand is the multiset of letters on the player's tiles. The parser's commands
 * and where a placement's letters go on the grid are inputs; the random index of a draw is a
 * nondeterministic choice.
 */
module ScrabbleGame {
  import opened Tiles
  import opened Commands
  import opened ScrabbleBoard

  const PlayerCount: nat := 2
  const HandSize: nat := 7

  /** One command as the parser returns it, with the grid cells its letters are written to. */
  datatype Move = Move(command: Command, placement: map<Coord, char>)

  /**
   * What the checks of `play` read of a command without throwing: a first token, and for a
   * placement letter tokens whose letters can be read.
   */
  predicate Readable(m: Move)
  {
    |m.command| > 0 && (m.command[0] == "PLACE" ==> WellFormed(m.command))
  }

  /** None of the first `k` commands is a QUIT, so `play` reads command `k`. */
  predicate NoQuitBefore(moves: seq<Move>, k: nat)
    requires k <= |moves|
  {
    forall j :: 0 <= j < k ==> !IsQuit(moves[j])
  }

  /** Every cell the placement writes is on the board, so that `updateBoard` does not throw. */
  predicate OnBoard(m: Move)
  {
    forall c :: c in m.placement ==> InBounds(c)
  }

  /** A placement the game accepts: the hand holds its new letters and the word is in the bank. */
  predicate Accepted(hand: multiset<char>, bank: seq<string>, m: Move)
    requires Readable(m)
  {
    m.command[0] == "PLACE" && HandCheck(hand, m.command) && Word(m.command) in bank
  }

  /** The command is QUIT. */
  predicate IsQuit(m: Move)
  {
    |m.command| > 0 && m.command[0] == "QUIT"
  }

  /** How many of `n` draws find a tile in a bag of `size` tiles; the others get the sentinel. */
  function Taken(n: int, size: nat): nat
  {
    if n <= 0 then 0 else if n <= size then n else size
  }

  /**
   * `drawn` is what draws one after the other handed out from `bag0`, leaving `bag`: the draws
   * made while the bag lasted took their tiles out of it, the others gave the sentinel.
   */
  ghost predicate DrawnFrom(bag0: seq<LetterTile>, bag: seq<LetterTile>, drawn: seq<LetterTile>)
  {
    var k := Taken(|drawn|, |bag0|);
    |bag| == |bag0| - k && multiset(bag) + multiset(drawn[..k]) == multiset(bag0) &&
    forall j :: k <= j < |drawn| ==> drawn[j] == Sentinel
  }

  /**
   * One more draw keeps the account: from a non-empty bag its tile joins those taken out of the
   * bag, from an empty one it is the sentinel.
   */
  lemma DrawStep(bag0: seq<LetterTile>, bag: seq<LetterTile>, bag1: seq<LetterTile>, drawn: seq<LetterTile>, t: LetterTile)
    requires DrawnFrom(bag0, bag, drawn)
    requires bag != [] ==> |bag1| == |bag| - 1 && multiset(bag1) + multiset{t} == multiset(bag)
    requires bag == [] ==> t == Sentinel && bag1 == []
    ensures DrawnFrom(bag0, bag1, drawn + [t])
    ensures Taken(|drawn| + 1, |bag0|) == Taken(|drawn|, |bag0|) + if bag != [] then 1 else 0
  {
    var k := Taken(|drawn|, |bag0|);
    if bag != [] {
      assert k == |drawn|;
      assert (drawn + [t])[..|drawn| + 1] == drawn[..k] + [t];
    } else {
      assert k == |bag0| <= |drawn|;
      assert (drawn + [t])[..k] == drawn[..k];
    }
  }

  /**
   * While the bag holds enough tiles, every draw takes one out of it, so none is a sentinel unless
   * the bag held one.
   */
  lemma DrawnFromFull(bag0: seq<LetterTile>, bag: seq<LetterTile>, drawn: seq<LetterTile>)
    requires DrawnFrom(bag0, bag, drawn) && |drawn| <= |bag0|
    ensures |bag| == |bag0| - |drawn| && multiset(bag) + multiset(drawn) == multiset(bag0)
    ensures Sentinel !in bag0 ==> Sentinel !in drawn
  {
    assert drawn[..|drawn|] == drawn;
    if Sentinel in drawn {
      assert multiset(bag0)[Sentinel] >= multiset(drawn)[Sentinel] > 0;
      assert Sentinel in multiset(bag0);
    }
  }

  /**
   * From a bag with no sentinel in it, exactly `Taken` of the tiles drawn are tiles of the bag;
   * the other draws, made once it was empty, are sentinels.
   */
  lemma DrawnSentinels(bag0: seq<LetterTile>, bag: seq<LetterTile>, drawn: seq<LetterTile>)
    requires DrawnFrom(bag0, bag, drawn) && Sentinel !in bag0
    ensures multiset(drawn)[Sentinel] == |drawn| - Taken(|drawn|, |bag0|)
  {
    var k := Taken(|drawn|, |bag0|);
    assert drawn == drawn[..k] + drawn[k..];
    assert multiset(drawn[..k])[Sentinel] == 0 by {
      assert multiset(bag0)[Sentinel] == 0;
    }
    assert drawn[k..] == Copies(Sentinel, |drawn| - k);
    CopiesContents(Sentinel, |drawn| - k);
  }

  /**
   * The letters of the tiles drawn and of the tiles left in the bag are the letters the bag
   * started with, plus one '1' for every draw that found the bag empty.
   */
  lemma DrawnLetters(bag0: seq<LetterTile>, bag: seq<LetterTile>, drawn: seq<LetterTile>)
    requires DrawnFrom(bag0, bag, drawn)
    ensures LettersOf(bag) + LettersOf(drawn) == LettersOf(bag0) + SentinelLetters(|drawn| - Taken(|drawn|, |bag0|))
  {
    var k := Taken(|drawn|, |bag0|);
    assert drawn == drawn[..k] + drawn[k..];
    LettersOfAppend(drawn[..k], drawn[k..]);
    LettersOfSentinels(drawn[k..]);
    assert multiset(bag + drawn[..k]) == multiset(bag0);
    LettersOfPermutation(bag + drawn[..k], bag0);
    LettersOfAppend(bag, drawn[..k]);
  }

  /**
   * The account of letters survives a placement: its letters `taken` leave one of the two hands
   * `h0`, `h1` for the board, and the draws that refill that hand leave the bag, `n` of them new
   * sentinels; the hands become `g0`, `g1`.
   */
  lemma Recount(bag: multiset<char>, bag1: multiset<char>, h0: multiset<char>, h1: multiset<char>,
                g0: multiset<char>, g1: multiset<char>, played: multiset<char>, taken: multiset<char>,
                drawn: multiset<char>, total: multiset<char>, s: nat, n: nat)
    requires bag + h0 + h1 + played == total + SentinelLetters(s)
    requires bag1 + drawn == bag + SentinelLetters(n)
    requires (taken <= h0 && g0 == (h0 - taken) + drawn && g1 == h1) || (taken <= h1 && g0 == h0 && g1 == (h1 - taken) + drawn)
    ensures bag1 + g0 + g1 + (played + taken) == total + SentinelLetters(s + n)
  {
    var lhs := bag1 + g0 + g1 + (played + taken);
    forall c
      ensures lhs[c] == (total + SentinelLetters(s + n))[c]
    {
      assert (bag + h0 + h1 + played)[c] == (total + SentinelLetters(s))[c];
      assert (bag1 + drawn)[c] == (bag + SentinelLetters(n))[c];
      assert SentinelLetters(s + n)[c] == SentinelLetters(s)[c] + SentinelLetters(n)[c];
    }
    assert lhs == total + SentinelLetters(s + n);
  }

  /** `letterBag.remove(k)`: the element at `k` taken out, the others kept in order. */
  function RemoveAt(s: seq<LetterTile>, k: nat): (r: seq<LetterTile>)
    requires k < |s|
    ensures |r| == |s| - 1
    ensures multiset(r) + multiset{s[k]} == multiset(s)
    ensures forall j :: 0 <= j < |r| ==> r[j] == if j < k then s[j] else s[j + 1]
  {
    assert s == s[..k] + [s[k]] + s[k + 1..];
    s[..k] + s[k + 1..]
  }

  /**
   * The loop of a placement that runs over its letter tokens (command index 4 on), taking each
   * plain token's letter out of the hand and counting the tokens already on the board.
   */
  method TakeFromHand(hand: multiset<char>, toks: seq<string>) returns (rest: multiset<char>, numAlreadyPlaced: nat)
    requires AllWellFormed(toks)
    ensures rest == hand - PlainLetters(toks)
    ensures numAlreadyPlaced == PlacedCount(toks)
  {
    rest, numAlreadyPlaced := hand, 0;
    for k := 0 to |toks|
      invariant rest == hand - PlainLetters(toks[..k])
      invariant numAlreadyPlaced == PlacedCount(toks[..k])
    {
      assert toks[..k + 1][..k] == toks[..k];
      if !IsPlaced(toks[k]) {
        SubtractOne(hand, PlainLetters(toks[..k]), toks[k][0]);
        rest := rest - multiset{toks[k][0]};
      } else {
        numAlreadyPlaced := numAlreadyPlaced + 1;
      }
    }
    assert toks[..|toks|] == toks;
  }

  /** A hand that gives up some of its letters and draws as many keeps its size. */
  lemma RefillKeepsSize(hand: multiset<char>, played: multiset<char>, refill: multiset<char>)
    requires played <= hand && |refill| == |played|
    ensures |(hand - played) + refill| == |hand|
  {
    assert (hand - played) + played == hand;
  }

  /**
   * No letter created or lost: the letters in the bag, in the hands and on the board are the
   * `total` the bag was created with, plus one '1' per sentinel handed out.
   */
  ghost predicate Accounted(total: multiset<char>, bag: seq<LetterTile>, hands: seq<multiset<char>>,
                            played: multiset<char>, sentinels: nat)
  {
    |hands| == PlayerCount && LettersOf(bag) + hands[0] + hands[1] + played == total + SentinelLetters(sentinels)
  }

  /**
   * A placement keeps the account: its letters `taken` go from hand `i` to the board, and the
   * hand is refilled with tiles drawn from the bag.
   */
  lemma AccountKept(total: multiset<char>, bag0: seq<LetterTile>, hands0: seq<multiset<char>>, played0: multiset<char>,
                    s0: nat, i: nat, taken: multiset<char>, bag: seq<LetterTile>, drawn: seq<LetterTile>,
                    hands: seq<multiset<char>>, played: multiset<char>, s: nat)
    requires Accounted(total, bag0, hands0, played0, s0) && i < |hands0| && taken <= hands0[i]
    requires DrawnFrom(bag0, bag, drawn)
    requires |hands| == |hands0| && hands[i] == (hands0[i] - taken) + LettersOf(drawn)
    requires forall q :: 0 <= q < |hands| && q != i ==> hands[q] == hands0[q]
    requires played == played0 + taken && s == s0 + |drawn| - Taken(|drawn|, |bag0|)
    ensures Accounted(total, bag, hands, played, s)
  {
    DrawnLetters(bag0, bag, drawn);
    Recount(LettersOf(bag0), LettersOf(bag), hands0[0], hands0[1], hands[0], hands[1], played0, taken,
      LettersOf(drawn), total, s0, |drawn| - Taken(|drawn|, |bag0|));
  }

  /**
   * The end of an accepted placement keeps the account and the size of every hand: the plain
   * tokens' letters go from hand `i` to the board and as many tiles are drawn in their place.
   */
  lemma RefillAccounts(total: multiset<char>, bag0: seq<LetterTile>, hands0: seq<multiset<char>>, played0: multiset<char>,
                       s0: nat, i: nat, toks: seq<string>, bag: seq<LetterTile>, drawn: seq<LetterTile>,
                       hands: seq<multiset<char>>, played: multiset<char>, s: nat)
    requires AllWellFormed(toks)
    requires Accounted(total, bag0, hands0, played0, s0) && forall p :: 0 <= p < |hands0| ==> |hands0[p]| == HandSize
    requires i < |hands0| && PlainLetters(toks) <= hands0[i]
    requires DrawnFrom(bag0, bag, drawn) && |drawn| == PlainCount(toks)
    requires |hands| == |hands0| && hands[i] == (hands0[i] - PlainLetters(toks)) + LettersOf(drawn)
    requires forall q :: 0 <= q < |hands| && q != i ==> hands[q] == hands0[q]
    requires played == played0 + PlainLetters(toks) && s == s0 + |drawn| - Taken(|drawn|, |bag0|)
    ensures Accounted(total, bag, hands, played, s)
    ensures forall p :: 0 <= p < |hands| ==> |hands[p]| == HandSize
  {
    AccountKept(total, bag0, hands0, played0, s0, i, PlainLetters(toks), bag, drawn, hands, played, s);
    PlainLettersSize(toks);
    LettersOfSize(drawn);
    RefillKeepsSize(hands0[i], PlainLetters(toks), LettersOf(drawn));
  }

  /**
   * What a turn changes: the bag, the hands, the scores, the cells of the board, and the account
   * of the letters placed on the board and of the sentinel tiles handed out.
   */
  datatype GameState = GameState(
    bag: seq<LetterTile>, hands: seq<multiset<char>>, scores: seq<int>, played: multiset<char>, sentinels: nat,
    cells: map<Coord, char>)

  /**
   * One pass of the loop of `play` for player `i`, from state `s` to state `t` with `next` to move
   * and `drawn` the tiles drawn. A placement the game accepts adds its score to player `i` alone,
   * moves its new letters from that hand to the board, writes its letters to the cells it names,
   * refills the hand with as many draws from the bag and passes the turn on. Any other command
   * changes nothing, the board included, and keeps the same player.
   */
  ghost predicate Step(s: GameState, i: nat, m: Move, bank: seq<string>, drawn: seq<LetterTile>, t: GameState, next: nat)
    requires Readable(m) && i < |s.hands|
  {
    if Accepted(s.hands[i], bank, m) then
      var toks := LetterTokens(m.command);
      next == (i + 1) % |s.hands| &&
      |t.scores| == |s.scores| &&
      (forall q :: 0 <= q < |s.scores| ==> t.scores[q] == s.scores[q] + if q == i then Score(m.command) else 0) &&
      |drawn| == PlainCount(toks) && DrawnFrom(s.bag, t.bag, drawn) &&
      |t.hands| == |s.hands| &&
      (forall q :: 0 <= q < |s.hands| ==>
        t.hands[q] == if q == i then (s.hands[i] - PlainLetters(toks)) + LettersOf(drawn) else s.hands[q]) &&
      t.played == s.played + PlainLetters(toks) &&
      t.sentinels == s.sentinels + |drawn| - Taken(|drawn|, |s.bag|) &&
      t.cells == s.cells + m.placement
    else
      next == i && drawn == [] && t == s
  }

  /** A turn never lowers a score and never adds a tile to the bag. */
  lemma StepMonotone(s: GameState, i: nat, m: Move, bank: seq<string>, drawn: seq<LetterTile>, t: GameState, next: nat)
    requires Readable(m) && i < |s.hands| && Step(s, i, m, bank, drawn, t, next)
    ensures |t.scores| == |s.scores| && forall p :: 0 <= p < |s.scores| ==> t.scores[p] >= s.scores[p]
    ensures |t.bag| <= |s.bag|
  {
  }

  /**
   * Turn `n` of a run: command `n` of `moves` is readable, `turns[n]` names a player, and the
   * game goes from `trace[n]` to `trace[n + 1]` by the `Step` of that player with tiles `draws[n]`.
   */
  ghost predicate StepAt(trace: seq<GameState>, turns: seq<nat>, draws: seq<seq<LetterTile>>, moves: seq<Move>, bank: seq<string>, n: nat)
    requires |trace| == |draws| + 1 && |turns| == |draws| + 1 && n < |draws| <= |moves|
  {
    Readable(moves[n]) && turns[n] < |trace[n].hands| &&
    Step(trace[n], turns[n], moves[n], bank, draws[n], trace[n + 1], turns[n + 1])
  }

  /** `trace` is a run of `play` over the first `|draws|` commands of `moves`: each turn is a `StepAt`. */
  ghost predicate Run(trace: seq<GameState>, turns: seq<nat>, draws: seq<seq<LetterTile>>, moves: seq<Move>, bank: seq<string>)
  {
    |trace| == |draws| + 1 && |turns| == |draws| + 1 && |draws| <= |moves| &&
    forall n :: 0 <= n < |draws| ==> StepAt(trace, turns, draws, moves, bank, n)
  }

  /** A run followed by one more step is a run. */
  lemma RunExtend(trace: seq<GameState>, turns: seq<nat>, draws: seq<seq<LetterTile>>, moves: seq<Move>, bank: seq<string>,
                  s: GameState, i: nat, m: Move, drawn: seq<LetterTile>, t: GameState, next: nat)
    requires Run(trace, turns, draws, moves, bank) && |draws| < |moves|
    requires trace[|draws|] == s && turns[|draws|] == i && moves[|draws|] == m
    requires Readable(m) && i < |s.hands| && Step(s, i, m, bank, drawn, t, next)
    ensures Run(trace + [t], turns + [next], draws + [drawn], moves, bank)
  {
    var trace', turns', draws' := trace + [t], turns + [next], draws + [drawn];
    forall n | 0 <= n < |draws'|
      ensures StepAt(trace', turns', draws', moves, bank, n)
    {
      assert trace'[n] == trace[n] && turns'[n] == turns[n];
      if n < |draws| {
        assert draws'[n] == draws[n] && trace'[n + 1] == trace[n + 1] && turns'[n + 1] == turns[n + 1];
        assert StepAt(trace, turns, draws, moves, bank, n);
      }
    }
  }

  /** Along a run no score goes down and the bag never grows: from `trace[0]` to `trace[k]`. */
  lemma {:induction false} RunMonotone(trace: seq<GameState>, turns: seq<nat>, draws: seq<seq<LetterTile>>, moves: seq<Move>, bank: seq<string>, k: nat)
    requires Run(trace, turns, draws, moves, bank) && k <= |draws|
    ensures |trace[k].scores| == |trace[0].scores|
    ensures forall p :: 0 <= p < |trace[0].scores| ==> trace[k].scores[p] >= trace[0].scores[p]
    ensures |trace[k].bag| <= |trace[0].bag|
  {
    if k > 0 {
      RunMonotone(trace, turns, draws, moves, bank, k - 1);
      assert StepAt(trace, turns, draws, moves, bank, k - 1);
      StepMonotone(trace[k - 1], turns[k - 1], moves[k - 1], bank, draws[k - 1], trace[k], turns[k]);
    }
  }

  /**
   * A run of commands none of which is a placement changes nothing: the state and the player to
   * move stay those of the start.
   */
  lemma {:induction false} RunWithoutPlacements(trace: seq<GameState>, turns: seq<nat>, draws: seq<seq<LetterTile>>, moves: seq<Move>, bank: seq<string>, k: nat)
    requires Run(trace, turns, draws, moves, bank) && k <= |draws|
    requires forall j :: 0 <= j < |draws| ==> |moves[j].command| > 0 && moves[j].command[0] != "PLACE"
    ensures trace[k] == trace[0] && turns[k] == turns[0]
  {
    if k > 0 {
      RunWithoutPlacements(trace, turns, draws, moves, bank, k - 1);
      assert StepAt(trace, turns, draws, moves, bank, k - 1);
    }
  }

  /**
   * Before any placement and any sentinel, the hands and the bag hold the letters of the created
   * bag between them, so a hand holds only letters of that bag.
   */
  lemma DealtLetters(total: multiset<char>, bag: seq<LetterTile>, hands: seq<multiset<char>>)
    requires Accounted(total, bag, hands, multiset{}, 0) && forall c :: c in total ==> 'A' <= c <= 'Z'
    ensures hands[0] + hands[1] + LettersOf(bag) == total
    ensures forall p, c :: 0 <= p < |hands| && c in hands[p] ==> 'A' <= c <= 'Z'
  {
    forall c
      ensures (hands[0] + hands[1] + LettersOf(bag))[c] == total[c]
    {
      assert (LettersOf(bag) + hands[0] + hands[1] + multiset{})[c] == (total + SentinelLetters(0))[c];
    }
    assert hands[0] + hands[1] + LettersOf(bag) == total;
    forall p, c | 0 <= p < |hands| && c in hands[p]
      ensures 'A' <= c <= 'Z'
    {
      assert total[c] >= hands[p][c] > 0;
    }
  }

  class Scrabble {
    const board: Board
    var letterBag: seq<LetterTile>
    var hands: seq<multiset<char>>
    var scores: seq<int>
    var wordBank: seq<string>
    /** The letters written to the board by accepted placements. */
    ghost var played: multiset<char>
    /** How many sentinel tiles draws from the empty bag have handed out. */
    ghost var sentinels: nat
    /** The letters of the tiles the bag was created with. */
    ghost const total: multiset<char>

    /** Two players with seven letters each, and the letters accounted for. */
    ghost predicate Dealt()
      reads this
    {
      |hands| == PlayerCount && |scores| == PlayerCount &&
      (forall p :: 0 <= p < PlayerCount ==> |hands[p]| == HandSize) &&
      Accounted(total, letterBag, hands, played, sentinels)
    }

    /** A valid board, whose cells match its grid, and the hands dealt and accounted for. */
    ghost predicate Valid()
      reads this, board, board.grid
    {
      board.Valid() && Dealt()
    }

    /** The part of the game a turn changes. */
    ghost function State(): GameState
      reads this, board
    {
      GameState(letterBag, hands, scores, played, sentinels, board.cells)
    }

    /**
     * The constructor: a new empty board, two players with no score, the bag created, then seven
     * tiles drawn for each player in turn. The word bank is given rather than read from a file.
     */
    constructor (bank: seq<string>)
      ensures Valid() && fresh(board) && fresh(board.grid)
      ensures forall r, c :: 0 <= r < Size && 0 <= c < Size ==> board.grid[r, c] == Empty
      ensures scores == [0, 0] && wordBank == bank && played == multiset{} && sentinels == 0
      ensures total == LettersOf(Distribution())
      ensures |letterBag| == |Distribution()| - PlayerCount * HandSize
      ensures hands[0] + hands[1] + LettersOf(letterBag) == LettersOf(Distribution())
      ensures forall p, c :: 0 <= p < PlayerCount && c in hands[p] ==> 'A' <= c <= 'Z'
    {
      board := new Board();
      letterBag := [];
      hands := [multiset{}, multiset{}];
      scores := [0, 0];
      wordBank := bank;
      played := multiset{};
      sentinels := 0;
      total := LettersOf(Distribution());
      new;
      CreateLetterBag();
      DistributionSize();
      assert letterBag == Distribution();
      assert SentinelLetters(0) == multiset{};
      for p := 0 to PlayerCount
        invariant board.Valid() && |hands| == PlayerCount && scores == [0, 0] && wordBank == bank
        invariant played == multiset{} && sentinels == 0 && Accounted(total, letterBag, hands, played, sentinels)
        invariant fresh(board) && fresh(board.grid)
        invariant forall r, c :: 0 <= r < Size && 0 <= c < Size ==> board.grid[r, c] == Empty
        invariant forall q :: 0 <= q < PlayerCount ==> |hands[q]| == if q < p then HandSize else 0
        invariant |letterBag| == |Distribution()| - p * HandSize
      {
        ghost var bag0, hands0 := letterBag, hands;
        ghost var drawn := AddLetterTiles(p, HandSize);
        LettersOfSize(drawn);
        assert hands0[p] - multiset{} == hands0[p] && played + multiset{} == played;
        AccountKept(total, bag0, hands0, played, 0, p, multiset{}, letterBag, drawn, hands, played, sentinels);
      }
      DistributionLetters();
      DealtLetters(total, letterBag, hands);
    }

    /** `createLetterBag`: appends, letter by letter of the table, that letter's number of tiles. */
    method CreateLetterBag()
      modifies this`letterBag
      ensures letterBag == old(letterBag) + Distribution()
    {
      ghost var bag0 := letterBag;
      for i := 0 to |Letters|
        invariant letterBag == bag0 + BagPrefix(i)
      {
        var t, n := TileOf(Letters[i]), NumTiles[i];
        ghost var start := letterBag;
        for j := 0 to n
          invariant letterBag == start + Copies(t, j)
        {
          CopiesSnoc(t, j);
          letterBag := letterBag + [t];
        }
        BagPrefixStep(i);
      }
    }

    /**
     * `getLetterTile`: from a non-empty bag, the tile at some index, removed from the bag; from an
     * empty bag, a new sentinel tile, the bag left empty.
     */
    method GetLetterTile() returns (t: LetterTile)
      modifies this`letterBag, this`sentinels
      ensures old(letterBag) != [] ==>
        exists k :: 0 <= k < |old(letterBag)| && t == old(letterBag)[k] && letterBag == RemoveAt(old(letterBag), k)
      ensures old(letterBag) != [] ==>
        |letterBag| == |old(letterBag)| - 1 && multiset(letterBag) + multiset{t} == multiset(old(letterBag)) &&
        sentinels == old(sentinels)
      ensures old(letterBag) == [] ==> t == Sentinel && letterBag == [] && sentinels == old(sentinels) + 1
    {
      if |letterBag| > 0 {
        var val :| 0 <= val < |letterBag|;
        t := letterBag[val];
        letterBag := RemoveAt(letterBag, val);
      } else {
        t := Sentinel;
        sentinels := sentinels + 1;
      }
    }

    /**
     * One draw of the loop of `addLetterTiles`: `getLetterTile`, seen as one more tile drawn since
     * the bag was `bag0`. It takes a tile out of the bag or hands out one more sentinel.
     */
    method DrawOne(ghost bag0: seq<LetterTile>, ghost drawn: seq<LetterTile>) returns (t: LetterTile)
      requires DrawnFrom(bag0, letterBag, drawn)
      modifies this`letterBag, this`sentinels
      ensures DrawnFrom(bag0, letterBag, drawn + [t])
      ensures sentinels + Taken(|drawn| + 1, |bag0|) == old(sentinels) + Taken(|drawn|, |bag0|) + 1
    {
      t := GetLetterTile();
      DrawStep(bag0, old(letterBag), letterBag, drawn, t);
    }

    /**
     * `addLetterTiles`: `n` draws into player `p`'s hand (none when `n` is not positive). The
     * first ones come out of the bag while it lasts; the rest are new sentinels.
     */
    method AddLetterTiles(p: nat, n: int) returns (ghost drawn: seq<LetterTile>)
      requires p < |hands|
      modifies this`letterBag, this`sentinels, this`hands
      ensures |drawn| == if n < 0 then 0 else n
      ensures DrawnFrom(old(letterBag), letterBag, drawn)
      ensures sentinels == old(sentinels) + |drawn| - Taken(|drawn|, |old(letterBag)|)
      ensures |hands| == |old(hands)| && hands[p] == old(hands)[p] + LettersOf(drawn)
      ensures forall q :: 0 <= q < |hands| && q != p ==> hands[q] == old(hands)[q]
    {
      drawn := [];
      var hand := hands[p];
      var i := 0;
      while i < n
        invariant 0 <= i && (i <= n || i == 0) && |drawn| == i
        invariant DrawnFrom(old(letterBag), letterBag, drawn)
        invariant sentinels == old(sentinels) + |drawn| - Taken(|drawn|, |old(letterBag)|)
        invariant hand == old(hands)[p] + LettersOf(drawn)
        invariant hands == old(hands)
      {
        var t := DrawOne(old(letterBag), drawn);
        LettersOfAppend(drawn, [t]);
        LettersOfOne(t);
        hand := hand + multiset{t.letter};
        drawn := drawn + [t];
        i := i + 1;
      }
      hands := hands[p := hand];
    }

    /**
     * One pass of the loop of `play` for player `i`: a `Step`. An error, an unknown keyword and a
     * placement the hand or the word bank refuses change nothing and keep the same player; QUIT
     * stops the game. An accepted placement also writes its letters to the grid.
     */
    method Turn(i: nat, m: Move) returns (next: nat, running: bool, ghost drawn: seq<LetterTile>)
      requires Valid() && i < |hands| && Readable(m)
      requires Accepted(hands[i], wordBank, m) ==> OnBoard(m)
      modifies this`letterBag, this`sentinels, this`hands, this`played, this`scores, board.grid, board`cells
      ensures Valid() && next < |hands|
      ensures running <==> !IsQuit(m)
      ensures Step(old(State()), i, m, wordBank, drawn, State(), next)
      ensures !Accepted(old(hands)[i], wordBank, m) ==> unchanged(board.grid)
      ensures Accepted(old(hands)[i], wordBank, m) ==>
        forall r, c :: 0 <= r < Size && 0 <= c < Size ==>
          board.grid[r, c] == if Coord(r, c) in m.placement then m.placement[Coord(r, c)] else old(board.grid[r, c])
    {
      next, running, drawn := i, true, [];
      var command := m.command;
      if command[0] == "ERROR" {
        assert !Accepted(old(hands)[i], wordBank, m);
        return;
      }
      if command[0] == "QUIT" {
        running := false;
        assert !Accepted(old(hands)[i], wordBank, m);
        return;
      }
      if command[0] == "PLACE" {
        next, drawn := Place(i, m);
      } else {
        assert !Accepted(old(hands)[i], wordBank, m);
      }
    }

    /**
     * A PLACE command of player `i`: refused, with nothing changed and the same player to move,
     * unless the hand holds its new letters and its word is in the bank; otherwise placed, and
     * the turn passes on.
     */
    method Place(i: nat, m: Move) returns (next: nat, ghost drawn: seq<LetterTile>)
      requires Valid() && i < |hands| && Readable(m) && m.command[0] == "PLACE"
      requires Accepted(hands[i], wordBank, m) ==> OnBoard(m)
      modifies this`letterBag, this`sentinels, this`hands, this`played, this`scores, board.grid, board`cells
      ensures Valid() && next < |hands|
      ensures Step(old(State()), i, m, wordBank, drawn, State(), next)
      ensures !Accepted(old(hands)[i], wordBank, m) ==> unchanged(board.grid)
      ensures Accepted(old(hands)[i], wordBank, m) ==>
        forall r, c :: 0 <= r < Size && 0 <= c < Size ==>
          board.grid[r, c] == if Coord(r, c) in m.placement then m.placement[Coord(r, c)] else old(board.grid[r, c])
    {
      ghost var s0 := State();
      next, drawn := i, [];
      var command := m.command;
      if HandCheck(hands[i], command) {
        var legal := WordCheck(command, wordBank);
        if legal {
          var points;
          drawn, points := PlaceWord(i, m);
          next := (i + 1) % |hands|;
          assert Accepted(s0.hands[i], wordBank, m) && State().cells == s0.cells + m.placement;
        } else {
          assert !Accepted(old(hands)[i], wordBank, m);
        }
      } else {
        assert !Accepted(old(hands)[i], wordBank, m);
      }
    }

    /**
     * The branch of `play` that places an accepted word for player `i`: its letters written to the
     * grid, its score added, its new letters taken from the hand and as many tiles drawn in their
     * place.
     */
    method PlaceWord(i: nat, m: Move) returns (ghost drawn: seq<LetterTile>, points: int)
      requires Valid() && i < |hands| && Readable(m) && OnBoard(m) && m.command[0] == "PLACE"
      requires HandCheck(hands[i], m.command)
      modifies this`letterBag, this`sentinels, this`hands, this`played, this`scores, board.grid, board`cells
      ensures Valid()
      ensures points == Score(m.command) && |scores| == |old(scores)| && scores[i] == old(scores)[i] + points
      ensures forall q :: 0 <= q < |scores| && q != i ==> scores[q] == old(scores)[q]
      ensures |drawn| == PlainCount(LetterTokens(m.command)) && DrawnFrom(old(letterBag), letterBag, drawn)
      ensures |hands| == |old(hands)| && hands[i] == (old(hands)[i] - PlainLetters(LetterTokens(m.command))) + LettersOf(drawn)
      ensures forall q :: 0 <= q < |hands| && q != i ==> hands[q] == old(hands)[q]
      ensures played == old(played) + PlainLetters(LetterTokens(m.command))
      ensures sentinels == old(sentinels) + |drawn| - Taken(|drawn|, |old(letterBag)|)
      ensures forall r, c :: 0 <= r < Size && 0 <= c < Size ==>
        board.grid[r, c] == if Coord(r, c) in m.placement then m.placement[Coord(r, c)] else old(board.grid[r, c])
      ensures board.cells == old(board.cells) + m.placement
    {
      var command := m.command;
      var ok := board.UpdateBoard(m.placement);
      points := ScoredPoints(command);
      scores := scores[i := scores[i] + points];
      drawn := Refill(i, command);
    }

    /**
     * The end of an accepted placement: the letters of its plain tokens taken out of the hand of
     * player `i` and onto the board, then as many tiles drawn as the command has letter tokens not
     * already placed, so that the hand keeps its size.
     */
    method Refill(i: nat, command: Command) returns (ghost drawn: seq<LetterTile>)
      requires Dealt() && i < |hands| && WellFormed(command) && HandCheck(hands[i], command)
      modifies this`letterBag, this`sentinels, this`hands, this`played
      ensures Dealt()
      ensures |drawn| == PlainCount(LetterTokens(command)) && DrawnFrom(old(letterBag), letterBag, drawn)
      ensures |hands| == |old(hands)| && hands[i] == (old(hands)[i] - PlainLetters(LetterTokens(command))) + LettersOf(drawn)
      ensures forall q :: 0 <= q < |hands| && q != i ==> hands[q] == old(hands)[q]
      ensures played == old(played) + PlainLetters(LetterTokens(command))
      ensures sentinels == old(sentinels) + |drawn| - Taken(|drawn|, |old(letterBag)|)
    {
      ghost var bag0, hands0, played0, s0 := letterBag, hands, played, sentinels;
      var numLetters := |command| - FirstLetter;
      var toks := LetterTokens(command);
      var rest, numAlreadyPlaced := TakeFromHand(hands[i], toks);
      PlainLettersSize(toks);
      assert |toks| == if numLetters < 0 then 0 else numLetters;
      hands := hands[i := rest];
      played := played + PlainLetters(toks);
      drawn := AddLetterTiles(i, numLetters - numAlreadyPlaced);
      assert |drawn| == PlainCount(toks);
      RefillAccounts(total, bag0, hands0, played0, s0, i, toks, letterBag, drawn, hands, played, sentinels);
    }

    /** One turn of `play` that also extends the ghost record of the run so far. */
    method RecordedTurn(i: nat, moves: seq<Move>, k: nat, ghost trace: seq<GameState>, ghost turns: seq<nat>, ghost draws: seq<seq<LetterTile>>)
      returns (next: nat, running: bool, ghost trace': seq<GameState>, ghost turns': seq<nat>, ghost draws': seq<seq<LetterTile>>)
      requires Valid() && i < |hands| && k == |draws| < |moves|
      requires Readable(moves[|draws|]) && (moves[|draws|].command[0] == "PLACE" ==> OnBoard(moves[|draws|]))
      requires Run(trace, turns, draws, moves, wordBank) && trace[|draws|] == State() && turns[|draws|] == i
      modifies this`letterBag, this`sentinels, this`hands, this`played, this`scores, board.grid, board`cells
      ensures Valid() && next < |hands|
      ensures running <==> !IsQuit(moves[|draws|])
      ensures Run(trace', turns', draws', moves, wordBank) && |draws'| == |draws| + 1
      ensures trace'[..|draws| + 1] == trace && turns'[..|draws| + 1] == turns
      ensures trace'[|draws'|] == State() && turns'[|draws'|] == next
    {
      ghost var s, drawn := State(), [];
      next, running, drawn := Turn(i, moves[k]);
      RunExtend(trace, turns, draws, moves, wordBank, s, i, moves[k], drawn, State(), next);
      trace', turns', draws' := trace + [State()], turns + [next], draws + [drawn];
    }

    /**
     * `play`: turns from player 0 on, one command each, until a QUIT; here also until the
     * commands run out. Every command up to and including the first QUIT is consumed. The ghost
     * `trace` holds the state before each turn and after the last, `turns` the player to move in
     * each, and `draws` the tiles each turn drew: every consecutive pair is a `Step`.
     */
    method Play(moves: seq<Move>)
      returns (turn: nat, consumed: nat, ghost trace: seq<GameState>, ghost turns: seq<nat>, ghost draws: seq<seq<LetterTile>>)
      requires Valid()
      requires forall k :: 0 <= k < |moves| && NoQuitBefore(moves, k) ==>
        Readable(moves[k]) && (moves[k].command[0] == "PLACE" ==> OnBoard(moves[k]))
      modifies this`letterBag, this`sentinels, this`hands, this`played, this`scores, board.grid, board`cells
      ensures Valid() && turn < |hands| && consumed <= |moves|
      ensures forall k :: 0 <= k < consumed - 1 ==> !IsQuit(moves[k])
      ensures consumed < |moves| ==> consumed > 0 && IsQuit(moves[consumed - 1])
      ensures Run(trace, turns, draws, moves, wordBank) && |draws| == consumed
      ensures trace[0] == old(State()) && turns[0] == 0 && trace[consumed] == State() && turns[consumed] == turn
      ensures forall p :: 0 <= p < |scores| ==> scores[p] >= old(scores)[p]
      ensures |letterBag| <= |old(letterBag)|
    {
      var running := true;
      turn, consumed := 0, 0;
      trace, turns, draws := [State()], [0], [];
      ghost var s0 := State();
      while running && consumed < |moves|
        invariant Valid() && turn < |hands| && consumed <= |moves|
        invariant forall k :: 0 <= k < consumed - 1 ==> !IsQuit(moves[k])
        invariant consumed > 0 ==> (running <==> !IsQuit(moves[consumed - 1]))
        invariant consumed == 0 ==> running
        invariant Run(trace, turns, draws, moves, wordBank) && |draws| == consumed
        invariant trace[0] == s0 && turns[0] == 0 && trace[consumed] == State() && turns[consumed] == turn
        decreases |moves| - consumed
      {
        assert NoQuitBefore(moves, consumed);
        turn, running, trace, turns, draws := RecordedTurn(turn, moves, consumed, trace, turns, draws);
        consumed := consumed + 1;
      }
      RunMonotone(trace, turns, draws, moves, wordBank, consumed);
    }
  }

  /**
   * A game fed one ERROR command: the command is consumed, player 0 is still to move, and the
   * state, the board's cells and every square of the grid are as they were.
   */
  method ErrorOnly(g: Scrabble) returns (turn: nat, consumed: nat)
    requires g.Valid()
    modifies g`letterBag, g`sentinels, g`hands, g`played, g`scores, g.board.grid, g.board`cells
    ensures turn == 0 && consumed == 1 && g.State() == old(g.State())
    ensures forall r, c :: 0 <= r < Size && 0 <= c < Size ==> g.board.grid[r, c] == old(g.board.grid[r, c])
  {
    var moves := [Move(["ERROR"], map[])];
    ghost var trace, turns, draws;
    turn, consumed, trace, turns, draws := g.Play(moves);
    RunWithoutPlacements(trace, turns, draws, moves, g.wordBank, consumed);
    forall r, c | 0 <= r < Size && 0 <= c < Size
      ensures g.board.grid[r, c] == old(g.board.grid[r, c])
    {
      assert g.board.Cells()[Coord(r, c)] == g.board.grid[r, c];
      assert old(g.board.Cells())[Coord(r, c)] == old(g.board.grid[r, c]);
    }
  }
}
