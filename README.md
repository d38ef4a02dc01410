# Scrabble game core, modelled in Dafny

This project models the core of a two-player Scrabble engine written in Java: the class `Scrabble`
(letter bag, drawing tiles, scoring a placement, the word and hand checks, the turn loop of `play`)
and the class `Board` (the 15x15 grid, the table of premium squares, writing a placement to the
grid). Five modules:

- `Tiles`: letter tiles, the letter values, and the distribution table the bag is created from
  (26 letters, 98 tiles).
- `Commands`: what the game reads off a parsed command. This covers the score of a placement
  (`scoredPoints`), the word it spells (`wordCheck`), and the letters it takes from the hand
  (`handCheck`). Each is a specification function. The two loops of the source are methods proved
  equal to them.
- `ScrabbleBoard`: the premium table as the constructor's 36 puts, and the class `Board` with its
  grid (`array2<char>`), its premium map, and a ghost map `cells` from each square to the character
  the grid holds there. The constructor as written throws. This is modelled by the function
  `PutFirstOnField` applied to a null field and by the lemma `ConstructorAsWrittenThrows` (see
  Findings). The `Board` constructor models the corrected one.
- `ScrabbleGame`: the class `Scrabble` with the fields the source updates in place: the bag
  (`seq<LetterTile>`), the two hands, the two scores and the word bank. Its methods are the
  constructor, `createLetterBag`, `getLetterTile`, `addLetterTiles`, one pass of the `play` loop
  (`Turn`, split into `Place`, `PlaceWord` and `Refill`), and `play` itself.
- `Scenarios`: concrete placements worked through the scoring rule and the hand check.

Three ghost fields keep the account of the letters. `played` holds the letters that accepted
placements took out of a hand. `sentinels` counts the sentinel tiles handed out by draws from the
empty bag. `total` holds the letters of the bag as created. The class invariant `Valid` states
that the bag, the two hands and `played` together hold exactly `total` plus one '1' per sentinel.
It also states that each hand holds seven letters; these two parts are the predicate `Dealt`.
Finally it states `Board.Valid`: a 15x15 grid, the full premium table, and `cells` equal to the
grid read as a map.

`Turn`, `Place`, `PlaceWord` and `Play` keep `Valid`. `Refill` does not touch the board and keeps
`Dealt`. `CreateLetterBag`, `GetLetterTile`, `DrawOne` and `AddLetterTiles` are steps inside the
constructor and `Refill`, and they do not promise `Valid`. `GetLetterTile` on its own breaks the
account, because the letter it draws is in no hand until `AddLetterTiles` adds it.

A turn of `play` is the predicate `Step` on a `GameState`: the bag, the hands, the scores, the
board's `cells`, `played` and `sentinels`. `Play` returns a ghost trace of the states it went
through, and every consecutive pair in it is a `Step`. Since each state holds the board's cells,
the trace also says what happened to the board.

## Model

| member | source | states |
|---|---|---|
| Tiles.DistributionCounts | Scrabble.java:62-72 | The bag is created with exactly `numTiles[i]` tiles of letter `i` (E 12, Q 1, ...). Each tile carries its letter's value, every letter is upper case, and there is no other tile, in particular no sentinel. |
| Tiles.DistributionSize | Scrabble.java:62-72 | The created bag has 98 tiles. |
| Tiles.DistributionExamples | Scrabble.java:64-66 | Three table entries as they end up in the bag: E 12, Q 1, Z 1. |
| Tiles.CountTotal | Scrabble.java:66 | The `numTiles` table adds up to 98. |
| Tiles.BagPrefixCount | Scrabble.java:67-71 | Invariant of the outer loop: after the first `k` letters, the bag holds `numTiles[i]` tiles of letter `i` for `i < k` and none of the later letters. |
| Tiles.BagPrefixOnlyTable | Scrabble.java:67-71 | Every tile added by the first `k` letters is the tile of one of those letters. |
| Tiles.BagPrefixSize | Scrabble.java:67-71 | After the first `k` letters the bag has as many tiles as the first `k` entries of `numTiles` add up to. |
| Tiles.CopiesContents | Scrabble.java:68-70 | The inner loop adds exactly `n` copies of one tile and nothing else. |
| Tiles.LettersDistinct | Scrabble.java:64-65 | No letter appears twice in the table. |
| Tiles.TilesDistinct | Scrabble.java:64-69 | Two different entries of the table make two different tiles. |
| Tiles.LettersUpperCase | Scrabble.java:64-65 | Every letter of the table is between 'A' and 'Z'. |
| Tiles.LettersOfSize | Scrabble.java:90-94 | A hand grows by one letter per tile drawn. |
| Tiles.LettersOfAppend | Scrabble.java:90-94 | Drawing two runs of tiles adds the letters of both runs to the hand. |
| Tiles.LetterValue | Scrabble.java:54-60 | The value table: every upper-case letter is worth between 1 and 10 points, and any other character is worth 0. |
| Tiles.LettersOfPermutation | Scrabble.java:82 | The letters of a run of tiles depend only on which tiles it holds, so the order `remove` leaves the bag in does not matter. |
| Tiles.RemoveOne | Scrabble.java:82 | `remove(k)` takes exactly the letter of the tile at `k` out of the bag's letters. |
| Tiles.LettersOfMember | Scrabble.java:69 | Every letter of a run of tiles is printed on one of its tiles. |
| Tiles.LettersOfSentinels | Scrabble.java:86 | A run of `n` sentinel tiles holds `n` letters '1' and nothing else. |
| Tiles.DistributionLetters | Scrabble.java:62-72 | Every letter of the created bag is upper case, so none is the sentinel's '1'. |
| Commands.ScoredPoints | Scrabble.java:105-122 | The loop returns `Score`: every letter token's value (character 0 of a plain token, character 1 of a placed one), plus 50 when exactly seven tokens are plain. |
| Commands.ScoreBound | Scrabble.java:105-122 | A placement of `n` letter tokens scores at most `10n + 50`. With seven plain tokens it scores at least 50. |
| Commands.LetterSumBound | Scrabble.java:109-118 | Letter values add up to at most 10 per token. |
| Commands.MarkPlaced | Scrabble.java:110-116 | Marking a token as already placed keeps its letter in the sum. It takes that token out of the count of new tiles and takes its letter out of those needed from the hand. |
| Commands.AppendToken | Scrabble.java:109-118 | One more token adds its letter's value to the sum. If it is plain, it also adds one to the count and its letter to the letters taken from the hand. |
| Commands.LetterSumAppend | Scrabble.java:109-118 | The letter sum of two runs of tokens is the sum of their letter sums. |
| Commands.PlainAppend | Scrabble.java:109-118 | The plain counts, and the letters taken from the hand, of two runs of tokens add up. |
| Commands.PlainCount | Scrabble.java:109-113 | There are no more plain tokens than tokens. |
| Commands.PlacedCount | Scrabble.java:176-184 | Tokens counted as already placed and plain tokens together make up every letter token. |
| Commands.PlainLettersSize | Scrabble.java:176-184 | The removal loop takes exactly one letter from the hand per plain token. |
| Commands.WordCheck | Scrabble.java:127-133 | The answer is true if and only if the word spelled by the stripped tokens from index 4 up to the last one (excluded) is in the word bank. |
| Commands.Remove | Scrabble.java:130 | `replace(ch, "")`: the result has no `ch` and is no longer than the input. A string without `ch` is unchanged. |
| Commands.RemoveKeeps | Scrabble.java:130 | `replace(ch, "")` keeps exactly the characters other than `ch`. |
| Commands.StripClean | Scrabble.java:130 | A stripped token has no parentheses. A token without them is unchanged. |
| Commands.StripMarked | Scrabble.java:130 | An already-placed token `(c)` is spelled as `c`. |
| Commands.SpellAppend | Scrabble.java:128-131 | The word is built by concatenation: spelling two runs of tokens gives the two spellings one after the other. |
| Commands.LastTokenScoredNotSpelled | Scrabble.java:105-133 | A token appended at the end of a command adds its letter's value to the letter sum that `scoredPoints` adds up. The word checked, though, is spelled by the tokens before it. |
| Commands.LastTokenNeverSpelled | Scrabble.java:127-131 | Whatever the last token is, the word checked is the same. |
| Commands.HandCheck | Scrabble.java:138-140 | A hand passes only if it holds at least one letter per plain token. |
| Scenarios.ScoreExampleCat | Scrabble.java:105-122 | New C, A, T score 5, with no bonus. |
| Scenarios.HandCheckExampleMissing | Scrabble.java:138-140 | A hand holding A and T fails the check for new A, T, S. A hand holding A, T and S passes it. |
| Scenarios.HandCheckExamplePlaced | Scrabble.java:138-140 | With the S marked as already placed, a hand holding A and T passes the check. |
| ScrabbleBoard.Board.constructor | Board.java:16-58 | The new board has a fresh 15x15 grid with every cell empty. Its premium map is the full table, built by the 36 puts in order from an empty map. |
| ScrabbleBoard.Board.EmptyGrid | Board.java:64-71 | `board()`: a fresh 15x15 grid, every cell the blank character. |
| ScrabbleBoard.Board.GetPremium | Board.java:73-75 | The premium map is the table: squares on the board, each worth 2 or 3. |
| ScrabbleBoard.Board.GetBoard | Board.java:116-118 | The grid itself, 15x15. |
| ScrabbleBoard.Board.UpdateBoard | Board.java:83-90 | Each cell named in the placement takes the placed character, overwriting what was there. Every other cell and the premium table stay as they were. The board's `cells` become the old cells overwritten by the placement, and still match the grid. The result is always true. |
| ScrabbleBoard.Board.CellsOverwritten | Board.java:83-90 | Once every named square of the grid holds its placed character and every other square is unchanged, the grid read as a map is the old map overwritten by the placement. |
| ScrabbleBoard.PremiumTableContents | Board.java:19-58 | The table holds exactly the 36 listed cells. They are pairwise different and all on the board. The twelve triple-letter squares map to 3 and the twenty-four double-letter squares to 2. |
| ScrabbleBoard.PremiumCellsOnBoard | Board.java:19-58 | There are 36 puts, all on the board. |
| ScrabbleBoard.PremiumCellsLattice | Board.java:19-58 | A put is a triple-letter square if and only if its row and column are both 1, 5, 9 or 13. |
| ScrabbleBoard.TripleCellsDistinct | Board.java:20-31 | The twelve triple-letter puts name twelve different cells. |
| ScrabbleBoard.DoubleCellsIncreasing | Board.java:35-58 | The double-letter puts come in increasing row-major order. |
| ScrabbleBoard.PremiumCellsDistinct | Board.java:19-58 | No cell is put twice. |
| ScrabbleBoard.PutFirstKeys | Board.java:19-58 | After the first `k` puts, the keys are exactly the first `k` cells. |
| ScrabbleBoard.PutFirstValues | Board.java:19-58 | Each cell holds the value of its own put. |
| ScrabbleBoard.PutFirstOnField | Board.java:14-20 | A run of puts throws if and only if the field is null and at least one put is made. |
| ScrabbleBoard.ConstructorAsWrittenThrows | Board.java:14-20 | As written, the first put already throws, so `new Board()` fails. |
| ScrabbleBoard.PutsFromEmptyMap | Board.java:16-58 | Started from an empty map, the same puts never throw and build the premium table. |
| ScrabbleGame.Scrabble.constructor | Scrabble.java:21-48 | The new game has a valid state, a fresh empty board, scores 0 and 0, and the given word bank. Each player holds seven letters, all upper case. The bag holds 98 - 14 tiles. The two hands and the bag together hold exactly the letters of the created bag, and nothing has been played and no sentinel handed out. |
| ScrabbleGame.Scrabble.CreateLetterBag | Scrabble.java:62-72 | The bag becomes the old bag followed by the distribution, in table order. Nothing else changes. |
| ScrabbleGame.Scrabble.GetLetterTile | Scrabble.java:78-88 | From a non-empty bag it returns the tile at some index and removes that tile, keeping the others in order. From an empty bag it returns the sentinel `('1', 0)`, leaves the bag empty and counts one more sentinel handed out. |
| ScrabbleGame.Scrabble.DrawOne | Scrabble.java:91-93 | One draw of `addLetterTiles` extends the record of what was drawn since the bag was `bag0`. The count of sentinels grows exactly when the draw found the bag empty. |
| ScrabbleGame.Scrabble.AddLetterTiles | Scrabble.java:90-94 | Exactly `max(n, 0)` draws. The first draws come out of the bag while it lasts; the rest are sentinels, and the count of sentinels grows by their number. The bag shrinks by the tiles taken. Player `p`'s hand gains the letters drawn, and nothing else changes. |
| ScrabbleGame.Scrabble.Turn | Scrabble.java:148-189 | The pass is a `Step`. ERROR, an unknown keyword, or a placement the hand or the word bank refuses changes nothing and keeps the same player. QUIT stops the game. An accepted placement writes its characters over the board's cells, and the grid cell by cell. It adds `Score` to that player alone. It moves the placement's new letters from the hand to `played`, draws as many tiles as there were new letters, and passes the turn. Valid, with its letter account and hand sizes, is kept. |
| ScrabbleGame.Scrabble.Place | Scrabble.java:165-188 | The PLACE branch: the hand check, then the word check, then the placement. The pass is a `Step`, with the same board outcomes as `Turn`. |
| ScrabbleGame.Scrabble.PlaceWord | Scrabble.java:172-187 | An accepted placement's board update, score and hand refill. The board's cells become the old cells overwritten by the placement, and the grid changes accordingly. Only that player's score changes, by exactly `Score`. The plain tokens' letters go to `played`, and the sentinels drawn are counted. Valid is kept. |
| ScrabbleGame.Scrabble.Refill | Scrabble.java:175-185 | The hand loses exactly the plain tokens' letters and gains as many drawn tiles. The letters lost go to `played`, and the draws are accounted for in the bag and the count of sentinels. `Dealt`, with the letter account and the hands' sizes, is kept. |
| ScrabbleGame.Scrabble.RecordedTurn | Scrabble.java:148-189 | One pass of the loop that also extends the ghost trace: the trace so far is kept as its prefix, and the new last state is the state after the pass. |
| ScrabbleGame.Scrabble.Play | Scrabble.java:145-190 | Turns run from player 0 until the first QUIT, and every command up to and including it is consumed. The ghost trace starts at the old state with player 0 to move and ends at the new state and the returned player. Each pass in it is the `Step` of the command it consumed, board cells included. No score ever goes down, the bag never grows, and Valid is kept. |
| ScrabbleGame.ErrorOnly | Scrabble.java:148-158 | A game given a single ERROR command consumes it and leaves player 0 to move. The state, the board's cells and every square of the grid are as they were. |
| ScrabbleGame.TakeFromHand | Scrabble.java:176-184 | The removal loop leaves the hand minus the plain tokens' letters and counts the already-placed tokens. |
| ScrabbleGame.RefillKeepsSize | Scrabble.java:176-185 | Giving up letters the hand holds and drawing as many keeps the hand's size. |
| ScrabbleGame.DrawStep | Scrabble.java:78-94 | One more draw keeps the account of the draws. From a non-empty bag the tile joins those taken out. From an empty bag it is the sentinel. |
| ScrabbleGame.DrawnFromFull | Scrabble.java:78-94 | While the bag holds enough tiles, every draw takes a tile out of it. Drawn from a bag with no sentinel in it, no draw is a sentinel. |
| ScrabbleGame.DrawnSentinels | Scrabble.java:78-94 | From a bag with no sentinel, exactly `min(n, size)` of `n` draws are tiles of the bag. The others, made once it was empty, are sentinels. |
| ScrabbleGame.DrawnLetters | Scrabble.java:78-94 | The letters drawn and the letters left in the bag are the letters the bag started with, plus one '1' per draw that found the bag empty. |
| ScrabbleGame.Recount | Scrabble.java:172-186 | The letter account survives a placement: the letters placed leave one hand, the draws that refill it leave the bag, and the new sentinels are counted. |
| ScrabbleGame.AccountKept | Scrabble.java:172-186 | Taking letters from one hand to the board and refilling that hand from the bag keeps the bag, the hands and the played letters equal to the created letters plus the sentinels. |
| ScrabbleGame.RefillAccounts | Scrabble.java:175-185 | The end of an accepted placement keeps the letter account, and every hand keeps seven letters. |
| ScrabbleGame.DealtLetters | Scrabble.java:28-31 | Before any placement and any sentinel, the two hands and the bag hold exactly the created letters, so every letter in a hand is upper case. |
| ScrabbleGame.StepMonotone | Scrabble.java:148-189 | A pass of the loop never lowers a score and never adds a tile to the bag. |
| ScrabbleGame.RunExtend | Scrabble.java:147-189 | A run followed by one more `Step` is a run. |
| ScrabbleGame.RunMonotone | Scrabble.java:147-189 | Along a run, from the first state to any later one, no score goes down and the bag never grows. |
| ScrabbleGame.RunWithoutPlacements | Scrabble.java:148-165 | A run of commands none of which is a PLACE changes nothing: the state, board cells included, and the player to move stay those of the start. |
| ScrabbleGame.RemoveAt | Scrabble.java:82 | `remove(k)`: one element fewer, the element at `k` gone, the others kept in order. |

## Left out

- Player, LetterTile and Parser are not part of this model.
  - A hand is the multiset of the letters on its tiles.
  - `hasLetters` is modelled as multiset inclusion of the plain tokens' letters.
  - `removeLetterTile` is modelled as removing one occurrence of the letter.
  - A tile's value is taken from the letter-value table that `createLetterBag` documents.
- The random index of `getLetterTile` is a nondeterministic choice: any index is allowed.
- The "Letter bag empty" message and the other console output are left out: `println`, `printBoard`, the turn and hand announcements.
- The word bank is a constructor parameter, not read from `WordBank.txt`. The file I/O and its `RuntimeException` are left out.
- `parser.getCommand()` is replaced by the sequence of commands given to `Play`.
  - `Play` also stops when those run out.
  - The placement map that `updateBoard` writes is given with each command. As written, `play` passes the command list to `updateBoard`, which takes a map (Scrabble.java:173), so how cells are derived from tokens is not in the source.
- Play: requires a first token in every command it reads, that is, every command up to and including the first QUIT (`NoQuitBefore`); `command.get(0)` (Scrabble.java:156) throws on an empty command, and `Turn` requires the same of its one command. Play also requires readable letter tokens of every such PLACE command, even of those the hand or the word bank then refuses. `Player.hasLetters`, which `handCheck` calls, is not part of this model, and the model's `HandCheck` reads the letters of the tokens. Play also requires placement cells on the board for every such PLACE command, because which placements will be accepted is not known in advance. `Turn` and `Place` require them only of a placement they accept, which is when `updateBoard` (Scrabble.java:173) writes the cells. The exceptions the Java code throws on such input are not modelled.
- Valid: the account of letters is relative to the sentinels. It does not state the design's fixed total of pool, hands and board, which fails in the source in two ways. A draw from the empty bag creates a new tile '1'. The letters written to the grid come from the placement map, not from the hand. `played` counts the hand letters that accepted placements took out, not the letters on the grid.
- `Score` does not model 32-bit overflow of `sum`. No placement of fewer than about 200 million tokens can overflow it.
- `GetPremium` and `GetBoard` return the map and the grid. The aliasing they give callers, and writes through it, are not modelled.
- Where the code and the game's documentation disagree, the model follows the code:
  - the bag has 98 tiles, with no blanks;
  - the premium table lists 36 cells;
  - no premium square is applied in scoring;
  - an empty bag yields the sentinel tile `('1', 0)`;
  - `wordCheck` leaves out the last letter token (`LastTokenNeverSpelled`);
  - a failed removal cannot happen after a passed hand check (`TakeFromHand`).

## Findings

| source | as written | input that shows it | evidently intended | confidence | as-written member | corrected member |
|---|---|---|---|---|---|---|
| Board.java:14-20 | `premium` is declared but never assigned, so the first `premium.put` in the constructor dereferences null | `new Board()` (and with it `new Scrabble()`) | `premium` starts as an empty `HashMap` before the 36 puts | high (not executed) | ScrabbleBoard.ConstructorAsWrittenThrows | ScrabbleBoard.PutsFromEmptyMap |
