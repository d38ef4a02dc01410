/** Letter tiles, their point values and the distribution the letter bag is built from. */
module Tiles {

  /** A tile: the letter printed on it and the points it scores. */
  datatype LetterTile = LetterTile(letter: char, num: nat)

  /** The tile handed out when the letter bag is empty: letter '1', worth nothing. */
  const Sentinel: LetterTile := LetterTile('1', 0)

  /** The 26 letters of the distribution table, in table order. */
  const Letters: seq<char> := "ABCDEFGHIJKLMNOPQRSTUVWXYZ"

  /** How many tiles of each letter of `Letters` the bag starts with. */
  const NumTiles: seq<nat> := [9, 2, 2, 4, 12, 2, 3, 2, 9, 1, 1, 4, 2, 6, 8, 2, 1, 6, 4, 6, 4, 2, 2, 1, 2, 1]

  /**
   * Points of a letter, as the table of letter values lists them; any other character is worth 0.
   * Every upper-case letter scores between 1 and 10.
   */
  function LetterValue(c: char): (v: nat)
    ensures v <= 10
    ensures v > 0 <==> 'A' <= c <= 'Z'
  {
    match c
    case 'E' | 'A' | 'I' | 'O' | 'N' | 'R' | 'T' | 'L' | 'S' | 'U' => 1
    case 'D' | 'G' => 2
    case 'B' | 'C' | 'M' | 'P' => 3
    case 'F' | 'H' | 'V' | 'W' | 'Y' => 4
    case 'K' => 5
    case 'J' | 'X' => 8
    case 'Q' | 'Z' => 10
    case _ => 0
  }

  /** The tile made for a letter: it carries that letter's value. */
  function TileOf(c: char): LetterTile
  {
    LetterTile(c, LetterValue(c))
  }

  /** `n` copies of the tile `t`. */
  function Copies(t: LetterTile, n: nat): seq<LetterTile>
  {
    seq(n, _ => t)
  }

  lemma CopiesSnoc(t: LetterTile, n: nat)
    ensures Copies(t, n + 1) == Copies(t, n) + [t]
  {
    assert Copies(t, n + 1) == Copies(t, n) + [t];
  }

  /** The tiles added for the first `k` letters of the table, in the order they are added. */
  function BagPrefix(k: nat): seq<LetterTile>
    requires k <= |Letters|
  {
    if k == 0 then [] else BagPrefix(k - 1) + Copies(TileOf(Letters[k - 1]), NumTiles[k - 1])
  }

  lemma BagPrefixStep(k: nat)
    requires k < |Letters|
    ensures BagPrefix(k + 1) == BagPrefix(k) + Copies(TileOf(Letters[k]), NumTiles[k])
  {
  }

  /** The full letter bag as it is first created. */
  function Distribution(): seq<LetterTile>
  {
    BagPrefix(|Letters|)
  }

  /** The number of tiles of the first `k` letters of the table. */
  function CountTo(k: nat): nat
    requires k <= |NumTiles|
  {
    if k == 0 then 0 else CountTo(k - 1) + NumTiles[k - 1]
  }

  /** The letters printed on a sequence of tiles, one per tile and in order. */
  function LetterSeq(s: seq<LetterTile>): seq<char>
  {
    seq(|s|, i requires 0 <= i < |s| => s[i].letter)
  }

  /** The letters printed on a sequence of tiles, as a multiset. */
  function LettersOf(s: seq<LetterTile>): multiset<char>
  {
    multiset(LetterSeq(s))
  }

  /** `n` letters '1', the letter of the sentinel tile. */
  function SentinelLetters(n: nat): multiset<char>
  {
    multiset{}[Sentinel.letter := n]
  }

  /** One letter per tile. */
  lemma LettersOfSize(s: seq<LetterTile>)
    ensures |LettersOf(s)| == |s|
  {
  }

  /** The letters of two runs of tiles are the letters of each. */
  lemma LettersOfAppend(s: seq<LetterTile>, t: seq<LetterTile>)
    ensures LettersOf(s + t) == LettersOf(s) + LettersOf(t)
  {
    assert LetterSeq(s + t) == LetterSeq(s) + LetterSeq(t);
  }

  /** The letters of a single tile. */
  lemma LettersOfOne(x: LetterTile)
    ensures LettersOf([x]) == multiset{x.letter}
  {
    assert LetterSeq([x]) == [x.letter];
  }

  /** Taking the element at `j` out of a sequence takes exactly that element away. */
  lemma RemoveOneCount(b: seq<LetterTile>, j: nat)
    requires j < |b|
    ensures multiset(b[..j] + b[j + 1..]) == multiset(b) - multiset{b[j]}
  {
    assert b == b[..j] + [b[j]] + b[j + 1..];
  }

  /** Taking the tile at `j` out of a sequence takes exactly its letter away. */
  lemma RemoveOne(b: seq<LetterTile>, j: nat)
    requires j < |b|
    ensures LettersOf(b) == LettersOf(b[..j] + b[j + 1..]) + multiset{b[j].letter}
  {
    var l := LetterSeq(b);
    assert LetterSeq(b[..j] + b[j + 1..]) == l[..j] + l[j + 1..];
    assert l == l[..j] + [l[j]] + l[j + 1..];
  }

  /** The letters of a sequence of tiles depend only on which tiles it holds, not on their order. */
  lemma {:induction false} LettersOfPermutation(a: seq<LetterTile>, b: seq<LetterTile>)
    requires multiset(a) == multiset(b)
    ensures LettersOf(a) == LettersOf(b)
    decreases |a|
  {
    if a == [] {
      assert |b| == |multiset(b)| == 0;
      assert LetterSeq(a) == LetterSeq(b) == [];
    } else {
      var n := |a| - 1;
      var x, a1 := a[n], a[..n];
      assert a == a1 + [x];
      LettersOfAppend(a1, [x]);
      LettersOfOne(x);
      assert x in multiset(b);
      var j :| 0 <= j < |b| && b[j] == x;
      var b1 := b[..j] + b[j + 1..];
      RemoveOneCount(b, j);
      RemoveOne(b, j);
      assert multiset(a1) == multiset(b1) by {
        assert multiset(a) == multiset(a1) + multiset{x};
      }
      LettersOfPermutation(a1, b1);
    }
  }

  /** Every letter of a sequence of tiles is printed on one of its tiles. */
  lemma LettersOfMember(s: seq<LetterTile>, c: char)
    requires c in LettersOf(s)
    ensures exists t :: t in s && t.letter == c
  {
    assert c in LetterSeq(s);
    var i :| 0 <= i < |s| && LetterSeq(s)[i] == c;
    assert s[i] in s;
  }

  /** Sentinel tiles only: that many letters '1'. */
  lemma {:induction false} LettersOfSentinels(s: seq<LetterTile>)
    requires forall j :: 0 <= j < |s| ==> s[j] == Sentinel
    ensures LettersOf(s) == SentinelLetters(|s|)
  {
    if s != [] {
      var n := |s| - 1;
      assert s == s[..n] + [s[n]];
      LettersOfSentinels(s[..n]);
      LettersOfAppend(s[..n], [s[n]]);
      LettersOfOne(s[n]);
    }
  }

  /** `n` copies of a tile hold exactly `n` of that tile and nothing else. */
  lemma {:induction false} CopiesContents(t: LetterTile, n: nat)
    ensures multiset(Copies(t, n)) == multiset{}[t := n]
  {
    if n > 0 {
      CopiesContents(t, n - 1);
      assert Copies(t, n) == Copies(t, n - 1) + [t];
    }
  }

  /** No letter appears twice in the table. */
  lemma LettersDistinct()
    ensures forall i, j :: 0 <= i < j < |Letters| ==> Letters[i] != Letters[j]
  {
  }

  /** The tiles of the first `k` letters number `CountTo(k)`. */
  lemma {:induction false} BagPrefixSize(k: nat)
    requires k <= |Letters|
    ensures |BagPrefix(k)| == CountTo(k)
  {
    if k > 0 {
      BagPrefixSize(k - 1);
    }
  }

  /** Appending `n` copies of `t` adds `n` to the count of `t` and leaves every other count alone. */
  lemma CountAfterCopies(prefix: seq<LetterTile>, t: LetterTile, n: nat, u: LetterTile)
    ensures multiset(prefix + Copies(t, n))[u] == multiset(prefix)[u] + if u == t then n else 0
  {
    CopiesContents(t, n);
  }

  /** Two different entries of the table make two different tiles. */
  lemma TilesDistinct(i: nat, j: nat)
    requires i < |Letters| && j < |Letters| && i != j
    ensures TileOf(Letters[i]) != TileOf(Letters[j])
  {
    LettersDistinct();
    if j < i {
      assert Letters[j] != Letters[i];
    }
  }

  /**
   * After the loop has handled the first `k` letters, the bag holds exactly `NumTiles[i]` tiles of
   * letter `i` when `i < k`, and none of a letter not yet handled.
   */
  lemma {:induction false} BagPrefixCount(k: nat, i: nat)
    requires k <= |Letters| && i < |Letters|
    ensures multiset(BagPrefix(k))[TileOf(Letters[i])] == if i < k then NumTiles[i] else 0
  {
    if k > 0 {
      BagPrefixCount(k - 1, i);
      CountAfterCopies(BagPrefix(k - 1), TileOf(Letters[k - 1]), NumTiles[k - 1], TileOf(Letters[i]));
      if i != k - 1 {
        TilesDistinct(i, k - 1);
      }
    }
  }

  /** Every tile the loop has added so far is the tile of one of the letters handled. */
  lemma {:induction false} BagPrefixOnlyTable(k: nat)
    requires k <= |Letters|
    ensures forall t :: t in multiset(BagPrefix(k)) ==> exists i :: 0 <= i < k && t == TileOf(Letters[i])
  {
    if k > 0 {
      BagPrefixOnlyTable(k - 1);
      var t := TileOf(Letters[k - 1]);
      CopiesContents(t, NumTiles[k - 1]);
      assert multiset(BagPrefix(k)) == multiset(BagPrefix(k - 1)) + multiset{}[t := NumTiles[k - 1]];
      forall u | u in multiset(BagPrefix(k))
        ensures exists i :: 0 <= i < k && u == TileOf(Letters[i])
      {
        if u != t {
          assert u in multiset(BagPrefix(k - 1));
        }
      }
    }
  }

  /** The first thirteen letters of the table, A to M, have 53 tiles between them. */
  lemma CountFirstHalf()
    ensures CountTo(13) == 53
  {
    assert CountTo(3) == 13;
    assert CountTo(6) == 31;
    assert CountTo(9) == 45;
    assert CountTo(12) == 51;
  }

  /** The table lists 98 tiles. */
  lemma CountTotal()
    ensures CountTo(|Letters|) == 98
  {
    CountFirstHalf();
    assert CountTo(16) == 69;
    assert CountTo(19) == 80;
    assert CountTo(22) == 92;
    assert CountTo(25) == 97;
  }

  /** Every letter of the table is an upper-case letter. */
  lemma LettersUpperCase()
    ensures forall i :: 0 <= i < |Letters| ==> 'A' <= Letters[i] <= 'Z'
  {
  }

  /** The bag is created with 98 tiles; the two blanks are not part of it. */
  lemma DistributionSize()
    ensures |Distribution()| == 98
  {
    BagPrefixSize(|Letters|);
    CountTotal();
  }

  /**
   * The bag is created with exactly the listed number of tiles of each letter of the table (E 12,
   * Q 1, Z 1, ...), each valued by the table, and with no other tile: in particular no sentinel.
   */
  lemma DistributionCounts()
    ensures forall i :: 0 <= i < |Letters| ==> multiset(Distribution())[TileOf(Letters[i])] == NumTiles[i]
    ensures forall t :: t in Distribution() ==> 'A' <= t.letter <= 'Z' && t == TileOf(t.letter)
    ensures Sentinel !in Distribution()
  {
    forall i | 0 <= i < |Letters|
      ensures multiset(Distribution())[TileOf(Letters[i])] == NumTiles[i]
    {
      BagPrefixCount(|Letters|, i);
    }
    BagPrefixOnlyTable(|Letters|);
    LettersUpperCase();
    forall t | t in Distribution()
      ensures 'A' <= t.letter <= 'Z' && t == TileOf(t.letter)
    {
      assert t in multiset(Distribution());
    }
  }

  /** Every letter on a tile of the created bag is upper case, so none is the sentinel's '1'. */
  lemma DistributionLetters()
    ensures forall c :: c in LettersOf(Distribution()) ==> 'A' <= c <= 'Z'
  {
    DistributionCounts();
    forall c | c in LettersOf(Distribution())
      ensures 'A' <= c <= 'Z'
    {
      LettersOfMember(Distribution(), c);
    }
  }

  /** Three entries of the table, as they end up in the bag: E 12, Q 1, Z 1. */
  lemma DistributionExamples()
    ensures multiset(Distribution())[TileOf('E')] == 12
    ensures multiset(Distribution())[TileOf('Q')] == 1 && multiset(Distribution())[TileOf('Z')] == 1
  {
    DistributionCounts();
    assert Letters[4] == 'E' && Letters[16] == 'Q' && Letters[25] == 'Z';
  }
}
