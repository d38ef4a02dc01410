/** The 15x15 board: a grid of characters and the table of premium squares. */
module ScrabbleBoard {

  /** Rows and columns are numbered 0 .. 14. */
  const Size: nat := 15

  /** The character of an empty cell. */
  const Empty: char := ' '

  /** A cell address: row first, then column, as the two-element lists the board uses as keys. */
  datatype Coord = Coord(row: int, col: int)

  predicate InBounds(c: Coord)
  {
    0 <= c.row < Size && 0 <= c.col < Size
  }

  /**
   * The cells the constructor puts into the premium table, in the order of its puts: first the
   * twelve triple-letter squares, then the twenty-four double-letter squares.
   */
  const PremiumCells: seq<Coord> := [
    Coord(1, 5), Coord(5, 5), Coord(9, 5), Coord(13, 5),
    Coord(5, 1), Coord(9, 1), Coord(1, 9), Coord(5, 9),
    Coord(9, 9), Coord(13, 9), Coord(5, 13), Coord(9, 13),
    Coord(0, 3), Coord(0, 11), Coord(2, 5), Coord(2, 8),
    Coord(3, 0), Coord(3, 7), Coord(3, 14), Coord(6, 2),
    Coord(6, 6), Coord(6, 8), Coord(6, 12), Coord(7, 3),
    Coord(7, 11), Coord(8, 2), Coord(8, 6), Coord(8, 8),
    Coord(8, 12), Coord(11, 0), Coord(11, 7), Coord(11, 14),
    Coord(12, 6), Coord(12, 8), Coord(14, 3), Coord(14, 11)
  ]

  /** How many of the puts are triple-letter squares. */
  const TripleCount: nat := 12

  /** The value of the `i`-th put: 3 for a triple-letter square, 2 for a double-letter one. */
  function PremiumValue(i: nat): int
  {
    if i < TripleCount then 3 else 2
  }

  /** The premium map after the first `k` puts of the constructor, starting from an empty map. */
  function PutFirst(k: nat): map<Coord, int>
    requires k <= |PremiumCells|
  {
    if k == 0 then map[] else PutFirst(k - 1)[PremiumCells[k - 1] := PremiumValue(k - 1)]
  }

  /** The premium table a board holds: all the constructor's puts. */
  function PremiumTable(): map<Coord, int>
  {
    PutFirst(|PremiumCells|)
  }

  /** No cell occurs twice among the first `k` cells. */
  predicate DistinctUpTo(cells: seq<Coord>, k: nat)
    requires k <= |cells|
  {
    forall i, j :: 0 <= i < j < k ==> cells[i] != cells[j]
  }

  /** A cell's place in row-major order. */
  function RowMajor(c: Coord): int
  {
    c.row * Size + c.col
  }

  /** Rows and columns 1, 5, 9 and 13, where the triple-letter squares lie. */
  predicate OnTripleLattice(c: Coord)
  {
    c.row % 4 == 1 && c.col % 4 == 1
  }

  /** Every premium cell is on the board. */
  lemma PremiumCellsOnBoard()
    ensures |PremiumCells| == 36
    ensures forall i :: 0 <= i < |PremiumCells| ==> InBounds(PremiumCells[i])
  {
  }

  /** The triple-letter squares lie on the lattice of rows and columns 1, 5, 9, 13; no double one does. */
  lemma PremiumCellsLattice()
    ensures forall i :: 0 <= i < |PremiumCells| ==> (OnTripleLattice(PremiumCells[i]) <==> i < TripleCount)
  {
  }

  /** The twelve triple-letter squares are pairwise different. */
  lemma TripleCellsDistinct()
    ensures forall i, j :: 0 <= i < j < TripleCount ==> PremiumCells[i] != PremiumCells[j]
  {
  }

  /** The double-letter squares are listed in increasing row-major order. */
  lemma DoubleCellsIncreasing()
    ensures forall i :: TripleCount < i < |PremiumCells| ==> RowMajor(PremiumCells[i - 1]) < RowMajor(PremiumCells[i])
  {
  }

  /** Cells listed in increasing order from `lo` on are pairwise different. */
  lemma {:induction false} IncreasingBelow(cells: seq<Coord>, lo: nat, i: nat, j: nat)
    requires forall k :: lo < k < |cells| ==> RowMajor(cells[k - 1]) < RowMajor(cells[k])
    requires lo <= i < j < |cells|
    ensures RowMajor(cells[i]) < RowMajor(cells[j])
    decreases j - i
  {
    if i + 1 < j {
      IncreasingBelow(cells, lo, i + 1, j);
    }
  }

  /** The 36 cells of the table are pairwise different. */
  lemma PremiumCellsDistinct()
    ensures DistinctUpTo(PremiumCells, |PremiumCells|)
  {
    PremiumCellsOnBoard();
    PremiumCellsLattice();
    TripleCellsDistinct();
    DoubleCellsIncreasing();
    forall i, j | 0 <= i < j < |PremiumCells|
      ensures PremiumCells[i] != PremiumCells[j]
    {
      if TripleCount <= i {
        IncreasingBelow(PremiumCells, TripleCount, i, j);
      }
    }
  }

  /** The keys after the first `k` puts are exactly the first `k` cells. */
  lemma {:induction false} PutFirstKeys(k: nat)
    requires k <= |PremiumCells|
    ensures forall c :: c in PutFirst(k) <==> exists i :: 0 <= i < k && PremiumCells[i] == c
  {
    if k > 0 {
      PutFirstKeys(k - 1);
    }
  }

  /** When the first `k` cells are pairwise different, each of them holds its own put's value. */
  lemma {:induction false} PutFirstValues(k: nat)
    requires k <= |PremiumCells| && DistinctUpTo(PremiumCells, k)
    ensures forall i :: 0 <= i < k ==> PremiumCells[i] in PutFirst(k) && PutFirst(k)[PremiumCells[i]] == PremiumValue(i)
  {
    if k > 0 {
      PutFirstValues(k - 1);
    }
  }

  /**
   * The premium table holds exactly the 36 listed cells, which are pairwise different and all on
   * the board: the twelve triple-letter squares map to 3 and the twenty-four double-letter squares to 2.
   */
  lemma PremiumTableContents()
    ensures |PremiumCells| == 36 && DistinctUpTo(PremiumCells, |PremiumCells|)
    ensures forall c :: c in PremiumTable() <==> exists i :: 0 <= i < |PremiumCells| && PremiumCells[i] == c
    ensures forall i :: 0 <= i < |PremiumCells| ==>
      PremiumTable()[PremiumCells[i]] == if i < TripleCount then 3 else 2
    ensures forall c :: c in PremiumTable() ==> InBounds(c) && PremiumTable()[c] in {2, 3}
  {
    PremiumCellsOnBoard();
    PremiumCellsDistinct();
    PutFirstKeys(|PremiumCells|);
    assert forall i :: 0 <= i < |PremiumCells| ==> PremiumTable()[PremiumCells[i]] == PremiumValue(i) by {
      PutFirstValues(|PremiumCells|);
    }
    forall c | c in PremiumTable()
      ensures InBounds(c) && PremiumTable()[c] in {2, 3}
    {
      var i :| 0 <= i < |PremiumCells| && PremiumCells[i] == c;
    }
  }

  /** The `premium` field: a reference that is either null or names a map. */
  datatype PremiumField = Null | Assigned(table: map<Coord, int>)

  /** How a run of puts ends: with the field as the puts left it, or with a NullPointerException. */
  datatype PutsOutcome = Thrown | Done(field: PremiumField)

  /** The first `k` puts of the constructor made on the field as it stands; a put on null throws. */
  function PutFirstOnField(field: PremiumField, k: nat): (r: PutsOutcome)
    requires k <= |PremiumCells|
    ensures r.Thrown? <==> field.Null? && k > 0
  {
    if k == 0 then Done(field)
    else match PutFirstOnField(field, k - 1)
      case Thrown => Thrown
      case Done(f) =>
        match f
        case Null => Thrown
        case Assigned(m) => Done(Assigned(m[PremiumCells[k - 1] := PremiumValue(k - 1)]))
  }

  /**
   * As written, nothing assigns `premium` before the constructor's first put, so the field is
   * still null there and `new Board()` ends in a NullPointerException.
   */
  lemma ConstructorAsWrittenThrows()
    ensures PutFirstOnField(Null, |PremiumCells|) == Thrown
    ensures PutFirstOnField(Null, 1) == Thrown
  {
  }

  /** Started from an empty map instead, the same puts build the premium table and never throw. */
  lemma {:induction false} PutsFromEmptyMap(k: nat)
    requires k <= |PremiumCells|
    ensures PutFirstOnField(Assigned(map[]), k) == Done(Assigned(PutFirst(k)))
  {
    if k > 0 {
      PutsFromEmptyMap(k - 1);
    }
  }

  /** The board: its grid of cells and its premium table. */
  class Board {
    const grid: array2<char>
    var premium: map<Coord, int>
    /** The grid read as a map: the character on each cell of the board, by cell. */
    ghost var cells: map<Coord, char>

    /**
     * A board holds a 15x15 grid and the full premium table, and `cells` names exactly the cells
     * of the board, each with the character the grid holds there.
     */
    ghost predicate Valid()
      reads this, grid
    {
      grid.Length0 == Size && grid.Length1 == Size && premium == PremiumTable() && cells == Cells()
    }

    /** The cells of the grid, each with the character it holds. */
    ghost function Cells(): map<Coord, char>
      reads grid
    {
      map r, c | 0 <= r < grid.Length0 && 0 <= c < grid.Length1 :: Coord(r, c) := grid[r, c]
    }

    /**
     * A new board: every cell empty (the `board()` initialisation), then the premium table
     * filled by the constructor's puts, one after the other, starting from an empty map.
     */
    constructor ()
      ensures Valid() && fresh(grid)
      ensures forall r, c :: 0 <= r < Size && 0 <= c < Size ==> grid[r, c] == Empty
    {
      var g := EmptyGrid();
      grid := g;
      premium := map[];
      cells := map[];
      new;
      for k := 0 to |PremiumCells|
        invariant grid == g
        invariant forall r, c :: 0 <= r < Size && 0 <= c < Size ==> g[r, c] == Empty
        invariant premium == PutFirst(k)
      {
        assert PutFirst(k + 1) == PutFirst(k)[PremiumCells[k] := PremiumValue(k)];
        premium := premium[PremiumCells[k] := PremiumValue(k)];
      }
      cells := Cells();
    }

    /** `board()`: a fresh 15x15 grid with every cell set to the empty character. */
    static method EmptyGrid() returns (g: array2<char>)
      ensures fresh(g)
      ensures g.Length0 == Size && g.Length1 == Size
      ensures forall r, c :: 0 <= r < Size && 0 <= c < Size ==> g[r, c] == Empty
    {
      g := new char[Size, Size];
      for r := 0 to Size
        invariant forall r', c :: 0 <= r' < r && 0 <= c < Size ==> g[r', c] == Empty
      {
        for c := 0 to Size
          invariant forall r', c' :: 0 <= r' < r && 0 <= c' < Size ==> g[r', c'] == Empty
          invariant forall c' :: 0 <= c' < c ==> g[r, c'] == Empty
        {
          g[r, c] := Empty;
        }
      }
    }

    /** The premium table: on a valid board, 36 squares on the board, each worth 2 or 3. */
    function GetPremium(): (m: map<Coord, int>)
      reads this, grid
      requires Valid()
      ensures m == PremiumTable()
      ensures forall c :: c in m ==> InBounds(c) && m[c] in {2, 3}
    {
      PremiumTableContents();
      premium
    }

    /** The grid itself, which stays 15x15. */
    function GetBoard(): (g: array2<char>)
      reads this, grid
      requires Valid()
      ensures g == grid && g.Length0 == Size && g.Length1 == Size
    {
      grid
    }

    /**
     * `updateBoard`: each cell named in the placement takes the placed character, overwriting
     * whatever was there; every other cell and the premium table stay as they were; the answer
     * is always true. Every key must be on the board, since the grid is indexed directly.
     */
    method UpdateBoard(placement: map<Coord, char>) returns (ok: bool)
      requires Valid()
      requires forall c :: c in placement ==> InBounds(c)
      modifies this`cells, grid
      ensures Valid() && ok
      ensures forall r, c :: 0 <= r < Size && 0 <= c < Size ==>
        grid[r, c] == if Coord(r, c) in placement then placement[Coord(r, c)] else old(grid[r, c])
      ensures cells == old(cells) + placement
    {
      var pending := placement.Keys;
      ghost var done: set<Coord> := {};
      while pending != {}
        invariant pending == placement.Keys - done && done <= placement.Keys && cells == old(cells)
        invariant forall r, c :: 0 <= r < Size && 0 <= c < Size ==>
          grid[r, c] == if Coord(r, c) in done then placement[Coord(r, c)] else old(grid[r, c])
        decreases pending
      {
        var yx :| yx in pending;
        grid[yx.row, yx.col] := placement[yx];
        pending := pending - {yx};
        done := done + {yx};
      }
      ok := true;
      CellsOverwritten(placement);
      cells := cells + placement;
    }

    /** Writing a placement to the grid writes it over the grid's cells. */
    twostate lemma CellsOverwritten(placement: map<Coord, char>)
      requires grid.Length0 == Size && grid.Length1 == Size
      requires forall c :: c in placement ==> InBounds(c)
      requires forall r, c :: 0 <= r < Size && 0 <= c < Size ==>
        grid[r, c] == if Coord(r, c) in placement then placement[Coord(r, c)] else old(grid[r, c])
      ensures Cells() == old(Cells()) + placement
    {
      forall k | k in placement
        ensures k in old(Cells())
      {
        assert k == Coord(k.row, k.col);
      }
      assert Cells().Keys == (old(Cells()) + placement).Keys;
    }
  }
}
