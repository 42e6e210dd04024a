/** BaseMaze: the board of cell tags with its entry and exit anchors. */
module Mazes {
  import opened Cells
  import opened Grid

  /** `upset` is called twice per round of upsetEndPoint's do-while: round `k`
      places the entry from draw 2k and the exit from draw 2k+1. */
  ghost predicate DrawsInRange(draw: nat -> AnchorDraw, rows: int, cols: int)
  {
    forall k: nat :: DrawInRange(draw(k), rows, cols)
  }

  /** Round `k` ends the do-while: it puts the two anchors on different cells. */
  ghost predicate Settles(draw: nat -> AnchorDraw, rows: int, cols: int, k: nat)
    requires ValidDims(rows, cols) && DrawsInRange(draw, rows, cols)
  {
    Place(draw(2 * k), rows, cols) != Place(draw(2 * k + 1), rows, cols)
  }

  /** No round before `k` settles. */
  ghost predicate Unsettled(draw: nat -> AnchorDraw, rows: int, cols: int, k: nat)
    requires ValidDims(rows, cols) && DrawsInRange(draw, rows, cols)
  {
    forall j: nat | j < k :: !Settles(draw, rows, cols, j)
  }

  /** `entry` and `exit` are the cells placed by the first round that settles. */
  ghost predicate FirstSettled(draw: nat -> AnchorDraw, rows: int, cols: int, entry: Pos, exit: Pos)
    requires ValidDims(rows, cols) && DrawsInRange(draw, rows, cols)
  {
    exists k: nat ::
      Settles(draw, rows, cols, k) && Unsettled(draw, rows, cols, k) &&
      entry == Place(draw(2 * k), rows, cols) && exit == Place(draw(2 * k + 1), rows, cols)
  }

  /** A round that puts both anchors on one cell is not the last one. */
  lemma NextRound(draw: nat -> AnchorDraw, rows: int, cols: int, k: nat, bound: nat)
    requires ValidDims(rows, cols) && DrawsInRange(draw, rows, cols)
    requires Settles(draw, rows, cols, bound) && Unsettled(draw, rows, cols, k)
    requires !Settles(draw, rows, cols, k)
    ensures k < bound && Unsettled(draw, rows, cols, k + 1)
  {
  }

  class Maze {
    const rows: int
    const cols: int
    const defaultType: CellType
    const board: array2<CellType>
    var entry: Pos
    var exit: Pos

    /** The board as a value. */
    ghost function Cells(): (g: Grid)
      reads board
      ensures Shaped(g, board.Length0, board.Length1)
      ensures forall i, j | 0 <= i < board.Length0 && 0 <= j < board.Length1 :: g[Pos(i, j)] == board[i, j]
    {
      var g := map i, j | 0 <= i < board.Length0 && 0 <= j < board.Length1 :: Pos(i, j) := board[i, j];
      assert forall p :: p in g <==> InBoard(board.Length0, board.Length1, p) by {
        forall p ensures p in g <==> InBoard(board.Length0, board.Length1, p) {
          if InBoard(board.Length0, board.Length1, p) {
            assert p == Pos(p.row, p.col);
          }
        }
      }
      g
    }

    /** The board has the dimensions the maze was built with. */
    predicate Sized()
    {
      ValidDims(rows, cols) && board.Length0 == rows && board.Length1 == cols
    }

    /** Odd dimensions of at least 5, two distinct anchors, and the border ring
        holding BORDER except for the ENTRY and EXPORT marks. */
    ghost predicate Valid()
      reads this, board
    {
      Sized() &&
      IsAnchor(rows, cols, entry) && IsAnchor(rows, cols, exit) && entry != exit &&
      RingIntact(Cells(), rows, cols, entry, exit)
    }

    /** The constructor once its dimensions have passed the checks (see Create). */
    constructor (rows: int, cols: int, defaultType: CellType, draw: nat -> AnchorDraw)
      requires ValidDims(rows, cols) && DrawsInRange(draw, rows, cols)
      requires exists k: nat :: Settles(draw, rows, cols, k)
      ensures Valid() && fresh(board)
      ensures this.rows == rows && this.cols == cols && this.defaultType == defaultType
      ensures FirstSettled(draw, rows, cols, entry, exit)
      ensures Cells() == InitialGrid(rows, cols, defaultType, entry, exit)
    {
      var b := FilledBoard(rows, cols, defaultType);
      this.rows, this.cols, this.defaultType, board := rows, cols, defaultType, b;
      entry, exit := Pos(1, 1), Pos(rows - 2, cols - 2);
      new;
      FilledCells(b);
      UpsetEndPoint(draw);
      UpdateEndPoint();
      InitialGridLayout(rows, cols, defaultType, entry, exit);
    }

    /** The constructor's fill loops: BORDER on the ring, the default tag inside. */
    static method FilledBoard(rows: int, cols: int, defaultType: CellType) returns (b: array2<CellType>)
      requires rows >= 0 && cols >= 0
      ensures fresh(b) && b.Length0 == rows && b.Length1 == cols
      ensures forall a, c | 0 <= a < rows && 0 <= c < cols ::
                b[a, c] == FillCell(rows, cols, defaultType, Pos(a, c))
    {
      b := new CellType[rows, cols];
      for i := 0 to rows
        invariant forall a, c | 0 <= a < i && 0 <= c < cols ::
                    b[a, c] == FillCell(rows, cols, defaultType, Pos(a, c))
      {
        for j := 0 to cols
          invariant forall a, c | 0 <= a < i && 0 <= c < cols ::
                      b[a, c] == FillCell(rows, cols, defaultType, Pos(a, c))
          invariant forall c | 0 <= c < j :: b[i, c] == FillCell(rows, cols, defaultType, Pos(i, c))
        {
          if i == 0 || i == rows - 1 || j == 0 || j == cols - 1 {
            b[i, j] := Border;
          } else {
            b[i, j] := defaultType;
          }
        }
      }
    }

    /** The board read back after the fill loops. */
    lemma FilledCells(b: array2<CellType>)
      requires b == board && b.Length0 == rows && b.Length1 == cols
      requires forall a, c | 0 <= a < rows && 0 <= c < cols ::
                 b[a, c] == FillCell(rows, cols, defaultType, Pos(a, c))
      ensures Cells() == Filled(rows, cols, defaultType)
    {
      FilledLayout(rows, cols, defaultType);
      var g, f := Cells(), Filled(rows, cols, defaultType);
      assert g.Keys == f.Keys;
      forall p | p in g ensures g[p] == f[p] {
        assert b[p.row, p.col] == FillCell(rows, cols, defaultType, Pos(p.row, p.col));
      }
    }

    /** upsetEndPoint: redraw both anchors until they differ. */
    method UpsetEndPoint(draw: nat -> AnchorDraw)
      requires ValidDims(rows, cols) && DrawsInRange(draw, rows, cols)
      requires exists k: nat :: Settles(draw, rows, cols, k)
      modifies this`entry, this`exit
      ensures FirstSettled(draw, rows, cols, entry, exit)
      ensures IsAnchor(rows, cols, entry) && IsAnchor(rows, cols, exit) && entry != exit
    {
      ghost var bound: nat :| Settles(draw, rows, cols, bound);
      var k: nat := 0;
      entry := Place(draw(0), rows, cols);
      exit := Place(draw(1), rows, cols);
      while entry == exit
        invariant k <= bound && Unsettled(draw, rows, cols, k)
        invariant entry == Place(draw(2 * k), rows, cols) && exit == Place(draw(2 * k + 1), rows, cols)
        decreases bound - k
      {
        NextRound(draw, rows, cols, k, bound);
        k := k + 1;
        entry := Place(draw(2 * k), rows, cols);
        exit := Place(draw(2 * k + 1), rows, cols);
      }
      assert Settles(draw, rows, cols, k);
    }

    /** updateEndPoint: mark ENTRY, then EXPORT, on the ring cells next to the anchors. */
    method UpdateEndPoint()
      requires board.Length0 == rows && board.Length1 == cols
      requires InMaze(rows, cols, entry) && InMaze(rows, cols, exit)
      modifies board
      ensures Cells() == DrawAnchor(DrawAnchor(old(Cells()), rows, cols, entry, Entry), rows, cols, exit, Export)
    {
      Update(entry, Entry);
      Update(exit, Export);
    }

    /** updateEndPoint's `update` lambda. */
    method Update(a: Pos, t: CellType)
      requires board.Length0 == rows && board.Length1 == cols && InMaze(rows, cols, a)
      modifies board
      ensures Cells() == DrawAnchor(old(Cells()), rows, cols, a, t)
    {
      if a.col == 1 {
        Put(a.row, 0, t);
      } else if a.col == cols - 2 {
        Put(a.row, cols - 1, t);
      } else if a.row == 1 {
        Put(0, a.col, t);
      } else if a.row == rows - 2 {
        Put(rows - 1, a.col, t);
      }
    }

    /** Writes one cell of the board. */
    method Put(row: int, col: int, t: CellType)
      requires 0 <= row < board.Length0 && 0 <= col < board.Length1
      modifies board
      ensures Cells() == old(Cells())[Pos(row, col) := t]
    {
      board[row, col] := t;
    }

    function IsInMaze(row: int, col: int): (b: bool)
      ensures b <==> InBoard(rows, cols, Pos(row, col)) && !OnRing(rows, cols, Pos(row, col))
    {
      row > 0 && row < rows - 1 && col > 0 && col < cols - 1
    }

    function IsPassage(row: int, col: int): (b: bool)
      reads board
      requires Sized()
      ensures b == PassageAt(Cells(), rows, cols, Pos(row, col))
      ensures b ==> 0 < row < rows - 1 && 0 < col < cols - 1
    {
      IsInMaze(row, col) && board[row, col] == Passage
    }

    function IsWall(row: int, col: int): (b: bool)
      reads board
      requires Sized()
      ensures b == WallAt(Cells(), rows, cols, Pos(row, col))
      ensures b ==> 0 < row < rows - 1 && 0 < col < cols - 1
    {
      IsInMaze(row, col) && board[row, col] == Wall
    }

    function IsExport(row: int, col: int): (b: bool)
      reads this
      ensures b <==> Pos(row, col) == exit
    {
      row == exit.row && col == exit.col
    }

    function IsEntry(row: int, col: int): (b: bool)
      reads this
      ensures b <==> Pos(row, col) == entry
    {
      row == entry.row && col == entry.col
    }

    method SetPassage(row: int, col: int)
      requires 0 <= row < board.Length0 && 0 <= col < board.Length1
      modifies board
      ensures Cells() == old(Cells())[Pos(row, col) := Passage]
    {
      Put(row, col, Passage);
    }

    method SetWall(row: int, col: int)
      requires 0 <= row < board.Length0 && 0 <= col < board.Length1
      modifies board
      ensures Cells() == old(Cells())[Pos(row, col) := Wall]
    {
      Put(row, col, Wall);
    }
  }

  /** The constructor with its checks: invalid dimensions and a board that does
      not fit the terminal are reported as errors (the source throws
      invalid_argument); the terminal size is a parameter. */
  method Create(rows: int, cols: int, defaultType: CellType, screenRows: int, screenCols: int,
                draw: nat -> AnchorDraw)
    returns (r: Result<Maze, MazeError>)
    requires ValidDims(rows, cols) ==> DrawsInRange(draw, rows, cols)
    requires ValidDims(rows, cols) ==> exists k: nat :: Settles(draw, rows, cols, k)
    ensures r.Failure? <==> CheckSize(rows, cols, screenRows, screenCols).Some?
    ensures r.Failure? ==> r.error == CheckSize(rows, cols, screenRows, screenCols).value
    ensures r.Success? ==>
              var m := r.value;
              m.Valid() && fresh(m.board) && m.rows == rows && m.cols == cols &&
              FirstSettled(draw, rows, cols, m.entry, m.exit) &&
              m.Cells() == InitialGrid(rows, cols, defaultType, m.entry, m.exit)
  {
    var err := CheckSize(rows, cols, screenRows, screenCols);
    if err.Some? {
      return Failure(err.value);
    }
    var m := new Maze(rows, cols, defaultType, draw);
    return Success(m);
  }
}
