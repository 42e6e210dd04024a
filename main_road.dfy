/** MainRoadMaze::generate: a depth-first carver. From the entry it repeatedly
    picks, at random, a direction whose lattice node two cells away is still a
    WALL, opens the two cells and carries on from there, recursing at every
    step. The random engine is an oracle `rand`: the k-th number drawn is
    `rand(k)`, and `tick` counts the numbers drawn so far. */
module MainRoad {
  import opened Cells
  import opened Grid
  import opened Mazes

  /** getDirection: the directions whose cell two steps away is an interior
      WALL, in the order UP, DOWN, LEFT, RIGHT; one of them is chosen with the
      next random number, and no number is drawn when there is none. */
  method GetDirection(m: Maze, p: Pos, rand: nat -> nat, tick: nat) returns (d: Option<Direction>, tick': nat)
    requires m.Sized()
    ensures d.None? <==> forall e :: !WallAt(m.Cells(), m.rows, m.cols, Step(p, e, 2))
    ensures d.Some? ==> WallAt(m.Cells(), m.rows, m.cols, Step(p, d.value, 2))
    ensures var ds := Probe(m.Cells(), m.rows, m.cols, p, 2);
            if ds == [] then tick' == tick
            else tick' == tick + 1 && d == Some(ds[rand(tick) % |ds|])
  {
    var up := m.IsWall(p.row - 2, p.col);
    var down := m.IsWall(p.row + 2, p.col);
    var left := m.IsWall(p.row, p.col - 2);
    var right := m.IsWall(p.row, p.col + 2);
    ProbeOf(m.Cells(), m.rows, m.cols, p, 2, up, down, left, right);
    var ds := (if up then [Up] else []) + (if down then [Down] else []) +
              (if left then [Left] else []) + (if right then [Right] else []);
    if ds == [] {
      return None, tick;
    }
    var choice := rand(tick) % |ds|;
    assert ds[choice] in ds;
    return Some(ds[choice]), tick + 1;
  }

  /** getThrougn(row, col): while the current node has a WALL node two cells
      away, open the way to one of them, move there and recurse from there. The
      loop keeps going from the node it moved to, not from the node the call
      started on. Every change turns an interior WALL with an odd coordinate
      into a PASSAGE; each round removes at least one WALL. */
  method GetThrough(m: Maze, p: Pos, rand: nat -> nat, tick: nat) returns (tick': nat)
    requires m.Sized() && Generating(m.Cells(), m.rows, m.cols)
    requires InMaze(m.rows, m.cols, p) && OnLattice(p)
    modifies m.board
    ensures Generating(m.Cells(), m.rows, m.cols)
    ensures Carved(old(m.Cells()), m.Cells(), m.rows, m.cols)
    ensures tick <= tick'
    decreases |Walls(m.Cells())|
  {
    ghost var g0 := m.Cells();
    var row, col := p.row, p.col;
    var direction;
    direction, tick' := GetDirection(m, Pos(row, col), rand, tick);
    while direction.Some?
      invariant InMaze(m.rows, m.cols, Pos(row, col)) && OnLattice(Pos(row, col))
      invariant Generating(m.Cells(), m.rows, m.cols)
      invariant Carved(g0, m.Cells(), m.rows, m.cols)
      invariant tick <= tick'
      invariant direction.Some? ==> WallAt(m.Cells(), m.rows, m.cols, Step(Pos(row, col), direction.value, 2))
      decreases |Walls(m.Cells())|
    {
      ghost var g := m.Cells();
      ghost var here := Pos(row, col);
      CarvePair(g, m.rows, m.cols, here, direction.value);
      row, col := Advance(m, row, col, direction.value);
      CarvedTransitive(g0, g, m.Cells(), m.rows, m.cols);
      CarvedWallCount(g0, g, m.rows, m.cols);
      ghost var g1 := m.Cells();
      tick' := GetThrough(m, Pos(row, col), rand, tick');
      CarvedTransitive(g0, g1, m.Cells(), m.rows, m.cols);
      CarvedWallCount(g1, m.Cells(), m.rows, m.cols);
      direction, tick' := GetDirection(m, Pos(row, col), rand, tick');
    }
  }

  /** One arm of getThrougn's switch: open the cell next to (row, col) and the
      one beyond it in direction `d`, and move to the latter. */
  method Advance(m: Maze, row: int, col: int, d: Direction) returns (row': int, col': int)
    requires m.Sized() && InMaze(m.rows, m.cols, Step(Pos(row, col), d, 1))
    requires InMaze(m.rows, m.cols, Step(Pos(row, col), d, 2))
    modifies m.board
    ensures Pos(row', col') == Step(Pos(row, col), d, 2)
    ensures m.Cells() == old(m.Cells())[Step(Pos(row, col), d, 1) := Passage][Pos(row', col') := Passage]
  {
    row', col' := row, col;
    match d
    case Up =>
      m.SetPassage(row' - 1, col');
      m.SetPassage(row' - 2, col');
      row' := row' - 2;
    case Down =>
      m.SetPassage(row' + 1, col');
      m.SetPassage(row' + 2, col');
      row' := row' + 2;
    case Left =>
      m.SetPassage(row', col' - 1);
      m.SetPassage(row', col' - 2);
      col' := col' - 2;
    case Right =>
      m.SetPassage(row', col' + 1);
      m.SetPassage(row', col' + 2);
      col' := col' + 2;
  }

  /** generate: open the entry cell and carve from it. The board keeps its ring
      and its anchors; only interior WALL cells with an odd coordinate change,
      all to PASSAGE; the entry ends as a PASSAGE. Returns the number of random
      numbers drawn. */
  method Generate(m: Maze, rand: nat -> nat) returns (ticks: nat)
    requires m.Valid() && Generating(m.Cells(), m.rows, m.cols)
    modifies m.board
    ensures m.Valid() && Generating(m.Cells(), m.rows, m.cols)
    ensures Carved(old(m.Cells()), m.Cells(), m.rows, m.cols)
    ensures PassageAt(m.Cells(), m.rows, m.cols, m.entry)
  {
    ghost var g0 := m.Cells();
    var curRow, curCol := m.entry.row, m.entry.col;
    m.SetPassage(curRow, curCol);
    CarveCell(g0, m.rows, m.cols, m.entry);
    ghost var g1 := m.Cells();
    ticks := GetThrough(m, Pos(curRow, curCol), rand, 0);
    CarvedTransitive(g0, g1, m.Cells(), m.rows, m.cols);
    CarvedKeepsRing(g0, m.Cells(), m.rows, m.cols, m.entry, m.exit);
  }

  /** MainRoadMaze(rows, cols): a WALL-filled maze, then generate. */
  method NewMainRoadMaze(rows: int, cols: int, screenRows: int, screenCols: int,
                         draw: nat -> AnchorDraw, rand: nat -> nat)
    returns (r: Result<Maze, MazeError>)
    requires ValidDims(rows, cols) ==> DrawsInRange(draw, rows, cols)
    requires ValidDims(rows, cols) ==> exists k: nat :: Settles(draw, rows, cols, k)
    ensures r.Failure? <==> CheckSize(rows, cols, screenRows, screenCols).Some?
    ensures r.Success? ==>
              var m := r.value;
              m.Valid() && fresh(m.board) && m.rows == rows && m.cols == cols &&
              Generating(m.Cells(), rows, cols) &&
              Carved(InitialGrid(rows, cols, Wall, m.entry, m.exit), m.Cells(), rows, cols) &&
              PassageAt(m.Cells(), rows, cols, m.entry)
  {
    r := Create(rows, cols, Wall, screenRows, screenCols, draw);
    if r.Success? {
      Build(r.value, rand);
    }
  }

  /** MainRoadMaze's constructor body on the WALL-filled board: generate. */
  method Build(m: Maze, rand: nat -> nat)
    requires m.Valid() && m.Cells() == InitialGrid(m.rows, m.cols, Wall, m.entry, m.exit)
    modifies m.board
    ensures m.Valid() && Generating(m.Cells(), m.rows, m.cols)
    ensures Carved(old(m.Cells()), m.Cells(), m.rows, m.cols) && PassageAt(m.Cells(), m.rows, m.cols, m.entry)
  {
    InitialGenerating(m.rows, m.cols, Wall, m.entry, m.exit);
    var _ := Generate(m, rand);
  }
}
