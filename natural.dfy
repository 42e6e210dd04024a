/** NatualMaze::generate: a randomised frontier carver. A list of frontier
    entries (cells next to a carved node, each with the direction leading away
    from it) grows with addExps and shrinks by one entry per round; a round opens
    its entry and the node beyond it when that node is still a WALL. The random
    engine is an oracle `rand`: round k draws `rand(k)`. */
module Natural {
  import opened Cells
  import opened Grid
  import opened Mazes

  /** NatualMaze::Point: a frontier cell and the direction that leads on from it. */
  datatype Point = Point(row: int, col: int, direction: Direction)

  function At(x: Point): Pos
  {
    Pos(x.row, x.col)
  }

  /** The node a frontier entry would connect: one more step in its direction. */
  function Beyond(x: Point): Pos
  {
    Step(At(x), x.direction, 1)
  }

  /** The node whose addExps pushed the entry: one step back. */
  function Origin(x: Point): Pos
  {
    Step(At(x), x.direction, -1)
  }

  /** The node, the entry and the node beyond lie on one line. */
  lemma PointSteps(x: Point)
    ensures Step(Origin(x), x.direction, 1) == At(x)
    ensures Step(Origin(x), x.direction, 2) == Beyond(x)
  {
  }

  /** The entries addExps pushes for `p`, in the order UP, DOWN, LEFT, RIGHT:
      one for each neighbour of `p` that is an interior WALL. */
  function Exps(g: Grid, rows: int, cols: int, p: Pos): (xs: seq<Point>)
    ensures forall x :: x in xs <==> At(x) == Step(p, x.direction, 1) && WallAt(g, rows, cols, At(x))
    ensures forall x | x in xs :: Origin(x) == p
  {
    (if WallAt(g, rows, cols, Pos(p.row - 1, p.col)) then [Point(p.row - 1, p.col, Up)] else []) +
    (if WallAt(g, rows, cols, Pos(p.row + 1, p.col)) then [Point(p.row + 1, p.col, Down)] else []) +
    (if WallAt(g, rows, cols, Pos(p.row, p.col - 1)) then [Point(p.row, p.col - 1, Left)] else []) +
    (if WallAt(g, rows, cols, Pos(p.row, p.col + 1)) then [Point(p.row, p.col + 1, Right)] else [])
  }

  /** Every frontier entry was pushed by an interior lattice node. */
  ghost predicate Frontier(rows: int, cols: int, xs: seq<Point>)
  {
    forall i | 0 <= i < |xs| :: InMaze(rows, cols, Origin(xs[i])) && OnLattice(Origin(xs[i]))
  }

  /** The entries pushed for an interior lattice node keep the frontier well formed. */
  lemma FrontierAppend(g: Grid, rows: int, cols: int, xs: seq<Point>, p: Pos)
    requires Frontier(rows, cols, xs) && InMaze(rows, cols, p) && OnLattice(p)
    ensures Frontier(rows, cols, xs + Exps(g, rows, cols, p))
  {
    var ys := xs + Exps(g, rows, cols, p);
    forall i | |xs| <= i < |ys| ensures Origin(ys[i]) == p {
      assert ys[i] in Exps(g, rows, cols, p);
    }
  }

  /** Erasing the entry at `c` after appending `a` is appending `a` after erasing. */
  lemma EraseAfterAppend(xs: seq<Point>, a: seq<Point>, c: int)
    requires 0 <= c < |xs|
    ensures (xs + a)[..c] + (xs + a)[c + 1..] == xs[..c] + xs[c + 1..] + a
  {
    assert (xs + a)[..c] == xs[..c];
    assert (xs + a)[c + 1..] == xs[c + 1..] + a;
  }

  /** Erasing an entry keeps the frontier well formed. */
  lemma FrontierErase(rows: int, cols: int, xs: seq<Point>, c: int)
    requires Frontier(rows, cols, xs) && 0 <= c < |xs|
    ensures Frontier(rows, cols, xs[..c] + xs[c + 1..])
  {
    var ys := xs[..c] + xs[c + 1..];
    forall i | 0 <= i < |ys| ensures InMaze(rows, cols, Origin(ys[i])) && OnLattice(Origin(ys[i])) {
      if i < c {
        assert ys[i] == xs[i];
      } else {
        assert ys[i] == xs[i + 1];
      }
    }
  }

  /** addExps(row, col): push an entry for each neighbour of `p` that is an
      interior WALL (isWall), in the order UP, DOWN, LEFT, RIGHT. */
  method AddExps(m: Maze, p: Pos, expansions: seq<Point>) returns (expansions': seq<Point>)
    requires m.Sized()
    ensures expansions' == expansions + Exps(m.Cells(), m.rows, m.cols, p)
  {
    var up := m.IsWall(p.row - 1, p.col);
    var down := m.IsWall(p.row + 1, p.col);
    var left := m.IsWall(p.row, p.col - 1);
    var right := m.IsWall(p.row, p.col + 1);
    expansions' := expansions +
      ((if up then [Point(p.row - 1, p.col, Up)] else []) +
       (if down then [Point(p.row + 1, p.col, Down)] else []) +
       (if left then [Point(p.row, p.col - 1, Left)] else []) +
       (if right then [Point(p.row, p.col + 1, Right)] else []));
  }

  /** One round of the while loop: draw an entry; when the node beyond it is an
      interior WALL, open the entry and that node and push the new node's
      entries; in every case erase the drawn entry. A round either removes a
      WALL or leaves the board as it was and the list one entry shorter. */
  method Expand(m: Maze, expansions: seq<Point>, rand: nat -> nat, tick: nat) returns (expansions': seq<Point>)
    requires m.Sized() && Generating(m.Cells(), m.rows, m.cols)
    requires |expansions| > 0 && Frontier(m.rows, m.cols, expansions)
    modifies m.board
    ensures Generating(m.Cells(), m.rows, m.cols) && Frontier(m.rows, m.cols, expansions')
    ensures Carved(old(m.Cells()), m.Cells(), m.rows, m.cols)
    ensures var c := rand(tick) % |expansions|;
            var x := expansions[c];
            if WallAt(old(m.Cells()), m.rows, m.cols, Beyond(x)) then
              m.Cells() == old(m.Cells())[At(x) := Passage][Beyond(x) := Passage] &&
              expansions' == expansions[..c] + expansions[c + 1..] + Exps(m.Cells(), m.rows, m.cols, Beyond(x)) &&
              |Walls(m.Cells())| < |Walls(old(m.Cells()))|
            else
              m.Cells() == old(m.Cells()) && expansions' == expansions[..c] + expansions[c + 1..]
  {
    var choiceExp := rand(tick) % |expansions|;
    var selected := expansions[choiceExp];
    var cur := Beyond(selected);
    expansions' := expansions;
    FrontierErase(m.rows, m.cols, expansions, choiceExp);
    if m.IsWall(cur.row, cur.col) {
      assert InMaze(m.rows, m.cols, Origin(selected)) && OnLattice(Origin(selected));
      ghost var a;
      expansions', a := Connect(m, selected, expansions');
      EraseAfterAppend(expansions, a, choiceExp);
      FrontierAppend(m.Cells(), m.rows, m.cols, expansions[..choiceExp] + expansions[choiceExp + 1..], cur);
    }
    expansions' := expansions'[..choiceExp] + expansions'[choiceExp + 1..];
  }

  /** The carving branch of a round: the node beyond `x` is an interior WALL;
      open the entry's cell and that node, then push the node's entries. */
  method Connect(m: Maze, x: Point, expansions: seq<Point>) returns (expansions': seq<Point>, ghost pushed: seq<Point>)
    requires m.Sized() && Generating(m.Cells(), m.rows, m.cols)
    requires InMaze(m.rows, m.cols, Origin(x)) && OnLattice(Origin(x))
    requires WallAt(m.Cells(), m.rows, m.cols, Beyond(x))
    modifies m.board
    ensures m.Cells() == old(m.Cells())[At(x) := Passage][Beyond(x) := Passage]
    ensures pushed == Exps(m.Cells(), m.rows, m.cols, Beyond(x)) && expansions' == expansions + pushed
    ensures InMaze(m.rows, m.cols, Beyond(x)) && OnLattice(Beyond(x))
    ensures Generating(m.Cells(), m.rows, m.cols) && Carved(old(m.Cells()), m.Cells(), m.rows, m.cols)
    ensures |Walls(m.Cells())| < |Walls(old(m.Cells()))|
  {
    PointSteps(x);
    CarvePair(m.Cells(), m.rows, m.cols, Origin(x), x.direction);
    var cur := Beyond(x);
    m.SetPassage(x.row, x.col);
    m.SetPassage(cur.row, cur.col);
    pushed := Exps(m.Cells(), m.rows, m.cols, cur);
    expansions' := AddExps(m, cur, expansions);
  }

  /** The loop of generate from the node `seed`: open it, push its entries, and
      run rounds until the list is empty. Every change turns an interior WALL
      with an odd coordinate into a PASSAGE, and the seed ends as a PASSAGE.
      Returns the number of random numbers drawn. */
  method Grow(m: Maze, seed: Pos, rand: nat -> nat) returns (ticks: nat)
    requires m.Sized() && Generating(m.Cells(), m.rows, m.cols)
    requires InMaze(m.rows, m.cols, seed) && OnLattice(seed)
    modifies m.board
    ensures Generating(m.Cells(), m.rows, m.cols)
    ensures Carved(old(m.Cells()), m.Cells(), m.rows, m.cols)
    ensures PassageAt(m.Cells(), m.rows, m.cols, seed)
  {
    ghost var g0 := m.Cells();
    var curRow, curCol := seed.row, seed.col;
    m.SetPassage(curRow, curCol);
    CarveCell(g0, m.rows, m.cols, seed);
    var expansions := AddExps(m, Pos(curRow, curCol), []);
    FrontierAppend(m.Cells(), m.rows, m.cols, [], seed);
    ticks := 0;
    while |expansions| > 0
      invariant Generating(m.Cells(), m.rows, m.cols) && Frontier(m.rows, m.cols, expansions)
      invariant Carved(g0, m.Cells(), m.rows, m.cols)
      invariant PassageAt(m.Cells(), m.rows, m.cols, seed)
      decreases |Walls(m.Cells())|, |expansions|
    {
      ghost var g := m.Cells();
      expansions := Expand(m, expansions, rand, ticks);
      ticks := ticks + 1;
      CarvedTransitive(g0, g, m.Cells(), m.rows, m.cols);
    }
  }

  /** generate, starting from the entry: the board keeps its ring and anchors;
      only interior WALL cells with an odd coordinate change, all to PASSAGE;
      the entry ends as a PASSAGE. */
  method Generate(m: Maze, rand: nat -> nat) returns (ticks: nat)
    requires m.Valid() && Generating(m.Cells(), m.rows, m.cols)
    modifies m.board
    ensures m.Valid() && Generating(m.Cells(), m.rows, m.cols)
    ensures Carved(old(m.Cells()), m.Cells(), m.rows, m.cols)
    ensures PassageAt(m.Cells(), m.rows, m.cols, m.entry)
  {
    ghost var g0 := m.Cells();
    ticks := Grow(m, m.entry, rand);
    CarvedKeepsRing(g0, m.Cells(), m.rows, m.cols, m.entry, m.exit);
  }

  /** The first frontier node as main.cpp computes it: the entry's row used for
      both coordinates. */
  function SeedAsWritten(entry: Pos): (s: Pos)
    ensures s == entry <==> entry.row == entry.col
    ensures OnLattice(entry) ==> OnLattice(s)
  {
    Pos(entry.row, entry.row)
  }

  /** The seed as written is an interior lattice node exactly when the entry's
      row is left of the last interior column. */
  lemma SeedAsWrittenInside(rows: int, cols: int, entry: Pos)
    requires ValidDims(rows, cols) && IsAnchor(rows, cols, entry)
    ensures InMaze(rows, cols, SeedAsWritten(entry)) <==> entry.row < cols - 1
    ensures OnLattice(SeedAsWritten(entry))
  {
  }

  /** A board of 7 rows and 5 columns whose entry is drawn at (5, 1): the seed as
      written is (5, 5), outside the board, and setPassage writes past the end
      of row 5. */
  lemma SeedAsWrittenLeavesBoard()
    ensures ValidDims(7, 5) && DrawInRange(AnchorDraw(3, 1, 5), 7, 5)
    ensures Place(AnchorDraw(3, 1, 5), 7, 5) == Pos(5, 1)
    ensures SeedAsWritten(Pos(5, 1)) == Pos(5, 5) && !InBoard(7, 5, Pos(5, 5))
  {
  }

  /** generate as main.cpp writes it, from the seed (entry.row, entry.row); its
      behaviour is defined only while that seed lies inside the board. The seed,
      not the entry, ends as a PASSAGE. */
  method GenerateAsWritten(m: Maze, rand: nat -> nat) returns (ticks: nat)
    requires m.Valid() && Generating(m.Cells(), m.rows, m.cols)
    requires m.entry.row < m.cols - 1
    modifies m.board
    ensures m.Valid() && Generating(m.Cells(), m.rows, m.cols)
    ensures Carved(old(m.Cells()), m.Cells(), m.rows, m.cols)
    ensures PassageAt(m.Cells(), m.rows, m.cols, SeedAsWritten(m.entry))
  {
    ghost var g0 := m.Cells();
    SeedAsWrittenInside(m.rows, m.cols, m.entry);
    ticks := Grow(m, SeedAsWritten(m.entry), rand);
    CarvedKeepsRing(g0, m.Cells(), m.rows, m.cols, m.entry, m.exit);
  }

  /** NatualMaze(rows, cols): a WALL-filled maze, then generate (from the entry). */
  method NewNaturalMaze(rows: int, cols: int, screenRows: int, screenCols: int,
                        draw: nat -> AnchorDraw, rand: nat -> nat)
    returns (r: Result<Maze, MazeError>)
    requires ValidDims(rows, cols) ==> DrawsInRange(draw, rows, cols)
    requires ValidDims(rows, cols) ==> exists k: nat :: Settles(draw, rows, cols, k)
    ensures r.Failure? <==> CheckSize(rows, cols, screenRows, screenCols).Some?
    ensures r.Success? ==>
              var m := r.value;
              m.Valid() && fresh(m.board) && m.rows == rows && m.cols == cols &&
              Generating(m.Cells(), rows, cols) &&
              Carved(InitialGrid(rows, cols, Wall, m.entry, m.exit), m.Cells(), rows, cols) &&
              PassageAt(m.Cells(), rows, cols, m.entry)
  {
    r := Create(rows, cols, Wall, screenRows, screenCols, draw);
    if r.Success? {
      Build(r.value, rand);
    }
  }

  /** NatualMaze's constructor body on the WALL-filled board: generate. */
  method Build(m: Maze, rand: nat -> nat)
    requires m.Valid() && m.Cells() == InitialGrid(m.rows, m.cols, Wall, m.entry, m.exit)
    modifies m.board
    ensures m.Valid() && Generating(m.Cells(), m.rows, m.cols)
    ensures Carved(old(m.Cells()), m.Cells(), m.rows, m.cols) && PassageAt(m.Cells(), m.rows, m.cols, m.entry)
  {
    InitialGenerating(m.rows, m.cols, Wall, m.entry, m.exit);
    var _ := Generate(m, rand);
  }
}
