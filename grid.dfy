/** The board as a value: the constructor's checks, bounds, the border ring,
    anchor placement and drawing, and the relations the generators keep. */
module Grid {
  import opened Cells

  /** A snapshot of the board: one tag per (row, col). */
  type Grid = map<Pos, CellType>

  /** The two ways construction fails (both thrown as invalid_argument). */
  datatype MazeError = InvalidDimensions | DisplayTooSmall

  /** Dimensions the constructor accepts: both odd and at least 5. */
  predicate ValidDims(rows: int, cols: int)
  {
    rows >= 5 && cols >= 5 && rows % 2 == 1 && cols % 2 == 1
  }

  /** The constructor's two checks, in order. For rows >= 5 the source's `% 2 == 0`
      and Dafny's agree; smaller values are rejected by the first test anyway. */
  function CheckSize(rows: int, cols: int, screenRows: int, screenCols: int): (r: Option<MazeError>)
    ensures r == Some(InvalidDimensions) <==> !ValidDims(rows, cols)
    ensures r == None <==> ValidDims(rows, cols) && rows <= screenRows - 2 && 2 * cols <= screenCols
  {
    if rows < 5 || cols < 5 || rows % 2 == 0 || cols % 2 == 0 then Some(InvalidDimensions)
    else if rows > screenRows - 2 || cols * 2 > screenCols then Some(DisplayTooSmall)
    else None
  }

  predicate InBoard(rows: int, cols: int, p: Pos)
  {
    0 <= p.row < rows && 0 <= p.col < cols
  }

  /** The outermost ring of the board. */
  predicate OnRing(rows: int, cols: int, p: Pos)
  {
    InBoard(rows, cols, p) && (p.row == 0 || p.row == rows - 1 || p.col == 0 || p.col == cols - 1)
  }

  /** isInMaze: strictly inside the border ring. */
  predicate InMaze(rows: int, cols: int, p: Pos): (b: bool)
    ensures b <==> InBoard(rows, cols, p) && !OnRing(rows, cols, p)
  {
    0 < p.row < rows - 1 && 0 < p.col < cols - 1
  }

  /** The snapshot has exactly one entry per board cell. */
  ghost predicate Shaped(g: Grid, rows: int, cols: int)
  {
    forall p :: p in g <==> InBoard(rows, cols, p)
  }

  /** isPassage on a snapshot: false anywhere outside the interior. */
  predicate PassageAt(g: Grid, rows: int, cols: int, p: Pos)
  {
    InMaze(rows, cols, p) && p in g && g[p] == Passage
  }

  /** isWall on a snapshot: false anywhere outside the interior. */
  predicate WallAt(g: Grid, rows: int, cols: int, p: Pos)
  {
    InMaze(rows, cols, p) && p in g && g[p] == Wall
  }

  /** An anchor (entry or exit cell): interior, on the lattice, on one of the four inner edges. */
  predicate IsAnchor(rows: int, cols: int, p: Pos)
  {
    InMaze(rows, cols, p) && OnLattice(p) &&
    (p.row == 1 || p.row == rows - 2 || p.col == 1 || p.col == cols - 2)
  }

  /** One call of upsetEndPoint's `upset`: the values drawn from directionDis (1..4),
      rowDis (1..cols-2, the column on the top or bottom edge) and colDis
      (1..rows-2, the row on the left or right edge). */
  datatype AnchorDraw = AnchorDraw(direction: int, rowDraw: int, colDraw: int)

  /** The ranges of the three uniform distributions. */
  predicate DrawInRange(a: AnchorDraw, rows: int, cols: int)
  {
    1 <= a.direction <= 4 && 1 <= a.rowDraw <= cols - 2 && 1 <= a.colDraw <= rows - 2
  }

  /** Where `upset` puts a cell for one draw. */
  function Place(a: AnchorDraw, rows: int, cols: int): (p: Pos)
    requires ValidDims(rows, cols) && DrawInRange(a, rows, cols)
    ensures IsAnchor(rows, cols, p)
  {
    var rpos := a.rowDraw / 2 * 2 + 1;
    var cpos := a.colDraw / 2 * 2 + 1;
    if a.direction == 1 then Pos(1, rpos)
    else if a.direction == 2 then Pos(rows - 2, rpos)
    else if a.direction == 3 then Pos(cpos, 1)
    else Pos(cpos, cols - 2)
  }

  /** Every anchor position is the outcome of some draw. */
  lemma PlaceReachesEveryAnchor(rows: int, cols: int, p: Pos)
    requires ValidDims(rows, cols) && IsAnchor(rows, cols, p)
    ensures exists a :: DrawInRange(a, rows, cols) && Place(a, rows, cols) == p
  {
    var a :=
      if p.row == 1 then AnchorDraw(1, p.col, 1)
      else if p.row == rows - 2 then AnchorDraw(2, p.col, 1)
      else if p.col == 1 then AnchorDraw(3, 1, p.row)
      else AnchorDraw(4, 1, p.row);
    assert DrawInRange(a, rows, cols);
    assert Place(a, rows, cols) == p;
  }

  /** The border cell updateEndPoint's `update` overwrites for an anchor: the
      column-side tests come first, then the row-side tests; None when the cell
      is on no inner edge (then nothing is written). */
  function Projection(rows: int, cols: int, a: Pos): (q: Option<Pos>)
    ensures q.Some? ==> Adjacent(a, q.value)
    ensures IsAnchor(rows, cols, a) ==>
              q.Some? && OnRing(rows, cols, q.value) && Adjacent(a, q.value)
  {
    if a.col == 1 then Some(Pos(a.row, 0))
    else if a.col == cols - 2 then Some(Pos(a.row, cols - 1))
    else if a.row == 1 then Some(Pos(0, a.col))
    else if a.row == rows - 2 then Some(Pos(rows - 1, a.col))
    else None
  }

  /** Distinct anchors are drawn on distinct border cells, so the exit never
      overwrites the entry's mark. */
  lemma ProjectionsDistinct(rows: int, cols: int, a: Pos, b: Pos)
    requires ValidDims(rows, cols) && IsAnchor(rows, cols, a) && IsAnchor(rows, cols, b) && a != b
    ensures Projection(rows, cols, a) != Projection(rows, cols, b)
  {
  }

  /** The constructor's fill loop: BORDER on the ring, the default tag inside. */
  function FillCell(rows: int, cols: int, defaultType: CellType, p: Pos): (t: CellType)
    ensures InMaze(rows, cols, p) ==> t == defaultType
    ensures InBoard(rows, cols, p) && !InMaze(rows, cols, p) ==> t == Border
  {
    if OnRing(rows, cols, p) then Border else defaultType
  }

  /** The board after the fill loops: one cell per board position. */
  function Filled(rows: int, cols: int, defaultType: CellType): (f: Grid)
    ensures Shaped(f, rows, cols)
  {
    var f := map i, j | 0 <= i < rows && 0 <= j < cols :: Pos(i, j) := FillCell(rows, cols, defaultType, Pos(i, j));
    assert forall p :: p in f <==> InBoard(rows, cols, p) by {
      forall p ensures p in f <==> InBoard(rows, cols, p) {
        if InBoard(rows, cols, p) {
          assert p == Pos(p.row, p.col);
        }
      }
    }
    f
  }

  /** One call of updateEndPoint's `update`: at most one cell changes, a neighbour
      of `a`, and for an anchor exactly one ring cell next to it takes the tag. */
  function DrawAnchor(g: Grid, rows: int, cols: int, a: Pos, t: CellType): (h: Grid)
    ensures h == g || exists q | Adjacent(a, q) :: h == g[q := t]
    ensures IsAnchor(rows, cols, a) ==> exists q | OnRing(rows, cols, q) && Adjacent(a, q) :: h == g[q := t]
  {
    match Projection(rows, cols, a)
    case Some(q) => g[q := t]
    case None => g
  }

  /** The board as the constructor leaves it: filled, then ENTRY drawn, then EXPORT
      drawn; for two anchors that is the fill plus exactly two writes. */
  function InitialGrid(rows: int, cols: int, defaultType: CellType, entry: Pos, exit: Pos): (g: Grid)
    ensures IsAnchor(rows, cols, entry) && IsAnchor(rows, cols, exit) ==>
              g == Filled(rows, cols, defaultType)[Projection(rows, cols, entry).value := Entry]
                                                  [Projection(rows, cols, exit).value := Export]
  {
    DrawAnchor(DrawAnchor(Filled(rows, cols, defaultType), rows, cols, entry, Entry), rows, cols, exit, Export)
  }

  /** What a ring cell holds once the anchors are drawn. */
  function RingCell(rows: int, cols: int, entry: Pos, exit: Pos, p: Pos): CellType
  {
    if Projection(rows, cols, exit) == Some(p) then Export
    else if Projection(rows, cols, entry) == Some(p) then Entry
    else Border
  }

  /** The border ring with the two anchor marks, untouched. */
  ghost predicate RingIntact(g: Grid, rows: int, cols: int, entry: Pos, exit: Pos)
  {
    forall p | OnRing(rows, cols, p) :: p in g && g[p] == RingCell(rows, cols, entry, exit, p)
  }

  /** The fill covers exactly the board and puts BORDER on the ring only. */
  lemma FilledLayout(rows: int, cols: int, defaultType: CellType)
    ensures Shaped(Filled(rows, cols, defaultType), rows, cols)
    ensures forall p | InBoard(rows, cols, p) ::
              Filled(rows, cols, defaultType)[p] == FillCell(rows, cols, defaultType, p)
  {
    var f := Filled(rows, cols, defaultType);
    forall p | InBoard(rows, cols, p) ensures f[p] == FillCell(rows, cols, defaultType, p) {
      assert p == Pos(p.row, p.col);
    }
  }

  /** The constructed board: every interior cell holds the default tag; on the ring
      exactly the two cells next to the anchors are not BORDER, and they hold
      ENTRY and EXPORT. */
  lemma InitialGridLayout(rows: int, cols: int, defaultType: CellType, entry: Pos, exit: Pos)
    requires ValidDims(rows, cols) && IsAnchor(rows, cols, entry) && IsAnchor(rows, cols, exit)
    requires entry != exit
    ensures Shaped(InitialGrid(rows, cols, defaultType, entry, exit), rows, cols)
    ensures RingIntact(InitialGrid(rows, cols, defaultType, entry, exit), rows, cols, entry, exit)
    ensures forall p | InMaze(rows, cols, p) :: InitialGrid(rows, cols, defaultType, entry, exit)[p] == defaultType
    ensures forall p | OnRing(rows, cols, p) ::
              (InitialGrid(rows, cols, defaultType, entry, exit)[p] != Border <==>
               Some(p) == Projection(rows, cols, entry) || Some(p) == Projection(rows, cols, exit))
    ensures InitialGrid(rows, cols, defaultType, entry, exit)[Projection(rows, cols, entry).value] == Entry
    ensures InitialGrid(rows, cols, defaultType, entry, exit)[Projection(rows, cols, exit).value] == Export
  {
    ProjectionsDistinct(rows, cols, entry, exit);
    FilledLayout(rows, cols, defaultType);
    InitialGridRing(rows, cols, defaultType, entry, exit);
    InitialGridInterior(rows, cols, defaultType, entry, exit);
  }

  lemma InitialGridRing(rows: int, cols: int, defaultType: CellType, entry: Pos, exit: Pos)
    requires ValidDims(rows, cols) && IsAnchor(rows, cols, entry) && IsAnchor(rows, cols, exit)
    requires Shaped(Filled(rows, cols, defaultType), rows, cols)
    requires forall p | InBoard(rows, cols, p) ::
               Filled(rows, cols, defaultType)[p] == FillCell(rows, cols, defaultType, p)
    ensures Shaped(InitialGrid(rows, cols, defaultType, entry, exit), rows, cols)
    ensures RingIntact(InitialGrid(rows, cols, defaultType, entry, exit), rows, cols, entry, exit)
  {
    var f := Filled(rows, cols, defaultType);
    var qe, qx := Projection(rows, cols, entry).value, Projection(rows, cols, exit).value;
    var g := f[qe := Entry][qx := Export];
    assert Projection(rows, cols, entry) == Some(qe) && Projection(rows, cols, exit) == Some(qx);
    assert InitialGrid(rows, cols, defaultType, entry, exit) == g;
    RingCells(rows, cols, entry, exit, f, qe, qx);
  }

  /** Writing the two marks over a board whose ring is all BORDER gives the
      ring with its two marks. */
  lemma RingCells(rows: int, cols: int, entry: Pos, exit: Pos, f: Grid, qe: Pos, qx: Pos)
    requires Projection(rows, cols, entry) == Some(qe) && Projection(rows, cols, exit) == Some(qx)
    requires forall p | OnRing(rows, cols, p) :: p in f && f[p] == Border
    ensures RingIntact(f[qe := Entry][qx := Export], rows, cols, entry, exit)
  {
  }

  lemma InitialGridInterior(rows: int, cols: int, defaultType: CellType, entry: Pos, exit: Pos)
    requires ValidDims(rows, cols) && IsAnchor(rows, cols, entry) && IsAnchor(rows, cols, exit)
    requires Shaped(Filled(rows, cols, defaultType), rows, cols)
    requires forall p | InBoard(rows, cols, p) ::
               Filled(rows, cols, defaultType)[p] == FillCell(rows, cols, defaultType, p)
    ensures forall p | InMaze(rows, cols, p) :: InitialGrid(rows, cols, defaultType, entry, exit)[p] == defaultType
  {
    var f := Filled(rows, cols, defaultType);
    var qe, qx := Projection(rows, cols, entry).value, Projection(rows, cols, exit).value;
    var g := f[qe := Entry][qx := Export];
    forall p | InMaze(rows, cols, p) ensures g[p] == defaultType {
      assert g[p] == f[p];
    }
  }

  /** During generation every interior cell is a WALL or a PASSAGE. */
  ghost predicate Generating(g: Grid, rows: int, cols: int)
  {
    forall p | InMaze(rows, cols, p) :: p in g && (g[p] == Wall || g[p] == Passage)
  }

  /** The WALL cells of a snapshot: the generators' termination measure. */
  function Walls(g: Grid): set<Pos>
  {
    set p | p in g && g[p] == Wall
  }

  /** `g1` differs from `g0` only in interior WALL cells turned PASSAGE, each with an
      odd coordinate (a lattice node or a connector between two nodes). */
  ghost predicate Carved(g0: Grid, g1: Grid, rows: int, cols: int)
  {
    g1.Keys == g0.Keys &&
    forall p | p in g0 ::
      g1[p] == g0[p] ||
      (InMaze(rows, cols, p) && g0[p] == Wall && g1[p] == Passage && (Odd(p.row) || Odd(p.col)))
  }

  /** Setting an interior WALL-or-PASSAGE cell with an odd coordinate to PASSAGE is a carve. */
  lemma CarveCell(g: Grid, rows: int, cols: int, p: Pos)
    requires Generating(g, rows, cols) && InMaze(rows, cols, p) && (Odd(p.row) || Odd(p.col))
    ensures Carved(g, g[p := Passage], rows, cols)
    ensures Generating(g[p := Passage], rows, cols)
    ensures Walls(g[p := Passage]) == Walls(g) - {p}
  {
  }

  lemma {:induction false} CarvedTransitive(g0: Grid, g1: Grid, g2: Grid, rows: int, cols: int)
    requires Carved(g0, g1, rows, cols) && Carved(g1, g2, rows, cols)
    ensures Carved(g0, g2, rows, cols)
  {
  }

  /** Carving never adds a WALL. */
  lemma CarvedShrinksWalls(g0: Grid, g1: Grid, rows: int, cols: int)
    requires Carved(g0, g1, rows, cols)
    ensures Walls(g1) <= Walls(g0)
  {
  }

  /** A subset is no larger. */
  lemma {:induction false} SubsetCard(a: set<Pos>, b: set<Pos>)
    requires a <= b
    ensures |a| <= |b|
    decreases b
  {
    if a != {} {
      var x :| x in a;
      SubsetCard(a - {x}, b - {x});
    }
  }

  /** Carving never adds a WALL, so the WALL count never grows. */
  lemma CarvedWallCount(g0: Grid, g1: Grid, rows: int, cols: int)
    requires Carved(g0, g1, rows, cols)
    ensures |Walls(g1)| <= |Walls(g0)|
  {
    CarvedShrinksWalls(g0, g1, rows, cols);
    SubsetCard(Walls(g1), Walls(g0));
  }

  /** Carving touches interior cells only, so the ring stays intact. */
  lemma CarvedKeepsRing(g0: Grid, g1: Grid, rows: int, cols: int, entry: Pos, exit: Pos)
    requires Carved(g0, g1, rows, cols) && RingIntact(g0, rows, cols, entry, exit)
    ensures RingIntact(g1, rows, cols, entry, exit)
  {
  }

  /** The directions, in source order, whose cell `k` steps from `p` is an interior
      WALL: getDirection probes with k = 2, addExps with k = 1. */
  function Probe(g: Grid, rows: int, cols: int, p: Pos, k: int): (ds: seq<Direction>)
    ensures forall d :: d in ds <==> WallAt(g, rows, cols, Step(p, d, k))
    ensures |ds| <= 4
  {
    (if WallAt(g, rows, cols, Step(p, Up, k)) then [Up] else []) +
    (if WallAt(g, rows, cols, Step(p, Down, k)) then [Down] else []) +
    (if WallAt(g, rows, cols, Step(p, Left, k)) then [Left] else []) +
    (if WallAt(g, rows, cols, Step(p, Right, k)) then [Right] else [])
  }

  /** Probe from the four answers of isWall, one per direction. */
  lemma ProbeOf(g: Grid, rows: int, cols: int, p: Pos, k: int, up: bool, down: bool, left: bool, right: bool)
    requires up == WallAt(g, rows, cols, Step(p, Up, k)) && down == WallAt(g, rows, cols, Step(p, Down, k))
    requires left == WallAt(g, rows, cols, Step(p, Left, k)) && right == WallAt(g, rows, cols, Step(p, Right, k))
    ensures Probe(g, rows, cols, p, k) ==
              (if up then [Up] else []) + (if down then [Down] else []) +
              (if left then [Left] else []) + (if right then [Right] else [])
  {
  }

  /** The cell between two interior cells two steps apart is interior. */
  lemma Between(rows: int, cols: int, p: Pos, d: Direction)
    requires InMaze(rows, cols, p) && InMaze(rows, cols, Step(p, d, 2))
    ensures InMaze(rows, cols, Step(p, d, 1))
  {
    match d
    case Up =>
    case Down =>
    case Left =>
    case Right =>
  }

  /** Opening the way from the lattice node `p` to the WALL node two cells away in
      direction `d`: both cells become PASSAGE, the far one is again a lattice
      node, and there is one WALL fewer. */
  lemma CarvePair(g: Grid, rows: int, cols: int, p: Pos, d: Direction)
    requires Generating(g, rows, cols) && InMaze(rows, cols, p) && OnLattice(p)
    requires WallAt(g, rows, cols, Step(p, d, 2))
    ensures InMaze(rows, cols, Step(p, d, 1)) && InMaze(rows, cols, Step(p, d, 2))
    ensures OnLattice(Step(p, d, 2))
    ensures Generating(g[Step(p, d, 1) := Passage][Step(p, d, 2) := Passage], rows, cols)
    ensures Carved(g, g[Step(p, d, 1) := Passage][Step(p, d, 2) := Passage], rows, cols)
    ensures |Walls(g[Step(p, d, 1) := Passage][Step(p, d, 2) := Passage])| < |Walls(g)|
  {
    LatticeSteps(p, d);
    Between(rows, cols, p, d);
    var a, b := Step(p, d, 1), Step(p, d, 2);
    var g1 := g[a := Passage];
    CarveCell(g, rows, cols, a);
    CarveCell(g1, rows, cols, b);
    CarvedTransitive(g, g1, g1[b := Passage], rows, cols);
    assert b in Walls(g1);
    SubsetCard(Walls(g1), Walls(g));
  }

  /** A freshly built board of WALL or PASSAGE is ready for a generator. */
  lemma InitialGenerating(rows: int, cols: int, defaultType: CellType, entry: Pos, exit: Pos)
    requires ValidDims(rows, cols) && IsAnchor(rows, cols, entry) && IsAnchor(rows, cols, exit)
    requires entry != exit && (defaultType == Wall || defaultType == Passage)
    ensures Generating(InitialGrid(rows, cols, defaultType, entry, exit), rows, cols)
  {
    InitialGridLayout(rows, cols, defaultType, entry, exit);
  }
}
