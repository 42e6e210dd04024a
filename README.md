# Maze generation and solving, modelled in Dafny

`main.cpp` keeps a maze as a board of cell tags (`BaseMaze`). Its constructor
checks the dimensions and fills the board: a BORDER ring, and a default tag
inside. It then places an entry and an exit anchor on the inner edges and
marks ENTRY and EXPORT on the ring cells next to them. Three generators
reshape the interior:

- `MainRoadMaze` is a depth-first carver that opens WALL lattice nodes two
  cells apart;
- `NatualMaze` keeps a randomised frontier list that grows and shrinks in place;
- `SimpleMaze` does recursive division of a PASSAGE-filled interior with WALL crosses.

`travelMaze` is a depth-first solver. It tries the neighbours nearest the exit
first and marks every cell it enters CURRENT, then VISITED, except the exit,
which stays CURRENT.

The model follows that structure:

- **`Cells`** holds the tags, directions, positions and the odd lattice.
- **`Grid`** holds the board as a value (`map<Pos, CellType>`). It covers the
  constructor's checks, the ring, anchor placement and drawing, and the `Carved`
  relation the carving generators keep.
- **`Mazes`** is the `Maze` class. It owns the board as an `array2<CellType>`
  and has the fill loops, the anchor do-while and the predicates and setters.
- **`Order`** is the solver's distance table and what `std::sort` may make of it.
- **`Exploration`** states what a search does to a board snapshot.
- **`Solver`** is the search itself, as methods that write the board.
- **`MainRoad`**, **`Natural`** and **`Division`** are the three generators.
  Each is a method that writes the board of a `Maze`, plus the constructor of
  its subclass.

The random engine and the terminal are parameters:

- `draw: nat -> AnchorDraw` gives the three uniform draws of each `upset` call.
- `rand: nat -> nat` gives the k-th number of `mt()`.
- `order: Pos -> seq<Candidate>` gives the outcome of `std::sort` on each
  position's table.
- `screenRows` and `screenCols` are the terminal size.

Every contract holds for every oracle within the stated ranges.

In the main-road carver `getThrougn` (main.cpp:403-428), each move overwrites
the loop variables `row`/`col`. The next probe therefore starts from the node
just entered, and the cell where the call started is not probed again after
its first move.

## Model

| member | source | states |
|---|---|---|
| Cells.LatticeSteps | main.cpp:404-424 | two steps from a node with odd coordinates lands on such a node; the cell in between has an odd coordinate |
| Grid.CheckSize | main.cpp:51-58 | the dimensions are rejected exactly when they are not both odd and at least 5; construction succeeds exactly when they are valid and the board fits rows <= screenRows-2 and 2*cols <= screenCols |
| Grid.InMaze | main.cpp:234-236 | isInMaze holds exactly for board cells off the border ring |
| Grid.Place | main.cpp:181-205 | every in-range draw of `upset` puts the cell on an inner edge, inside the ring, with both coordinates odd |
| Grid.PlaceReachesEveryAnchor | main.cpp:177-205 | every such anchor position is produced by some in-range draw |
| Grid.Projection | main.cpp:216-229 | for an anchor, `update` writes one ring cell orthogonally adjacent to it, the column tests taking priority |
| Grid.FillCell | main.cpp:66-73 | the fill loop's choice: the default tag for an interior cell, BORDER for a board cell on the ring |
| Grid.Filled | main.cpp:65-75 | the filled board has exactly one cell per board position |
| Grid.DrawAnchor | main.cpp:216-229 | one `update` call changes at most one cell, a neighbour of the anchor; for an anchor it writes the tag on exactly one ring cell next to it |
| Grid.InitialGrid | main.cpp:65-78 | for two anchors, the constructed board is the fill plus exactly two writes: ENTRY next to the entry, then EXPORT next to the exit |
| Grid.ProjectionsDistinct | main.cpp:230-231 | distinct anchors mark distinct ring cells, so EXPORT never overwrites ENTRY |
| Grid.FilledLayout | main.cpp:65-75 | the fill covers exactly the board: BORDER on the ring, the default tag elsewhere |
| Grid.InitialGridLayout | main.cpp:65-78 | after construction every interior cell holds the default tag, and on the ring exactly the two cells next to the anchors are not BORDER; they hold ENTRY and EXPORT |
| Grid.InitialGridRing | main.cpp:215-232 | the constructed board keeps the ring intact with its two marks |
| Grid.RingCells | main.cpp:215-232 | writing ENTRY and EXPORT at the two projected cells over an all-BORDER ring gives the ring with its two marks |
| Grid.InitialGridInterior | main.cpp:65-78 | updateEndPoint leaves every interior cell at the default tag |
| Grid.CarveCell | main.cpp:254-256 | setPassage on an interior WALL-or-PASSAGE cell with an odd coordinate is a carve that removes that cell from the WALL set |
| Grid.CarvedTransitive | main.cpp:401-430 | successive carves compose into one carve |
| Grid.CarvedShrinksWalls | main.cpp:401-430 | carving never adds a WALL |
| Grid.CarvedWallCount | main.cpp:401-430 | the WALL count never grows under carving |
| Grid.CarvedKeepsRing | main.cpp:432-434 | carving leaves the border ring and both anchor marks as they were |
| Grid.Probe | main.cpp:380-393 | the probed list holds exactly the directions whose cell k steps away is an interior WALL, at most four |
| Grid.ProbeOf | main.cpp:382-393 | the list built from the four isWall answers, in the order UP, DOWN, LEFT, RIGHT, is the probe |
| Grid.Between | main.cpp:404-424 | the cell between two interior cells two apart is interior |
| Grid.CarvePair | main.cpp:404-424 | opening a WALL node two cells from a lattice node opens two interior cells, lands on a lattice node, is a carve, and strictly lowers the WALL count |
| Grid.InitialGenerating | main.cpp:65-78 | a board built with WALL or PASSAGE as default has only WALL and PASSAGE inside |
| Mazes.NextRound | main.cpp:207-210 | a round of the do-while that draws the same cell twice is followed by another round |
| Mazes.Maze.constructor | main.cpp:31-79 | the board holds the fill with ENTRY and EXPORT drawn; the anchors are those of the first round that draws two distinct cells; the maze invariant holds |
| Mazes.Maze.FilledBoard | main.cpp:65-75 | the nested fill loops leave BORDER on the ring and the default tag elsewhere |
| Mazes.Maze.FilledCells | main.cpp:65-75 | the board after the fill loops is the filled snapshot |
| Mazes.Maze.UpsetEndPoint | main.cpp:175-211 | the do-while stops at the first round whose two anchors differ; both anchors are interior, odd and on an inner edge |
| Mazes.Maze.UpdateEndPoint | main.cpp:215-232 | the board gains ENTRY next to the entry, then EXPORT next to the exit, and nothing else |
| Mazes.Maze.Update | main.cpp:216-229 | one `update` call writes the tag on the anchor's projected ring cell, or nothing |
| Mazes.Maze.Put | main.cpp:254-260 | exactly one cell changes, to the given tag |
| Mazes.Maze.IsInMaze | main.cpp:234-236 | true exactly for board cells off the ring |
| Mazes.Maze.IsPassage | main.cpp:238-240 | true exactly for interior PASSAGE cells; never true outside the interior |
| Mazes.Maze.IsWall | main.cpp:242-244 | true exactly for interior WALL cells; never true outside the interior |
| Mazes.Maze.IsExport | main.cpp:246-248 | true exactly at the exit anchor |
| Mazes.Maze.IsEntry | main.cpp:250-252 | true exactly at the entry anchor |
| Mazes.Maze.SetPassage | main.cpp:254-256 | exactly the given cell becomes PASSAGE |
| Mazes.Maze.SetWall | main.cpp:258-260 | exactly the given cell becomes WALL |
| Mazes.Create | main.cpp:31-79 | construction fails, with the check's error, exactly when a check fails; otherwise the constructed maze is valid and holds the initial board |
| Order.Table | main.cpp:134-140 | the table has four rows, for UP, DOWN, LEFT and RIGHT in that order |
| Order.TableDistances | main.cpp:135-139 | each row holds the Manhattan distance from that neighbour to the exit |
| Order.NeighbourDistances | main.cpp:135-144 | after any admissible sort, each row still holds the distance from its neighbour to the exit |
| Order.Insert | main.cpp:142-144 | inserting into a distance-sorted list keeps it sorted and adds exactly the row |
| Order.PrependSorted | main.cpp:142-144 | a row no farther than all rows may go first |
| Order.Arrange | main.cpp:142-144 | a sort by distance: sorted and a permutation of its input |
| Order.ArrangeIsDistanceSorted | main.cpp:142-144 | an outcome admissible for std::sort always exists |
| Order.DistanceSortedCovers | main.cpp:142-158 | any admissible outcome has four rows, one for each direction, so the four nextTo calls try every direction |
| Order.DistancesAppend | main.cpp:142-144 | distances of a concatenation concatenate |
| Order.DistancesPermute | main.cpp:142-144 | permuting rows permutes their distances |
| Order.Pick | main.cpp:142-144 | removing one row removes its distance |
| Order.SortedEqual | main.cpp:142-144 | two ascending lists with the same elements are equal |
| Order.SameLeast | main.cpp:142-144 | two ascending lists with the same elements start alike |
| Order.SameRest | main.cpp:142-144 | removing equal heads keeps equal multisets |
| Order.DistancesAscending | main.cpp:142-144 | a sorted table has ascending distances |
| Order.TieBreakIrrelevant | main.cpp:142-144 | whatever order std::sort leaves among ties, the i-th direction tried is at the same distance from the exit |
| Exploration.MarkOf | main.cpp:86-94 | updateMaze leaves CURRENT exactly on the exit and VISITED everywhere else |
| Exploration.Paint | main.cpp:86-94 | the board after updateMaze on each cell of a set: the same cells, each painted cell holds its mark, every other cell is unchanged |
| Exploration.PassagesAfterPaint | main.cpp:86-94 | painting removes exactly the painted cells from the PASSAGE cells |
| Exploration.PaintedWithin | main.cpp:84-94 | painting a cell takes it out of the cells the search may still enter |
| Exploration.PaintTwice | main.cpp:86-94 | painting two sets in turn is painting their union |
| Exploration.PaintKeepsRing | main.cpp:86-94 | painting interior cells keeps the ring |
| Exploration.ExploredInside | main.cpp:115-116 | every cell a search enters is interior |
| Exploration.PaintMarks | main.cpp:86-94 | the exit is never rewritten VISITED: a painted cell is CURRENT exactly when it is the exit |
| Exploration.ClosedAfterPaint | main.cpp:115-124 | painting more cells keeps a sealed region sealed |
| Exploration.PartialStart | main.cpp:128 | after travel marks its own cell, no direction has been tried yet |
| Exploration.Started | main.cpp:128-133 | marking the cell shrinks the set of cells still enterable, which bounds the recursion |
| Exploration.ArrivedAtExit | main.cpp:128-132 | travel on the exit reports the one-cell route |
| Exploration.FreshOutside | main.cpp:115-116 | cells a later search enters were PASSAGE before and were not entered earlier |
| Exploration.FreshAppend | main.cpp:147-158 | the cells entered by successive nextTo calls are pairwise distinct PASSAGE cells |
| Exploration.PartialStep | main.cpp:147-158 | a nextTo call that fails lets travel go on with the next direction |
| Exploration.PartialFound | main.cpp:147-158 | a nextTo call that succeeds makes travel report the route through its cell |
| Exploration.ExtendRoute | main.cpp:119-121 | a route from a PASSAGE neighbour with the current cell in front is a route from the current cell |
| Exploration.PartialDone | main.cpp:159-160 | after four failed nextTo calls, no cell entered has a PASSAGE neighbour left |
| Exploration.TriedBlocked | main.cpp:115-124 | nextTo on a cell that is not a PASSAGE changes nothing and fails |
| Exploration.TriedFound | main.cpp:115-122 | nextTo reports the route of travel(next), prefixed with the current cell |
| Exploration.TriedFailed | main.cpp:116-118 | the re-mark after a failed travel(next) leaves the board as it is |
| Exploration.RouteStaysInside | main.cpp:159-160 | a route from inside a sealed painted region never leaves it |
| Exploration.NotFoundMeansNoRoute | main.cpp:159-168 | a failed search proves there is no route from its start to the exit |
| Exploration.TriesDone | main.cpp:159-160 | once all four directions are tried, nothing more is entered and travel fails |
| Exploration.TriesFound | main.cpp:147-158 | a nextTo whose search reaches the exit is the last one: its cells end the trace and travel succeeds |
| Exploration.TriesFailed | main.cpp:147-158 | after a nextTo that does not reach the exit, travel goes on with the next direction; the neighbour counts as entered only if it was still a PASSAGE |
| Exploration.FirstTry | main.cpp:146-158 | the first cell travel enters is the neighbour of the earliest direction in the table that is a PASSAGE once the cell is marked; nothing is entered when there is none |
| Exploration.MarkedNeighbours | main.cpp:115-128 | marking the current cell does not change which of its neighbours are PASSAGE |
| Exploration.FirstEnteredNearest | main.cpp:134-158 | the first cell entered is a PASSAGE neighbour no farther from the exit than any other PASSAGE neighbour |
| Exploration.NoneEntered | main.cpp:147-160 | travel enters no cell only when no neighbour is a PASSAGE |
| Exploration.NearestFirst | main.cpp:134-158 | travel enters a neighbour exactly when one is a PASSAGE, and the first one entered is nearest the exit by Manhattan distance among the PASSAGE neighbours |
| Solver.UpdateMaze | main.cpp:86-94 | exactly the cell changes, to CURRENT on the exit and VISITED elsewhere |
| Solver.Travel | main.cpp:84-161 | travel enters distinct PASSAGE cells and paints exactly them; it reports a real route to the exit, or fails having sealed every cell it entered; on the exit it stops at once, elsewhere it tries the directions in the order `order(p)` gives (TriesInOrder), entering each neighbour still PASSAGE at that moment and stopping after the first search that reaches the exit |
| Solver.TryFrom | main.cpp:146-160 | the nextTo calls from the i-th direction of the sorted table on: the trace only grows, the directions are tried in table order, and the first search that reaches the exit ends the trace (TriesInOrder) |
| Solver.NextTo | main.cpp:97-125 | only a PASSAGE neighbour is entered; the result is that of travel there, with the current cell prefixed to a route |
| Solver.TravelMaze | main.cpp:82-172 | the search from the entry succeeds exactly when the board has a route of PASSAGE cells from the entry to the exit; the maze stays valid; the directions from the entry are tried in `order`'s sequence, and the first cell entered is a PASSAGE neighbour of the entry no farther from the exit than any other |
| MainRoad.GetDirection | main.cpp:380-399 | the chosen direction leads to an interior WALL two cells away; none exactly when there is no such direction; the choice is the drawn index into the probed list, and a number is drawn only when the list is not empty |
| MainRoad.GetThrough | main.cpp:401-430 | every change turns an interior WALL with an odd coordinate into PASSAGE; the recursion is bounded by the WALL count |
| MainRoad.Advance | main.cpp:404-427 | a switch arm opens exactly the next cell and the one beyond, and moves two cells |
| MainRoad.Generate | main.cpp:377-435 | generate keeps the ring and anchors, changes only interior WALL cells to PASSAGE, and opens the entry |
| MainRoad.Build | main.cpp:372-375 | generate on the WALL-filled board carves it and opens the entry |
| MainRoad.NewMainRoadMaze | main.cpp:372-375 | the constructor fails exactly on a failed check; otherwise it yields a valid maze carved from the WALL-filled board with the entry open |
| Natural.PointSteps | main.cpp:479-494 | the node that pushed an entry, the entry and the node beyond lie on one line, one step apart |
| Natural.Exps | main.cpp:454-467 | addExps pushes exactly one entry for each neighbour that is an interior WALL, tagged with the direction that leads to it |
| Natural.AddExps | main.cpp:454-467 | the frontier list grows by exactly those entries, at its end |
| Natural.FrontierAppend | main.cpp:496-500 | entries pushed by an interior lattice node keep every entry rooted at such a node |
| Natural.EraseAfterAppend | main.cpp:500-503 | erasing the drawn entry after pushing equals pushing after erasing |
| Natural.FrontierErase | main.cpp:503 | erasing an entry keeps the frontier well formed |
| Natural.Expand | main.cpp:473-504 | one round removes the drawn entry; it opens the entry and the node beyond exactly when that node is an interior WALL, pushing that node's entries and lowering the WALL count; otherwise the board is unchanged |
| Natural.Connect | main.cpp:496-501 | the carving branch opens exactly two cells, lands on an interior lattice node and lowers the WALL count |
| Natural.Grow | main.cpp:469-504 | the loop terminates; every change is a carve and the seed ends PASSAGE |
| Natural.Generate | main.cpp:449-505 | generate seeded from the entry keeps the ring and anchors, only carves, and opens the entry |
| Natural.SeedAsWritten | main.cpp:469 | the seed the source computes, (entry.row, entry.row), is the entry exactly when entry.row == entry.col; it stays on the odd lattice |
| Natural.SeedAsWrittenInside | main.cpp:469-470 | the seed (entry.row, entry.row) is interior exactly when entry.row < cols-1 |
| Natural.SeedAsWrittenLeavesBoard | main.cpp:469-470 | on a 7x5 board with the entry drawn at (5, 1), the seed (5, 5) is off the board |
| Natural.GenerateAsWritten | main.cpp:449-505 | generate as written, where its seed is inside the board: it only carves, and opens the seed rather than the entry |
| Natural.Build | main.cpp:444-447 | the corrected generate (seeded from the entry, see Findings) on the WALL-filled board carves it and opens the entry |
| Natural.NewNaturalMaze | main.cpp:444-447 | with the corrected seed (see Findings), the constructor fails exactly on a failed check; otherwise it yields a valid maze carved from the WALL-filled board with the entry open |
| Division.Interior | main.cpp:577 | the first call's rectangle is a region and covers exactly the interior |
| Division.CrossLine | main.cpp:533-534 | the cross line is even and strictly between the odd bounds |
| Division.CrossLineReaches | main.cpp:533-534 | every even line strictly between the bounds can be drawn |
| Division.LowOpening | main.cpp:544-549 | pos[0] and pos[2] are odd lines from the low bound up to the cross line |
| Division.HighOpening | main.cpp:544-549 | pos[1] and pos[3] are odd lines past the cross line up to the high bound |
| Division.LowOpeningReaches | main.cpp:544-549 | every odd line below the cross line can be drawn as that opening |
| Division.HighOpeningReaches | main.cpp:544-549 | every odd line above the cross line can be drawn as that opening |
| Division.DrawCut | main.cpp:533-549 | the seven draws of one call give a cross strictly inside the rectangle, openings on their own arms, and a closed arm in 0..3 |
| Division.Openings | main.cpp:550-553 | the four opening cells, in the order pos[0..3]; where they lie is stated by Division.OpeningsOnArms |
| Division.OpeningsOnArms | main.cpp:544-553 | of a well placed cut, opening k lies on arm k of the cross inside the rectangle and on no other arm |
| Division.ArmGaps | main.cpp:550-569 | of a standing cross, the notThrough arm is solid WALL, each other arm has exactly one PASSAGE cell (its opening), and the crossing is WALL |
| Division.ReshapedWithin | main.cpp:570-573 | a change confined to a quarter is confined to the rectangle |
| Division.ReshapedTransitive | main.cpp:531-575 | confined changes compose |
| Division.ReshapedOffCross | main.cpp:570-573 | a change confined to a quarter keeps the cross standing |
| Division.Quarter | main.cpp:570-573 | each quarter lies inside the rectangle and off the cross lines |
| Division.QuarterRegion | main.cpp:570-573 | the quarters keep odd bounds inside the ring and are strictly smaller |
| Division.Draws | main.cpp:531-575 | the exact count of numbers one devide call draws: at least seven when the rectangle is cut, none for a single line |
| Division.QuarterStart | main.cpp:570-573 | each recursive call starts drawing after the seven draws of the cut and after every number its earlier siblings drew |
| Division.DividedByFrame | main.cpp:531-575 | whether a rectangle is divided depends only on the cells inside it |
| Division.OtherQuarterKept | main.cpp:570-573 | a later recursive call, confined to its own quarter, keeps an earlier quarter's division |
| Division.Assemble | main.cpp:570-573 | the cross standing and each quarter divided by its own call, with the numbers drawn after the cut, make the rectangle divided |
| Division.QuarterStep | main.cpp:570-573 | one recursive call keeps the parent's cross and changes only the rectangle |
| Division.CrossLayout | main.cpp:536-569 | the two loops, the four openings and the switch leave the cross standing and touch only non-lattice cells of the rectangle |
| Division.CrossStands | main.cpp:536-569 | the cross stands after the writes |
| Division.CrossConfined | main.cpp:536-569 | the writes change only non-lattice cells of the rectangle, to WALL or PASSAGE |
| Division.CrossKeys | main.cpp:536-569 | the writes stay on the board: the set of cells is unchanged |
| Division.CrossCellConfined | main.cpp:536-569 | a cell off the cross and off the openings keeps its tag; any other cell is a non-lattice cell of the rectangle holding WALL or PASSAGE |
| Division.WallRow | main.cpp:536-538 | the loop sets every cell of the row segment to WALL and nothing else |
| Division.WallColumn | main.cpp:539-541 | the loop sets every cell of the column segment to WALL and nothing else |
| Division.OpenGaps | main.cpp:550-569 | the four openings become PASSAGE, then the notThrough one WALL again |
| Division.Cross | main.cpp:532-569 | the cut is the one the draws give; the cross stands and only the rectangle's non-lattice cells changed |
| Division.Devide | main.cpp:531-575 | a single-line rectangle is left alone; otherwise the drawn cross stands at the end and each quarter is divided recursively by the numbers drawn after it (DividedBy); only non-lattice cells of the rectangle change; the call draws exactly Draws numbers |
| Division.DivideQuarter | main.cpp:570-573 | one recursive call divides its quarter, keeps the parent's cross, changes only that quarter and draws exactly that quarter's Draws numbers |
| Division.ReshapedInterior | main.cpp:577 | dividing the interior keeps the ring and leaves only WALL and PASSAGE inside |
| Division.Generate | main.cpp:528-578 | generate keeps the ring and anchors and reshapes only non-lattice interior cells; the interior is divided recursively by the crosses the draws give (DividedBy), using exactly Draws numbers; on a PASSAGE-filled board every interior lattice cell stays PASSAGE |
| Division.PassageStart | main.cpp:523-524 | the PASSAGE-filled board is all PASSAGE inside |
| Division.LatticeKept | main.cpp:531-577 | division never walls a cell with both coordinates odd |
| Division.Build | main.cpp:523-526 | generate on the PASSAGE-filled board leaves the interior divided recursively by the crosses the draws give, keeps the ring and anchors, and keeps every interior lattice cell PASSAGE |
| Division.NewSimpleMaze | main.cpp:523-526 | the constructor fails exactly on a failed check; otherwise it yields a valid maze whose interior is divided recursively by the crosses the draws give, with every interior lattice cell (the entry among them) a PASSAGE |

## Left out

- The terminal size query (main.cpp:39-49) is operating-system I/O. The size becomes the parameters `screenRows` and `screenCols` of `Create` and of the three constructors.
- Rendering is output only and is not modelled:
  - `cursorTo`, `hideCursor`, `clear` and `operator<<`;
  - the escape strings passed to `updateMaze`;
  - the red `+` printed on the route (main.cpp:120). That route is returned as the ghost `path` instead.
- The 100 ms pause (main.cpp:89) is timing only.
- `makeMt` (seeding from `random_device` or the clock) is replaced by oracles, and nothing is claimed about uniformity or maze style:
  - the uniform distributions of `upset` become `draw`;
  - `mt()` becomes `rand`.
- `rand` ranges over all naturals, a superset of mt19937's 32-bit outputs. Every draw takes `%` of a non-negative value, so the width does not matter.
- `main`'s argument parsing and dispatch (main.cpp:587-625) is command-line glue.
- The generators are methods over a `Maze`, not virtual overrides. The `generate` dispatch through the class hierarchy is not modelled.
- The model does not prove that a generated maze is connected or perfect. The solver's contract does say that it succeeds exactly when a route exists.
- Call-stack depth of the recursive generators and of the solver is not modelled. Deep recursion could overflow the C++ stack.
- Integer overflow is not modelled. Board sizes are bounded by the terminal, and no computation comes near the int range.
- `std::sort`'s exact algorithm is left out, so the order among equal distances is unspecified. The oracle `order` may return any distance-sorted arrangement of the table (`Order.SortsTowards`). `Order.TieBreakIrrelevant` shows that the order of ties does not affect the distances tried.
- Mazes.Maze.UpsetEndPoint: requires that some round of the do-while draws two distinct cells. Without that, the source loops forever; the model does not describe a non-terminating run. `Mazes.Maze.constructor`, `Mazes.Create` and the three constructors carry the same requirement.
- Natural.Build: models the constructor with the seed corrected to the entry (see Findings). The source's constructor seeds from (entry.row, entry.row); that behaviour is Natural.GenerateAsWritten.
- Natural.NewNaturalMaze: models the constructor with the seed corrected to the entry (see Findings). The source's constructor seeds from (entry.row, entry.row); that behaviour is Natural.GenerateAsWritten.
- Natural.GenerateAsWritten: requires the seed (entry.row, entry.row) to lie inside the board. Otherwise the source writes outside the board (see Findings), which has no defined behaviour to model.
- MainRoad.GetThrough: states that the result is a carve, not which cells it opens. Those depend on the whole sequence of draws.
- Natural.Grow: states that the result is a carve, not which cells it opens. Those depend on the whole sequence of draws.

## Findings

| source | as written | input that shows it | evidently intended | confidence | as-written member | corrected member |
|---|---|---|---|---|---|---|
| main.cpp:469 | `curCol = entryCell.row`: the frontier is seeded from (entry.row, entry.row) | 7 rows, 5 columns, entry drawn at (5, 1) by `upset` draw (3, 1, 5): the seed (5, 5) is off the 5-column board, and `setPassage(5, 5)` writes out of range | `curCol = entryCell.col`, seeding from the entry itself | not executed | Natural.SeedAsWrittenLeavesBoard | Natural.Generate |
