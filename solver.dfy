/** travelMaze: the recursive depth-first walk from the entry, trying the
    neighbours closest to the exit first. The animation (cursor moves, colours,
    the 100 ms pause) is not modelled; the cell tags it writes are. */
module Solver {
  import opened Cells
  import opened Grid
  import opened Order
  import opened Exploration
  import opened Mazes

  /** updateMaze: mark the cell CURRENT, then VISITED unless it is the exit. */
  method UpdateMaze(m: Maze, q: Pos)
    requires m.Sized() && InMaze(m.rows, m.cols, q)
    modifies m.board
    ensures m.Cells() == old(m.Cells())[q := MarkOf(q, m.exit)]
  {
    m.Put(q.row, q.col, Current);
    if !m.IsExport(q.row, q.col) {
      m.Put(q.row, q.col, Visited);
    }
  }

  /** travel(row, col): enter `p`; stop at the exit; otherwise try the four
      directions in the given distance order. */
  method Travel(m: Maze, p: Pos, order: Pos -> seq<Candidate>, ghost live: set<Pos>)
    returns (found: bool, ghost path: seq<Pos>, ghost trace: seq<Pos>, ghost cuts: seq<int>)
    requires m.Sized() && InMaze(m.rows, m.cols, p) && SortsTowards(order, m.exit)
    requires Within(m.Cells(), m.rows, m.cols, live)
    modifies m.board
    ensures Explored(old(m.Cells()), m.Cells(), m.rows, m.cols, p, m.exit, found, path, trace)
    ensures p == m.exit ==> found && trace == [p]
    ensures p != m.exit ==> TriesInOrder(old(m.Cells()), m.rows, m.cols, p, m.exit, order(p), 0, 1, trace, cuts, found)
    decreases |live|, if p in live then 1 else 4
  {
    ghost var g0 := m.Cells();
    UpdateMaze(m, p);
    if m.IsExport(p.row, p.col) {
      ArrivedAtExit(g0, m.rows, m.cols, p);
      return true, [p], [p], [];
    }
    var ds := order(p);
    Started(g0, m.rows, m.cols, p, m.exit, ds, live);
    DistanceSortedCovers(ds, p, m.exit);
    ghost var start := [p];
    assert |start| == 1;
    found, path, trace, cuts := TryFrom(m, p, ds, 0, order, live - {p}, g0, start);
  }

  /** travel(p)'s nextTo calls from the `i`-th nearest direction on: try it, and
      unless it reaches the exit go on with the next one; after the fourth,
      give up. `cuts` logs where each entered neighbour's search ends in the
      trace. */
  method TryFrom(m: Maze, p: Pos, ds: seq<Candidate>, i: int, order: Pos -> seq<Candidate>,
                 ghost live: set<Pos>, ghost g0: Grid, ghost trace: seq<Pos>)
    returns (found: bool, ghost path: seq<Pos>, ghost trace': seq<Pos>, ghost cuts: seq<int>)
    requires m.Sized() && SortsTowards(order, m.exit)
    requires |ds| == 4 && forall d :: Offers(ds, d)
    requires Partial(g0, m.Cells(), m.rows, m.cols, p, m.exit, ds, i, trace)
    requires Within(m.Cells(), m.rows, m.cols, live)
    modifies m.board
    ensures Explored(g0, m.Cells(), m.rows, m.cols, p, m.exit, found, path, trace')
    ensures trace <= trace'
    ensures TriesInOrder(g0, m.rows, m.cols, p, m.exit, ds, i, |trace|, trace', cuts, found)
    decreases |live|, 3, 4 - i
  {
    if i == 4 {
      PartialDone(g0, m.Cells(), m.rows, m.cols, p, m.exit, ds, trace, []);
      TriesDone(g0, m.rows, m.cols, p, m.exit, ds, trace);
      return false, [], trace, [];
    }
    ghost var g := m.Cells();
    var f;
    ghost var sub, t;
    f, sub, t := NextTo(m, p, ds[i].direction, order, live);
    if f {
      PartialFound(g0, g, m.Cells(), m.rows, m.cols, p, m.exit, ds, i, trace, sub, t);
      TriesFound(g0, g, m.Cells(), m.rows, m.cols, p, m.exit, ds, i, trace, sub, t);
      return true, sub, trace + t, [|trace + t|];
    }
    ghost var g' := m.Cells();
    PartialStep(g0, g, g', m.rows, m.cols, p, m.exit, ds, i, trace, sub, t, live);
    ghost var rest;
    found, path, trace', rest := TryFrom(m, p, ds, i + 1, order, live, g0, trace + t);
    TriesFailed(g0, g, g', m.rows, m.cols, p, m.exit, ds, i, trace, sub, t, trace', rest, found);
    cuts := if PassageAt(g, m.rows, m.cols, Step(p, ds[i].direction, 1)) then [|trace + t|] + rest else rest;
  }

  /** nextTo(direction): step to the neighbour; when it is a PASSAGE travel
      from there, and re-mark it after a fruitless search. */
  method NextTo(m: Maze, p: Pos, d: Direction, order: Pos -> seq<Candidate>, ghost live: set<Pos>)
    returns (found: bool, ghost path: seq<Pos>, ghost t: seq<Pos>)
    requires m.Sized() && SortsTowards(order, m.exit)
    requires Within(m.Cells(), m.rows, m.cols, live)
    modifies m.board
    ensures Tried(old(m.Cells()), m.Cells(), m.rows, m.cols, p, Step(p, d, 1), m.exit, found, path, t)
    decreases |live|, 2
  {
    ghost var g0 := m.Cells();
    var n := Step(p, d, 1);
    if m.IsPassage(n.row, n.col) {
      var f;
      ghost var sub, cuts;
      f, sub, t, cuts := Travel(m, n, order, live);
      if !f {
        TriedFailed(g0, m.Cells(), m.rows, m.cols, p, n, m.exit, sub, t);
        UpdateMaze(m, n);
        return false, [], t;
      }
      TriedFound(g0, m.Cells(), m.rows, m.cols, p, n, m.exit, sub, t);
      return true, [p] + sub, t;
    }
    TriedBlocked(g0, m.rows, m.cols, p, n, m.exit);
    return false, [], [];
  }

  /** travelMaze: the search from the entry. It reports success exactly when the
      board holds a route from the entry to the exit through PASSAGE cells; the
      cells it entered end VISITED, the exit CURRENT. */
  method TravelMaze(m: Maze, order: Pos -> seq<Candidate>)
    returns (found: bool, ghost path: seq<Pos>, ghost trace: seq<Pos>, ghost cuts: seq<int>)
    requires m.Valid() && SortsTowards(order, m.exit)
    modifies m.board
    ensures m.Valid()
    ensures Explored(old(m.Cells()), m.Cells(), m.rows, m.cols, m.entry, m.exit, found, path, trace)
    ensures m.entry != m.exit ==>
              TriesInOrder(old(m.Cells()), m.rows, m.cols, m.entry, m.exit, order(m.entry), 0, 1, trace, cuts, found)
    ensures |trace| > 1 ==>
              Adjacent(m.entry, trace[1]) &&
              forall d | PassageAt(old(m.Cells()), m.rows, m.cols, Step(m.entry, d, 1)) ::
                Distance(trace[1], m.exit) <= Distance(Step(m.entry, d, 1), m.exit)
    ensures found ==> Route(old(m.Cells()), m.rows, m.cols, path, m.entry, m.exit)
    ensures !found ==> forall r :: !Route(old(m.Cells()), m.rows, m.cols, r, m.entry, m.exit)
  {
    ghost var g0 := m.Cells();
    found, path, trace, cuts := Travel(m, m.entry, order, g0.Keys);
    if m.entry != m.exit {
      NearestFirst(g0, m.rows, m.cols, m.entry, m.exit, order(m.entry), trace, cuts, found);
    }
    ExploredInside(g0, m.Cells(), m.rows, m.cols, m.entry, m.exit, found, path, trace);
    PaintKeepsRing(g0, m.rows, m.cols, m.entry, m.exit, Seen(trace), m.exit);
    if !found {
      forall r ensures !Route(old(m.Cells()), m.rows, m.cols, r, m.entry, m.exit) {
        NotFoundMeansNoRoute(old(m.Cells()), m.Cells(), m.rows, m.cols, m.entry, m.exit, path, trace, r);
      }
    }
  }
}
