/** What the depth-first solver (travelMaze) does to a board, stated on board
    snapshots: the cells it has entered are painted, a reported route is a real
    route through PASSAGE cells, and a failed search has sealed off everything
    the start can reach. */
module Exploration {
  import opened Cells
  import opened Grid
  import opened Order

  /** The mark updateMaze leaves on a cell: CURRENT stays on the exit only. */
  function MarkOf(q: Pos, e: Pos): (t: CellType)
    ensures t == Current <==> q == e
    ensures t == Current || t == Visited
  {
    if q == e then Current else Visited
  }

  /** The board once every cell of `T` has been through updateMaze: each cell of `T`
      holds its mark, every other cell is as it was. */
  ghost function Paint(g: Grid, T: set<Pos>, e: Pos): (h: Grid)
    ensures h.Keys == g.Keys
    ensures forall q | q in g && q in T :: h[q] == MarkOf(q, e)
    ensures forall q | q in g && q !in T :: h[q] == g[q]
  {
    map q | q in g :: if q in T then MarkOf(q, e) else g[q]
  }

  /** The cells the solver may still step on. */
  ghost function Passages(g: Grid, rows: int, cols: int): set<Pos>
  {
    set q | q in g && PassageAt(g, rows, cols, q)
  }

  /** Every PASSAGE of `g` is in `live`: the solver's termination measure. */
  ghost predicate Within(g: Grid, rows: int, cols: int, live: set<Pos>)
  {
    forall q | PassageAt(g, rows, cols, q) :: q in live
  }

  function Seen(s: seq<Pos>): set<Pos>
  {
    set x | x in s
  }

  predicate Walk(path: seq<Pos>)
  {
    forall i | 0 <= i < |path| - 1 :: Adjacent(path[i], path[i + 1])
  }

  predicate Distinct(s: seq<Pos>)
  {
    forall i, j | 0 <= i < j < |s| :: s[i] != s[j]
  }

  /** A route from `s` to `e`: orthogonal steps, no cell twice, and every cell
      after `s` a PASSAGE of `g`. */
  ghost predicate Route(g: Grid, rows: int, cols: int, path: seq<Pos>, s: Pos, e: Pos)
  {
    |path| >= 1 && path[0] == s && path[|path| - 1] == e && Walk(path) && Distinct(path) &&
    forall i | 1 <= i < |path| :: PassageAt(g, rows, cols, path[i])
  }

  /** No cell of `T` has a PASSAGE neighbour left. */
  ghost predicate Closed(g: Grid, rows: int, cols: int, T: set<Pos>)
  {
    forall x, d | x in T :: !PassageAt(g, rows, cols, Step(x, d, 1))
  }

  /** Cells entered from a PASSAGE neighbour: each was a PASSAGE of `g`, none twice. */
  ghost predicate Fresh(g: Grid, rows: int, cols: int, t: seq<Pos>)
  {
    Distinct(t) && forall k | 0 <= k < |t| :: PassageAt(g, rows, cols, t[k])
  }

  /** What travel(s) has done, from board `g0` to board `g1`: it entered the cells
      of `trace` (`s` first), painted exactly those, and either reports a route to
      the exit inside them, or never reached the exit and left no PASSAGE next to
      any of them. */
  ghost predicate Explored(g0: Grid, g1: Grid, rows: int, cols: int, s: Pos, e: Pos,
                           found: bool, path: seq<Pos>, trace: seq<Pos>)
  {
    |trace| >= 1 && trace[0] == s && s !in trace[1..] && Fresh(g0, rows, cols, trace[1..]) &&
    InMaze(rows, cols, s) &&
    g1 == Paint(g0, Seen(trace), e) &&
    (found ==> Route(g0, rows, cols, path, s, e) && Seen(path) <= Seen(trace)) &&
    (!found ==> e !in trace && Closed(g1, rows, cols, Seen(trace)))
  }

  /** What nextTo(d) has done when standing on `p`, with `n` the neighbour in
      direction `d`: like Explored for travel(n) when `n` was a PASSAGE, nothing
      otherwise; a reported route is prefixed with `p`. */
  ghost predicate Tried(g0: Grid, g1: Grid, rows: int, cols: int, p: Pos, n: Pos, e: Pos,
                        found: bool, path: seq<Pos>, t: seq<Pos>)
  {
    Fresh(g0, rows, cols, t) && g1 == Paint(g0, Seen(t), e) &&
    (PassageAt(g0, rows, cols, n) ==> |t| >= 1 && t[0] == n) &&
    (!PassageAt(g0, rows, cols, n) ==> t == [] && !found) &&
    (found ==> e in t) &&
    (found ==> |path| >= 2 && path[0] == p && PassageAt(g0, rows, cols, n) &&
               Route(g0, rows, cols, path[1..], n, e) && Seen(path[1..]) <= Seen(t)) &&
    (!found ==> e !in t && Closed(g1, rows, cols, Seen(t)) && !PassageAt(g1, rows, cols, n))
  }

  /** travel(p) part-way through its nextTo calls: the first `i` directions of
      `ds` have been tried and lead nowhere. */
  ghost predicate Partial(g0: Grid, g: Grid, rows: int, cols: int, p: Pos, e: Pos,
                          ds: seq<Candidate>, i: int, trace: seq<Pos>)
  {
    |trace| >= 1 && trace[0] == p && p !in trace[1..] && Fresh(g0, rows, cols, trace[1..]) &&
    InMaze(rows, cols, p) && e !in trace &&
    g == Paint(g0, Seen(trace), e) &&
    Closed(g, rows, cols, Seen(trace[1..])) &&
    0 <= i <= |ds| && forall j | 0 <= j < i :: !PassageAt(g, rows, cols, Step(p, ds[j].direction, 1))
  }

  /** The order of travel(p)'s nextTo calls, from the `i`-th direction of `ds` on,
      once the first `from` cells of `T` have been entered: the directions are
      taken in turn; a neighbour that is still a PASSAGE on the board at that
      moment is entered next, and the search from it fills `T` up to the next of
      the `cuts`; when that search reached the exit nothing more is entered and
      travel succeeds; after the last direction travel fails. */
  ghost predicate TriesInOrder(g0: Grid, rows: int, cols: int, p: Pos, e: Pos, ds: seq<Candidate>,
                               i: int, from: int, T: seq<Pos>, cuts: seq<int>, found: bool)
    decreases |ds| - i
  {
    0 <= i <= |ds| && 0 <= from <= |T| &&
    if i == |ds| then from == |T| && cuts == [] && !found
    else if !PassageAt(Paint(g0, Seen(T[..from]), e), rows, cols, Step(p, ds[i].direction, 1)) then
      TriesInOrder(g0, rows, cols, p, e, ds, i + 1, from, T, cuts, found)
    else
      from < |T| && T[from] == Step(p, ds[i].direction, 1) && cuts != [] && from < cuts[0] <= |T| &&
      if e in T[from..cuts[0]] then found && cuts == [|T|]
      else TriesInOrder(g0, rows, cols, p, e, ds, i + 1, cuts[0], T, cuts[1..], found)
  }

  /** Painting only ever removes PASSAGE cells: exactly the painted ones. */
  lemma PassagesAfterPaint(g: Grid, rows: int, cols: int, T: set<Pos>, e: Pos)
    ensures Passages(Paint(g, T, e), rows, cols) == Passages(g, rows, cols) - T
    ensures forall q :: PassageAt(Paint(g, T, e), rows, cols, q) <==> PassageAt(g, rows, cols, q) && q !in T
  {
  }

  /** Painting `p` takes it out of the cells the search can still enter. */
  lemma PaintedWithin(g: Grid, rows: int, cols: int, live: set<Pos>, T: set<Pos>, e: Pos, p: Pos)
    requires Within(g, rows, cols, live) && p in T
    ensures Within(Paint(g, T, e), rows, cols, live - {p})
  {
    PassagesAfterPaint(g, rows, cols, T, e);
  }

  /** Painting twice is painting the union. */
  lemma PaintTwice(g: Grid, A: set<Pos>, B: set<Pos>, e: Pos)
    ensures Paint(Paint(g, A, e), B, e) == Paint(g, A + B, e)
  {
  }

  /** Painting an interior set keeps the border ring. */
  lemma PaintKeepsRing(g: Grid, rows: int, cols: int, entry: Pos, exit: Pos, T: set<Pos>, e: Pos)
    requires RingIntact(g, rows, cols, entry, exit)
    requires forall x | x in T :: InMaze(rows, cols, x)
    ensures RingIntact(Paint(g, T, e), rows, cols, entry, exit)
  {
    forall q | OnRing(rows, cols, q) ensures q in Paint(g, T, e) && Paint(g, T, e)[q] == RingCell(rows, cols, entry, exit, q) {
      assert q !in T;
    }
  }

  /** Everything a search paints lies inside the maze. */
  lemma ExploredInside(g0: Grid, g1: Grid, rows: int, cols: int, s: Pos, e: Pos,
                       found: bool, path: seq<Pos>, trace: seq<Pos>)
    requires Explored(g0, g1, rows, cols, s, e, found, path, trace)
    ensures forall x | x in Seen(trace) :: InMaze(rows, cols, x)
  {
    forall x | x in Seen(trace) ensures InMaze(rows, cols, x) {
      var k :| 0 <= k < |trace| && trace[k] == x;
      if k > 0 {
        assert trace[1..][k - 1] == x;
      }
    }
  }

  /** The exit is never left VISITED: a painted exit holds CURRENT, and every
      other painted cell VISITED. */
  lemma PaintMarks(g: Grid, T: set<Pos>, e: Pos, q: Pos)
    requires q in g && q in T
    ensures Paint(g, T, e)[q] == Visited <==> q != e
    ensures Paint(g, T, e)[q] == Current <==> q == e
  {
  }

  lemma ClosedAfterPaint(g: Grid, rows: int, cols: int, T: set<Pos>, U: set<Pos>, e: Pos)
    requires Closed(g, rows, cols, T)
    ensures Closed(Paint(g, U, e), rows, cols, T)
  {
    PassagesAfterPaint(g, rows, cols, U, e);
  }

  /** updateMaze on the first cell of travel(p), p not the exit. */
  lemma PartialStart(g0: Grid, rows: int, cols: int, p: Pos, e: Pos, ds: seq<Candidate>)
    requires InMaze(rows, cols, p) && p in g0 && p != e
    ensures Partial(g0, g0[p := MarkOf(p, e)], rows, cols, p, e, ds, 0, [p])
  {
    assert Seen([p]) == {p};
    assert g0[p := MarkOf(p, e)] == Paint(g0, {p}, e);
  }

  /** travel(p) has marked `p` and goes on to its nextTo calls: `p` leaves the
      cells that may still be entered. */
  lemma Started(g0: Grid, rows: int, cols: int, p: Pos, e: Pos, ds: seq<Candidate>, live: set<Pos>)
    requires InMaze(rows, cols, p) && p in g0 && p != e
    requires Within(g0, rows, cols, live)
    ensures Partial(g0, g0[p := MarkOf(p, e)], rows, cols, p, e, ds, 0, [p])
    ensures Within(g0[p := MarkOf(p, e)], rows, cols, live - {p})
    ensures |live - {p}| == if p in live then |live| - 1 else |live|
  {
    PartialStart(g0, rows, cols, p, e, ds);
    assert Seen([p]) == {p};
    PaintedWithin(g0, rows, cols, live, {p}, e, p);
  }

  /** updateMaze on the first cell of travel(p), p the exit. */
  lemma ArrivedAtExit(g0: Grid, rows: int, cols: int, p: Pos)
    requires InMaze(rows, cols, p) && p in g0
    ensures Explored(g0, g0[p := MarkOf(p, p)], rows, cols, p, p, true, [p], [p])
  {
    assert Seen([p]) == {p};
    assert g0[p := MarkOf(p, p)] == Paint(g0, {p}, p);
  }

  /** Every cell a fresh trace enters lies outside the already painted `trace`. */
  lemma FreshOutside(g0: Grid, g: Grid, rows: int, cols: int, trace: seq<Pos>, t: seq<Pos>, e: Pos)
    requires g == Paint(g0, Seen(trace), e)
    requires Fresh(g, rows, cols, t)
    ensures forall k | 0 <= k < |t| :: t[k] !in trace && PassageAt(g0, rows, cols, t[k])
  {
    PassagesAfterPaint(g0, rows, cols, Seen(trace), e);
    forall k | 0 <= k < |t| ensures t[k] !in trace && PassageAt(g0, rows, cols, t[k]) {
      assert PassageAt(g, rows, cols, t[k]);
    }
  }

  /** Appending the cells of a later, fresh trace keeps the trace fresh. */
  lemma FreshAppend(g0: Grid, g: Grid, rows: int, cols: int, trace: seq<Pos>, t: seq<Pos>, e: Pos)
    requires |trace| >= 1 && trace[0] !in trace[1..] && Fresh(g0, rows, cols, trace[1..])
    requires g == Paint(g0, Seen(trace), e)
    requires Fresh(g, rows, cols, t)
    ensures (trace + t)[0] == trace[0] && trace[0] !in (trace + t)[1..]
    ensures Fresh(g0, rows, cols, (trace + t)[1..])
    ensures Seen(trace + t) == Seen(trace) + Seen(t)
  {
    FreshOutside(g0, g, rows, cols, trace, t, e);
    var u := (trace + t)[1..];
    assert u == trace[1..] + t;
    forall i, j | 0 <= i < j < |u| ensures u[i] != u[j] {
      if j >= |trace| - 1 && i < |trace| - 1 {
        assert u[i] == trace[i + 1];
        assert u[j] == t[j - |trace| + 1];
      }
    }
    assert trace[0] !in t;
  }

  /** nextTo(d) came back empty-handed: travel(p) may go on with the next direction. */
  lemma PartialStep(g0: Grid, g: Grid, g': Grid, rows: int, cols: int, p: Pos, e: Pos,
                    ds: seq<Candidate>, i: int, trace: seq<Pos>, path: seq<Pos>, t: seq<Pos>,
                    live: set<Pos>)
    requires Partial(g0, g, rows, cols, p, e, ds, i, trace) && i < |ds|
    requires Tried(g, g', rows, cols, p, Step(p, ds[i].direction, 1), e, false, path, t)
    requires Within(g, rows, cols, live)
    ensures Partial(g0, g', rows, cols, p, e, ds, i + 1, trace + t)
    ensures Within(g', rows, cols, live)
  {
    FreshAppend(g0, g, rows, cols, trace, t, e);
    PaintTwice(g0, Seen(trace), Seen(t), e);
    PassagesAfterPaint(g, rows, cols, Seen(t), e);
    var u := (trace + t)[1..];
    assert u == trace[1..] + t;
    assert Seen(u) == Seen(trace[1..]) + Seen(t);
    ClosedAfterPaint(g, rows, cols, Seen(trace[1..]), Seen(t), e);
  }

  /** nextTo(d) found the exit: travel(p) reports the route through `p`. */
  lemma PartialFound(g0: Grid, g: Grid, g': Grid, rows: int, cols: int, p: Pos, e: Pos,
                     ds: seq<Candidate>, i: int, trace: seq<Pos>, path: seq<Pos>, t: seq<Pos>)
    requires Partial(g0, g, rows, cols, p, e, ds, i, trace) && i < |ds|
    requires Tried(g, g', rows, cols, p, Step(p, ds[i].direction, 1), e, true, path, t)
    ensures Explored(g0, g', rows, cols, p, e, true, path, trace + t)
  {
    FreshAppend(g0, g, rows, cols, trace, t, e);
    PaintTwice(g0, Seen(trace), Seen(t), e);
    ExtendRoute(g0, g, rows, cols, p, e, Seen(trace), path);
    assert path == [p] + path[1..];
    assert Seen(path) == {p} + Seen(path[1..]);
  }

  /** A route found from a PASSAGE neighbour of the painted cell `p`, with `p`
      in front, is a route on the board before painting. */
  lemma ExtendRoute(g0: Grid, g: Grid, rows: int, cols: int, p: Pos, e: Pos, T: set<Pos>, path: seq<Pos>)
    requires g == Paint(g0, T, e) && p in T
    requires |path| >= 2 && path[0] == p && Adjacent(p, path[1]) && PassageAt(g, rows, cols, path[1])
    requires Route(g, rows, cols, path[1..], path[1], e)
    ensures Route(g0, rows, cols, path, p, e)
  {
    PassagesAfterPaint(g0, rows, cols, T, e);
    forall i | 1 <= i < |path| ensures PassageAt(g0, rows, cols, path[i]) && path[i] != p {
      assert path[1..][i - 1] == path[i];
    }
    assert Walk(path) by {
      forall i | 0 <= i < |path| - 1 ensures Adjacent(path[i], path[i + 1]) {
        if i > 0 {
          assert path[1..][i - 1] == path[i] && path[1..][i] == path[i + 1];
        }
      }
    }
    assert Distinct(path) by {
      forall i, j | 0 <= i < j < |path| ensures path[i] != path[j] {
        if i > 0 {
          assert path[1..][i - 1] == path[i] && path[1..][j - 1] == path[j];
        }
      }
    }
  }

  /** All four directions tried without success: travel(p) has sealed its region. */
  lemma PartialDone(g0: Grid, g: Grid, rows: int, cols: int, p: Pos, e: Pos,
                    ds: seq<Candidate>, trace: seq<Pos>, path: seq<Pos>)
    requires Partial(g0, g, rows, cols, p, e, ds, |ds|, trace)
    requires forall d :: Offers(ds, d)
    ensures Explored(g0, g, rows, cols, p, e, false, path, trace)
  {
    forall x, d | x in Seen(trace) ensures !PassageAt(g, rows, cols, Step(x, d, 1)) {
      if x == p {
        assert Offers(ds, d);
        var j :| 0 <= j < |ds| && ds[j].direction == d;
      }
    }
    assert trace == [p] + trace[1..];
    assert Seen(trace) == {p} + Seen(trace[1..]);
  }

  /** nextTo on a neighbour that is not a PASSAGE: nothing happens. */
  lemma TriedBlocked(g: Grid, rows: int, cols: int, p: Pos, n: Pos, e: Pos)
    requires !PassageAt(g, rows, cols, n)
    ensures Tried(g, g, rows, cols, p, n, e, false, [], [])
  {
    assert Seen([]) == {};
    assert g == Paint(g, {}, e);
  }

  /** nextTo after travel(n) found the exit. */
  lemma TriedFound(g0: Grid, g1: Grid, rows: int, cols: int, p: Pos, n: Pos, e: Pos,
                   sub: seq<Pos>, t: seq<Pos>)
    requires PassageAt(g0, rows, cols, n)
    requires Explored(g0, g1, rows, cols, n, e, true, sub, t)
    ensures Tried(g0, g1, rows, cols, p, n, e, true, [p] + sub, t)
  {
    assert t == [n] + t[1..];
    assert ([p] + sub)[1..] == sub;
  }

  /** nextTo after travel(n) gave up: updateMaze(n) leaves the board as it is. */
  lemma TriedFailed(g0: Grid, g1: Grid, rows: int, cols: int, p: Pos, n: Pos, e: Pos,
                    sub: seq<Pos>, t: seq<Pos>)
    requires PassageAt(g0, rows, cols, n)
    requires Explored(g0, g1, rows, cols, n, e, false, sub, t)
    ensures g1[n := MarkOf(n, e)] == g1
    ensures Tried(g0, g1[n := MarkOf(n, e)], rows, cols, p, n, e, false, [], t)
  {
    assert t == [n] + t[1..];
    PaintMarks(g0, Seen(t), e, n);
    PassagesAfterPaint(g0, rows, cols, Seen(t), e);
  }

  /** travel(p) has tried every direction: it entered nothing more. */
  lemma TriesDone(g0: Grid, rows: int, cols: int, p: Pos, e: Pos, ds: seq<Candidate>, trace: seq<Pos>)
    requires |ds| == 4
    ensures TriesInOrder(g0, rows, cols, p, e, ds, 4, |trace|, trace, [], false)
  {
  }

  /** nextTo on the `i`-th direction reached the exit: travel(p) stops there. */
  lemma TriesFound(g0: Grid, g: Grid, g': Grid, rows: int, cols: int, p: Pos, e: Pos,
                   ds: seq<Candidate>, i: int, trace: seq<Pos>, path: seq<Pos>, t: seq<Pos>)
    requires 0 <= i < |ds| && g == Paint(g0, Seen(trace), e)
    requires Tried(g, g', rows, cols, p, Step(p, ds[i].direction, 1), e, true, path, t)
    ensures trace <= trace + t
    ensures TriesInOrder(g0, rows, cols, p, e, ds, i, |trace|, trace + t, [|trace + t|], true)
  {
    var T := trace + t;
    assert T[..|trace|] == trace && T[|trace|..|T|] == t;
  }

  /** nextTo on the `i`-th direction did not reach the exit: what travel(p) does
      next is what it does from the next direction on. */
  lemma TriesFailed(g0: Grid, g: Grid, g': Grid, rows: int, cols: int, p: Pos, e: Pos,
                    ds: seq<Candidate>, i: int, trace: seq<Pos>, path: seq<Pos>, t: seq<Pos>,
                    T: seq<Pos>, cuts: seq<int>, found: bool)
    requires 0 <= i < |ds| && g == Paint(g0, Seen(trace), e)
    requires Tried(g, g', rows, cols, p, Step(p, ds[i].direction, 1), e, false, path, t)
    requires trace + t <= T
    requires TriesInOrder(g0, rows, cols, p, e, ds, i + 1, |trace + t|, T, cuts, found)
    ensures trace <= T
    ensures TriesInOrder(g0, rows, cols, p, e, ds, i, |trace|, T,
                         if PassageAt(g, rows, cols, Step(p, ds[i].direction, 1)) then [|trace + t|] + cuts else cuts,
                         found)
  {
    assert T[..|trace|] == (trace + t)[..|trace|] == trace;
    if PassageAt(g, rows, cols, Step(p, ds[i].direction, 1)) {
      assert T[|trace|..|trace + t|] == t;
      assert ([|trace + t|] + cuts)[1..] == cuts;
    }
  }

  /** Of the directions from `i` on, travel(p) first enters the earliest whose
      neighbour is a PASSAGE once `p` is marked, and enters nothing when there is
      none. */
  lemma {:induction false} FirstTry(g0: Grid, rows: int, cols: int, p: Pos, e: Pos, ds: seq<Candidate>,
                                    i: int, T: seq<Pos>, cuts: seq<int>, found: bool)
    requires TriesInOrder(g0, rows, cols, p, e, ds, i, 1, T, cuts, found)
    ensures |T| == 1 ==>
              forall k | i <= k < |ds| :: !PassageAt(Paint(g0, Seen(T[..1]), e), rows, cols, Step(p, ds[k].direction, 1))
    ensures |T| > 1 ==>
              exists j | i <= j < |ds| :: T[1] == Step(p, ds[j].direction, 1) &&
                PassageAt(Paint(g0, Seen(T[..1]), e), rows, cols, T[1]) &&
                forall k | i <= k < j :: !PassageAt(Paint(g0, Seen(T[..1]), e), rows, cols, Step(p, ds[k].direction, 1))
    decreases |ds| - i
  {
    if i < |ds| && !PassageAt(Paint(g0, Seen(T[..1]), e), rows, cols, Step(p, ds[i].direction, 1)) {
      FirstTry(g0, rows, cols, p, e, ds, i + 1, T, cuts, found);
    }
  }

  /** Marking `p` does not change whether one of its neighbours is a PASSAGE. */
  lemma MarkedNeighbours(g0: Grid, rows: int, cols: int, p: Pos, e: Pos)
    ensures forall d :: Adjacent(p, Step(p, d, 1))
    ensures forall d :: PassageAt(Paint(g0, {p}, e), rows, cols, Step(p, d, 1)) <==> PassageAt(g0, rows, cols, Step(p, d, 1))
  {
    PassagesAfterPaint(g0, rows, cols, {p}, e);
    forall d ensures Step(p, d, 1) != p && Adjacent(p, Step(p, d, 1)) {
    }
  }

  /** The first cell travel(p) enters is a PASSAGE neighbour of `p` no farther
      from the exit than any other PASSAGE neighbour. */
  lemma FirstEnteredNearest(g0: Grid, rows: int, cols: int, p: Pos, e: Pos, ds: seq<Candidate>,
                            T: seq<Pos>, cuts: seq<int>, found: bool)
    requires DistanceSorted(ds, p, e)
    requires |T| > 1 && T[0] == p
    requires TriesInOrder(g0, rows, cols, p, e, ds, 0, 1, T, cuts, found)
    ensures Adjacent(p, T[1]) && PassageAt(g0, rows, cols, T[1])
    ensures forall d | PassageAt(g0, rows, cols, Step(p, d, 1)) :: Distance(T[1], e) <= Distance(Step(p, d, 1), e)
  {
    DistanceSortedCovers(ds, p, e);
    NeighbourDistances(ds, p, e);
    FirstTry(g0, rows, cols, p, e, ds, 0, T, cuts, found);
    assert T[..1] == [p] && Seen([p]) == {p};
    var g1 := Paint(g0, {p}, e);
    MarkedNeighbours(g0, rows, cols, p, e);
    var j :| 0 <= j < |ds| && T[1] == Step(p, ds[j].direction, 1) && PassageAt(g1, rows, cols, T[1]) &&
             forall k | 0 <= k < j :: !PassageAt(g1, rows, cols, Step(p, ds[k].direction, 1));
    forall d | PassageAt(g0, rows, cols, Step(p, d, 1)) ensures Distance(T[1], e) <= Distance(Step(p, d, 1), e) {
      var k :| 0 <= k < |ds| && ds[k].direction == d;
      assert PassageAt(g1, rows, cols, Step(p, ds[k].direction, 1));
    }
  }

  /** travel(p) enters nothing only when `p` has no PASSAGE neighbour. */
  lemma NoneEntered(g0: Grid, rows: int, cols: int, p: Pos, e: Pos, ds: seq<Candidate>,
                    T: seq<Pos>, cuts: seq<int>, found: bool)
    requires DistanceSorted(ds, p, e)
    requires T == [p]
    requires TriesInOrder(g0, rows, cols, p, e, ds, 0, 1, T, cuts, found)
    ensures forall d :: !PassageAt(g0, rows, cols, Step(p, d, 1))
  {
    DistanceSortedCovers(ds, p, e);
    FirstTry(g0, rows, cols, p, e, ds, 0, T, cuts, found);
    assert T[..1] == [p] && Seen([p]) == {p};
    MarkedNeighbours(g0, rows, cols, p, e);
    forall d ensures !PassageAt(g0, rows, cols, Step(p, d, 1)) {
      var k :| 0 <= k < |ds| && ds[k].direction == d;
    }
  }

  /** travel(p) tries the neighbours nearest to the exit first: the first cell it
      enters is a PASSAGE neighbour of `p` no farther from the exit than any other
      PASSAGE neighbour, and it enters one exactly when `p` has one. */
  lemma NearestFirst(g0: Grid, rows: int, cols: int, p: Pos, e: Pos, ds: seq<Candidate>,
                     T: seq<Pos>, cuts: seq<int>, found: bool)
    requires DistanceSorted(ds, p, e)
    requires |T| >= 1 && T[0] == p
    requires TriesInOrder(g0, rows, cols, p, e, ds, 0, 1, T, cuts, found)
    ensures |T| > 1 <==> exists d :: PassageAt(g0, rows, cols, Step(p, d, 1))
    ensures |T| > 1 ==>
              Adjacent(p, T[1]) && PassageAt(g0, rows, cols, T[1]) &&
              forall d | PassageAt(g0, rows, cols, Step(p, d, 1)) :: Distance(T[1], e) <= Distance(Step(p, d, 1), e)
  {
    if |T| > 1 {
      FirstEnteredNearest(g0, rows, cols, p, e, ds, T, cuts, found);
      assert PassageAt(g0, rows, cols, Step(p, DirectionTo(p, T[1]), 1));
    } else {
      assert T == [p];
      NoneEntered(g0, rows, cols, p, e, ds, T, cuts, found);
    }
  }

  /** A route that starts inside a closed painted region never leaves it. */
  lemma {:induction false} RouteStaysInside(g0: Grid, rows: int, cols: int, T: set<Pos>, e: Pos,
                                            path: seq<Pos>, s: Pos, i: nat)
    requires Closed(Paint(g0, T, e), rows, cols, T)
    requires Route(g0, rows, cols, path, s, e) && s in T
    requires i < |path|
    ensures path[i] in T
  {
    if i > 0 {
      RouteStaysInside(g0, rows, cols, T, e, path, s, i - 1);
      var d := DirectionTo(path[i - 1], path[i]);
      PassagesAfterPaint(g0, rows, cols, T, e);
      assert !PassageAt(Paint(g0, T, e), rows, cols, Step(path[i - 1], d, 1));
    }
  }

  /** A search that fails from `s` proves there is no route from `s` to the exit. */
  lemma NotFoundMeansNoRoute(g0: Grid, g1: Grid, rows: int, cols: int, s: Pos, e: Pos,
                             path: seq<Pos>, trace: seq<Pos>, r: seq<Pos>)
    requires Explored(g0, g1, rows, cols, s, e, false, path, trace)
    ensures !Route(g0, rows, cols, r, s, e)
  {
    if Route(g0, rows, cols, r, s, e) {
      RouteStaysInside(g0, rows, cols, Seen(trace), e, r, s, |r| - 1);
    }
  }
}
