/** The order in which travel tries the four neighbours: a table of (direction,
    distance to the exit) pairs sorted by distance with std::sort. std::sort is
    not stable, so the solver accepts any arrangement of the table whose
    distances do not decrease; Arrange is one such arrangement. */
module Order {
  import opened Cells

  /** One row of travel's table: a direction and the distance it leads to. */
  datatype Candidate = Candidate(direction: Direction, distance: int)

  /** The table travel builds on `p` for the exit `e`, in source order. */
  function Table(p: Pos, e: Pos): (t: seq<Candidate>)
    ensures |t| == 4
    ensures forall i | 0 <= i < 4 :: t[i].direction == Directions[i]
  {
    [ Candidate(Up, Abs(p.row - 1 - e.row) + Abs(p.col - e.col)),
      Candidate(Down, Abs(p.row + 1 - e.row) + Abs(p.col - e.col)),
      Candidate(Left, Abs(p.row - e.row) + Abs(p.col - 1 - e.col)),
      Candidate(Right, Abs(p.row - e.row) + Abs(p.col + 1 - e.col)) ]
  }

  /** Each row holds the distance from the neighbour in its direction to the exit. */
  lemma TableDistances(p: Pos, e: Pos, i: int)
    requires 0 <= i < 4
    ensures Table(p, e)[i].distance == Distance(Step(p, Table(p, e)[i].direction, 1), e)
  {
  }

  predicate Sorted(es: seq<Candidate>)
  {
    forall i, j | 0 <= i < j < |es| :: es[i].distance <= es[j].distance
  }

  /** A possible outcome of sorting the table on `p`: the same four rows,
      distances non-decreasing, ties in any order. */
  predicate DistanceSorted(es: seq<Candidate>, p: Pos, e: Pos)
  {
    multiset(es) == multiset(Table(p, e)) && Sorted(es)
  }

  /** Every position gets an admissible arrangement of its table. */
  ghost predicate SortsTowards(order: Pos -> seq<Candidate>, e: Pos)
  {
    forall q :: DistanceSorted(order(q), q, e)
  }

  /** No row of `es` is nearer than `k`. */
  predicate NoNearer(k: int, es: seq<Candidate>)
  {
    forall i | 0 <= i < |es| :: k <= es[i].distance
  }

  /** Puts `x` before the first row that is strictly farther. */
  function Insert(x: Candidate, es: seq<Candidate>): (r: seq<Candidate>)
    requires Sorted(es)
    ensures Sorted(r)
    ensures multiset(r) == multiset(es) + multiset{x}
    ensures forall k: int :: NoNearer(k, es) && k <= x.distance ==> NoNearer(k, r)
  {
    if es == [] || x.distance <= es[0].distance then
      PrependSorted(x, es);
      [x] + es
    else
      var rest := Insert(x, es[1..]);
      assert es == [es[0]] + es[1..];
      assert NoNearer(es[0].distance, es[1..]);
      PrependSorted(es[0], rest);
      [es[0]] + rest
  }

  /** A row no farther than any row of a sorted list may go in front. */
  lemma PrependSorted(x: Candidate, es: seq<Candidate>)
    requires Sorted(es) && NoNearer(x.distance, es)
    ensures Sorted([x] + es)
  {
    var r := [x] + es;
    forall i, j | 0 <= i < j < |r| ensures r[i].distance <= r[j].distance {
      assert r[j] == es[j - 1];
      if i > 0 {
        assert r[i] == es[i - 1];
      }
    }
  }

  /** Insertion sort by distance: ties keep the table's order. */
  function Arrange(es: seq<Candidate>): (r: seq<Candidate>)
    ensures Sorted(r)
    ensures multiset(r) == multiset(es)
  {
    if es == [] then []
    else
      assert es == [es[0]] + es[1..];
      Insert(es[0], Arrange(es[1..]))
  }

  /** An admissible arrangement always exists. */
  lemma ArrangeIsDistanceSorted(p: Pos, e: Pos)
    ensures DistanceSorted(Arrange(Table(p, e)), p, e)
  {
  }

  /** Some row of `es` is for direction `d`. */
  predicate Offers(es: seq<Candidate>, d: Direction)
  {
    exists j :: 0 <= j < |es| && es[j].direction == d
  }

  /** An admissible arrangement has four rows, one per direction. */
  lemma DistanceSortedCovers(es: seq<Candidate>, p: Pos, e: Pos)
    requires DistanceSorted(es, p, e)
    ensures |es| == 4
    ensures forall d :: Offers(es, d)
  {
    assert |multiset(es)| == |multiset(Table(p, e))|;
    var t := Table(p, e);
    forall d ensures Offers(es, d) {
      var k := if d == Up then 0 else if d == Down then 1 else if d == Left then 2 else 3;
      assert t[k] in multiset(es);
      var j :| 0 <= j < |es| && es[j] == t[k];
    }
  }

  /** Every row of an admissible arrangement holds the distance from the
      neighbour in its direction to the exit. */
  lemma NeighbourDistances(es: seq<Candidate>, p: Pos, e: Pos)
    requires DistanceSorted(es, p, e)
    ensures forall k | 0 <= k < |es| :: es[k].distance == Distance(Step(p, es[k].direction, 1), e)
  {
    forall k | 0 <= k < |es| ensures es[k].distance == Distance(Step(p, es[k].direction, 1), e) {
      assert es[k] in multiset(Table(p, e));
      var i :| 0 <= i < 4 && Table(p, e)[i] == es[k];
      TableDistances(p, e, i);
    }
  }

  /** The distances of a table, in table order. */
  function Distances(es: seq<Candidate>): seq<int>
  {
    seq(|es|, i requires 0 <= i < |es| => es[i].distance)
  }

  lemma DistancesAppend(a: seq<Candidate>, b: seq<Candidate>)
    ensures Distances(a + b) == Distances(a) + Distances(b)
  {
  }

  /** Reordering the rows reorders their distances the same way. */
  lemma {:induction false} DistancesPermute(a: seq<Candidate>, b: seq<Candidate>)
    requires multiset(a) == multiset(b)
    ensures multiset(Distances(a)) == multiset(Distances(b))
    decreases |a|
  {
    if a == [] {
      assert b == [];
    } else {
      assert a[0] in multiset(b);
      var k :| 0 <= k < |b| && b[k] == a[0];
      Pick(b, k);
      var a' := a[1..];
      assert a == [a[0]] + a';
      assert multiset(a') == multiset(a) - multiset{a[0]};
      DistancesPermute(a', b[..k] + b[k + 1..]);
      DistancesAppend([a[0]], a');
      assert Distances([a[0]]) == [a[0].distance];
    }
  }

  /** Taking out the row at `k`. */
  lemma Pick(b: seq<Candidate>, k: int)
    requires 0 <= k < |b|
    ensures multiset(b[..k] + b[k + 1..]) == multiset(b) - multiset{b[k]}
    ensures multiset(Distances(b)) == multiset(Distances(b[..k] + b[k + 1..])) + multiset{b[k].distance}
  {
    var l, x, r := b[..k], b[k], b[k + 1..];
    assert b[k..] == [x] + r;
    assert b == l + b[k..];
    assert b == l + [x] + r;
    assert multiset(b) == multiset(l) + multiset{x} + multiset(r);
    assert multiset(l + r) == multiset(l) + multiset(r);
    DistancesAppend(l, [x]);
    DistancesAppend(l + [x], r);
    DistancesAppend(l, r);
    var dl, dr := Distances(l), Distances(r);
    assert Distances([x]) == [x.distance];
    assert Distances(b) == dl + [x.distance] + dr;
    assert multiset(Distances(b)) == multiset(dl) + multiset{x.distance} + multiset(dr);
    assert multiset(Distances(l + r)) == multiset(dl) + multiset(dr);
  }

  predicate Ascending(x: seq<int>)
  {
    forall i, j | 0 <= i < j < |x| :: x[i] <= x[j]
  }

  /** Two ascending lists with the same elements are equal. */
  lemma {:induction false} SortedEqual(x: seq<int>, y: seq<int>)
    requires Ascending(x) && Ascending(y)
    requires multiset(x) == multiset(y)
    ensures x == y
    decreases |x|
  {
    assert |x| == |multiset(x)| == |y|;
    if x != [] {
      SameLeast(x, y);
      SameRest(x, y);
      SortedEqual(x[1..], y[1..]);
      assert x == [x[0]] + x[1..] && y == [y[0]] + y[1..];
    }
  }

  /** The first element of an ascending list is its least. */
  lemma SameLeast(x: seq<int>, y: seq<int>)
    requires Ascending(x) && Ascending(y) && x != [] && y != []
    requires multiset(x) == multiset(y)
    ensures x[0] == y[0]
  {
    assert x[0] in multiset(y);
    var k :| 0 <= k < |y| && y[k] == x[0];
    assert y[0] in multiset(x);
    var l :| 0 <= l < |x| && x[l] == y[0];
  }

  lemma SameRest(x: seq<int>, y: seq<int>)
    requires x != [] && y != [] && x[0] == y[0]
    requires multiset(x) == multiset(y)
    ensures multiset(x[1..]) == multiset(y[1..])
  {
    assert x == [x[0]] + x[1..];
    assert y == [y[0]] + y[1..];
    assert multiset(x[1..]) == multiset(x) - multiset{x[0]};
    assert multiset(y[1..]) == multiset(y) - multiset{y[0]};
  }

  /** Whatever order the sort leaves equal distances in, the k-th neighbour
      tried is at the same distance from the exit. */
  lemma TieBreakIrrelevant(a: seq<Candidate>, b: seq<Candidate>, p: Pos, e: Pos)
    requires DistanceSorted(a, p, e) && DistanceSorted(b, p, e)
    ensures |a| == |b| == 4
    ensures forall i | 0 <= i < 4 :: a[i].distance == b[i].distance
  {
    assert |a| == |multiset(a)| == |multiset(b)| == |b| == 4;
    DistancesPermute(a, b);
    var da, db := Distances(a), Distances(b);
    DistancesAscending(a);
    DistancesAscending(b);
    SortedEqual(da, db);
    forall i | 0 <= i < 4 ensures a[i].distance == b[i].distance {
      assert da[i] == a[i].distance && db[i] == b[i].distance;
    }
  }

  lemma DistancesAscending(a: seq<Candidate>)
    requires Sorted(a)
    ensures Ascending(Distances(a))
  {
  }
}
