/** SimpleMaze::generate: recursive division. The board starts all PASSAGE inside
    the ring; `devide` draws a WALL cross through a rectangle, opens a gap in
    three of the cross's four arms and recurses into the four quarters. The
    random engine is an oracle `rand`: the k-th number drawn is `rand(k)`. */
module Division {
  import opened Cells
  import opened Grid
  import opened Mazes

  /** The rows top..bottom and columns left..right, bounds included. */
  datatype Rect = Rect(top: int, bottom: int, left: int, right: int)

  predicate InRect(p: Pos, box: Rect)
  {
    box.top <= p.row <= box.bottom && box.left <= p.col <= box.right
  }

  /** The rectangles `devide` is called with: inside the ring, non-empty, with
      odd bounds, so that they start and end on lattice rows and columns. */
  predicate Region(rows: int, cols: int, box: Rect)
  {
    1 <= box.top <= box.bottom <= rows - 2 && 1 <= box.left <= box.right <= cols - 2 &&
    Odd(box.top) && Odd(box.bottom) && Odd(box.left) && Odd(box.right)
  }

  /** The rectangle of devide's first call: the whole interior. */
  function Interior(rows: int, cols: int): (box: Rect)
    ensures ValidDims(rows, cols) ==> Region(rows, cols, box)
    ensures forall p :: InRect(p, box) <==> InMaze(rows, cols, p)
  {
    assert ValidDims(rows, cols) ==> (rows - 2) % 2 == 1 && (cols - 2) % 2 == 1 by {
      if ValidDims(rows, cols) {
        assert rows - 2 == rows + (-1) * 2 && cols - 2 == cols + (-1) * 2;
      }
    }
    Rect(1, rows - 2, 1, cols - 2)
  }

  /** crossPointRow / crossPointCol: `lo + draw % ((hi - lo) / 2) * 2 + 1`, an even
      line strictly between the odd bounds. */
  function CrossLine(lo: int, hi: int, draw: nat): (c: int)
    requires Odd(lo) && Odd(hi) && lo < hi
    ensures lo < c < hi && !Odd(c)
  {
    var j := draw % ((hi - lo) / 2);
    assert (lo + j * 2 + 1) % 2 == 0 by {
      assert lo + j * 2 + 1 == (lo + 1) + 2 * j;
    }
    lo + j * 2 + 1
  }

  /** Every even line strictly between the bounds is drawn by some number. */
  lemma CrossLineReaches(lo: int, hi: int, c: int)
    requires Odd(lo) && Odd(hi) && lo < c < hi && !Odd(c)
    ensures exists draw: nat :: CrossLine(lo, hi, draw) == c
  {
    var a, b, d := c / 2, lo / 2, hi / 2;
    assert c == 2 * a && lo == 2 * b + 1 && hi == 2 * d + 1;
    var j := a - b - 1;
    assert (hi - lo) / 2 == d - b by {
      assert hi - lo == 2 * (d - b);
    }
    assert 0 <= j < d - b;
    assert CrossLine(lo, hi, j) == c by {
      assert j % (d - b) == j;
    }
  }

  /** pos[0] and pos[2]: `lo + draw % (cross - lo) / 2 * 2`, an odd line from the
      low bound up to, not including, the cross line. */
  function LowOpening(lo: int, cross: int, draw: nat): (o: int)
    requires Odd(lo) && lo < cross
    ensures lo <= o < cross && Odd(o)
  {
    var x := draw % (cross - lo);
    assert (lo + x / 2 * 2) % 2 == 1 by {
      assert lo + x / 2 * 2 == lo + 2 * (x / 2);
    }
    lo + x / 2 * 2
  }

  /** pos[1] and pos[3]: `hi - draw % (hi - cross) / 2 * 2`, an odd line from just
      past the cross line up to the high bound. */
  function HighOpening(cross: int, hi: int, draw: nat): (o: int)
    requires Odd(hi) && cross < hi
    ensures cross < o <= hi && Odd(o)
  {
    var x := draw % (hi - cross);
    assert (hi - x / 2 * 2) % 2 == 1 by {
      assert hi - x / 2 * 2 == hi - 2 * (x / 2);
    }
    hi - x / 2 * 2
  }

  /** Every odd line below the cross line can be the low opening. */
  lemma LowOpeningReaches(lo: int, cross: int, o: int)
    requires Odd(lo) && lo <= o < cross && Odd(o)
    ensures exists draw: nat :: LowOpening(lo, cross, draw) == o
  {
    var x := o - lo;
    assert x % 2 == 0 by {
      assert o == lo + x;
    }
    assert LowOpening(lo, cross, x) == o by {
      assert 0 <= x < cross - lo;
      assert x % (cross - lo) == x;
      assert x / 2 * 2 == x;
    }
  }

  /** Every odd line above the cross line can be the high opening. */
  lemma HighOpeningReaches(cross: int, hi: int, o: int)
    requires Odd(hi) && cross < o <= hi && Odd(o)
    ensures exists draw: nat :: HighOpening(cross, hi, draw) == o
  {
    var x := hi - o;
    assert x % 2 == 0 by {
      assert hi == o + x;
    }
    assert HighOpening(cross, hi, x) == o by {
      assert 0 <= x < hi - cross;
      assert x % (hi - cross) == x;
      assert x / 2 * 2 == x;
    }
  }

  /** One division of a rectangle: the cross lines, the four opening positions
      pos[0..3] and notThrough, the arm left without a gap. */
  datatype Cut = Cut(row: int, col: int, pos: seq<int>, shut: int)

  /** The four opening cells, in the order of `pos`: on the upper and lower arm of
      the cross column, then on the left and right arm of the cross row. */
  function Openings(c: Cut): (ops: seq<Pos>)
    requires |c.pos| == 4
    ensures |ops| == 4
  {
    [Pos(c.pos[0], c.col), Pos(c.pos[1], c.col), Pos(c.row, c.pos[2]), Pos(c.row, c.pos[3])]
  }

  /** Of a well placed cut, opening `k` lies on arm `k` of the cross inside the
      rectangle, and on no other arm. */
  lemma OpeningsOnArms(box: Rect, c: Cut, k: int)
    requires WellPlaced(box, c) && 0 <= k < 4
    ensures OnArm(Openings(c)[k], box, c, k) && OnCross(Openings(c)[k], box, c)
    ensures forall j | 0 <= j < 4 && j != k :: !OnArm(Openings(c)[k], box, c, j)
  {
  }

  /** What the seven draws of one `devide` call produce, in the source's order:
      crossPointRow, crossPointCol, notThrough, then pos[0..3]. */
  function DrawCut(box: Rect, rand: nat -> nat, tick: nat): (c: Cut)
    requires Odd(box.top) && Odd(box.bottom) && Odd(box.left) && Odd(box.right)
    requires box.top < box.bottom && box.left < box.right
    ensures WellPlaced(box, c)
  {
    var row := CrossLine(box.top, box.bottom, rand(tick));
    var col := CrossLine(box.left, box.right, rand(tick + 1));
    Cut(row, col,
        [LowOpening(box.top, row, rand(tick + 3)), HighOpening(row, box.bottom, rand(tick + 4)),
         LowOpening(box.left, col, rand(tick + 5)), HighOpening(col, box.right, rand(tick + 6))],
        rand(tick + 2) % 4)
  }

  /** The cross lines are even lines strictly inside the rectangle, each opening
      is an odd cell on its own arm, and `shut` names one of the four. */
  predicate WellPlaced(box: Rect, c: Cut)
  {
    |c.pos| == 4 && 0 <= c.shut < 4 &&
    box.top < c.row < box.bottom && !Odd(c.row) &&
    box.left < c.col < box.right && !Odd(c.col) &&
    box.top <= c.pos[0] < c.row && c.row < c.pos[1] <= box.bottom &&
    box.left <= c.pos[2] < c.col && c.col < c.pos[3] <= box.right &&
    Odd(c.pos[0]) && Odd(c.pos[1]) && Odd(c.pos[2]) && Odd(c.pos[3])
  }

  /** The cell is on the cross of `c` inside `box`. */
  predicate OnCross(p: Pos, box: Rect, c: Cut)
  {
    InRect(p, box) && (p.row == c.row || p.col == c.col)
  }

  /** The cell is one of the three openings left PASSAGE. */
  predicate Gap(p: Pos, c: Cut)
    requires |c.pos| == 4 && 0 <= c.shut < 4
  {
    p in Openings(c) && p != Openings(c)[c.shut]
  }

  /** The cross stands: WALL everywhere on it except the three gaps. */
  ghost predicate CutHolds(g: Grid, box: Rect, c: Cut)
    requires |c.pos| == 4 && 0 <= c.shut < 4
  {
    forall p | OnCross(p, box, c) :: p in g && g[p] == (if Gap(p, c) then Passage else Wall)
  }

  /** The k-th arm of the cross: 0 above the crossing, 1 below, 2 left, 3 right. */
  predicate OnArm(p: Pos, box: Rect, c: Cut, k: int)
  {
    if k == 0 then p.col == c.col && box.top <= p.row < c.row
    else if k == 1 then p.col == c.col && c.row < p.row <= box.bottom
    else if k == 2 then p.row == c.row && box.left <= p.col < c.col
    else p.row == c.row && c.col < p.col <= box.right
  }

  /** Of a standing cross, arm `shut` is solid WALL and every other arm has exactly
      one PASSAGE cell, its opening; the crossing itself is WALL. */
  lemma ArmGaps(g: Grid, box: Rect, c: Cut, k: int)
    requires WellPlaced(box, c) && CutHolds(g, box, c) && 0 <= k < 4
    ensures forall p | OnArm(p, box, c, k) :: p in g && (g[p] == Passage <==> k != c.shut && p == Openings(c)[k])
    ensures Pos(c.row, c.col) in g && g[Pos(c.row, c.col)] == Wall
  {
    var ops := Openings(c);
    forall p | OnArm(p, box, c, k) ensures p in g && (g[p] == Passage <==> k != c.shut && p == ops[k]) {
      assert OnCross(p, box, c);
      assert forall j | 0 <= j < 4 && j != k :: p != ops[j];
    }
    assert OnCross(Pos(c.row, c.col), box, c);
  }

  /** `g1` is `g0` with every cell of `box` set to `t`. */
  ghost predicate Overwritten(g0: Grid, g1: Grid, box: Rect, t: CellType)
  {
    g1.Keys == g0.Keys && forall p | p in g0 :: g1[p] == (if InRect(p, box) then t else g0[p])
  }

  /** `g1` differs from `g0` only inside `box`, off the lattice, and only by WALL or
      PASSAGE cells. */
  ghost predicate Reshaped(g0: Grid, g1: Grid, box: Rect)
  {
    g1.Keys == g0.Keys &&
    forall p | p in g0 :: g1[p] == g0[p] || (InRect(p, box) && !OnLattice(p) && (g1[p] == Wall || g1[p] == Passage))
  }

  lemma ReshapedWithin(g0: Grid, g1: Grid, sub: Rect, box: Rect)
    requires Reshaped(g0, g1, sub)
    requires box.top <= sub.top && sub.bottom <= box.bottom && box.left <= sub.left && sub.right <= box.right
    ensures Reshaped(g0, g1, box)
  {
  }

  lemma ReshapedTransitive(g0: Grid, g1: Grid, g2: Grid, box: Rect)
    requires Reshaped(g0, g1, box) && Reshaped(g1, g2, box)
    ensures Reshaped(g0, g2, box)
  {
  }

  /** A change confined to a rectangle that misses the cross keeps it standing. */
  lemma ReshapedOffCross(g0: Grid, g1: Grid, sub: Rect, box: Rect, c: Cut)
    requires |c.pos| == 4 && 0 <= c.shut < 4
    requires CutHolds(g0, box, c) && Reshaped(g0, g1, sub)
    requires sub.bottom < c.row || c.row < sub.top
    requires sub.right < c.col || c.col < sub.left
    ensures CutHolds(g1, box, c)
  {
  }

  /** The four quarters `devide` recurses into, in the source's order. */
  function Quarter(box: Rect, c: Cut, i: int): (q: Rect)
    ensures box.top <= c.row <= box.bottom && box.left <= c.col <= box.right ==>
              box.top <= q.top && q.bottom <= box.bottom && box.left <= q.left && q.right <= box.right
    ensures q.bottom < c.row || c.row < q.top
    ensures q.right < c.col || c.col < q.left
  {
    if i == 0 then Rect(box.top, c.row - 1, box.left, c.col - 1)
    else if i == 1 then Rect(c.row + 1, box.bottom, box.left, c.col - 1)
    else if i == 2 then Rect(c.row + 1, box.bottom, c.col + 1, box.right)
    else Rect(box.top, c.row - 1, c.col + 1, box.right)
  }

  /** The quarters of a well placed cut are regions again. */
  lemma QuarterRegion(rows: int, cols: int, box: Rect, c: Cut, i: int)
    requires Region(rows, cols, box) && WellPlaced(box, c)
    ensures Region(rows, cols, Quarter(box, c, i))
    ensures var q := Quarter(box, c, i);
            q.bottom - q.top + q.right - q.left < box.bottom - box.top + box.right - box.left
  {
    assert (c.row - 1) % 2 == 1 && (c.row + 1) % 2 == 1 by {
      assert c.row % 2 == 0;
    }
    assert (c.col - 1) % 2 == 1 && (c.col + 1) % 2 == 1 by {
      assert c.col % 2 == 0;
    }
  }

  /** One quarter's recursion, seen from the enclosing rectangle. */
  lemma QuarterStep(g1: Grid, g2: Grid, box: Rect, c: Cut, i: int)
    requires WellPlaced(box, c) && CutHolds(g1, box, c)
    requires Reshaped(g1, g2, Quarter(box, c, i))
    ensures CutHolds(g2, box, c) && Reshaped(g1, g2, box)
  {
    var q := Quarter(box, c, i);
    ReshapedOffCross(g1, g2, q, box, c);
    ReshapedWithin(g1, g2, q, box);
  }

  /** The rectangles `devide` cuts: odd bounds, more than one line both ways. */
  predicate Splits(box: Rect)
  {
    Odd(box.top) && Odd(box.bottom) && Odd(box.left) && Odd(box.right) &&
    box.top < box.bottom && box.left < box.right
  }

  /** How many numbers devide(box) draws when its first draw is `rand(tick)`: seven
      for its own cut, then those of its four recursive calls in turn. */
  function Draws(box: Rect, rand: nat -> nat, tick: nat): (n: nat)
    ensures Splits(box) ==> n >= 7
    ensures !Splits(box) ==> n == 0
    decreases box.bottom - box.top + box.right - box.left, 5
  {
    if Splits(box) then QuarterStart(box, rand, tick, 4) - tick else 0
  }

  /** The tick of the first draw of devide's `i`-th recursive call on `box`; for
      `i` == 4, the tick after the last one. */
  function QuarterStart(box: Rect, rand: nat -> nat, tick: nat, i: nat): (s: nat)
    requires Splits(box) && i <= 4
    ensures s >= tick + 7
    decreases box.bottom - box.top + box.right - box.left, i
  {
    if i == 0 then tick + 7
    else
      var s := QuarterStart(box, rand, tick, i - 1);
      s + Draws(Quarter(box, DrawCut(box, rand, tick), i - 1), rand, s)
  }

  /** What devide(box) leaves on the board when its first draw is `rand(tick)`:
      unless the rectangle is a single line, the cross it draws stands, and each
      quarter is divided in turn by the numbers drawn after it. */
  ghost predicate DividedBy(g: Grid, box: Rect, rand: nat -> nat, tick: nat)
    decreases box.bottom - box.top + box.right - box.left
  {
    Splits(box) ==>
      var c := DrawCut(box, rand, tick);
      CutHolds(g, box, c) &&
      DividedBy(g, Quarter(box, c, 0), rand, QuarterStart(box, rand, tick, 0)) &&
      DividedBy(g, Quarter(box, c, 1), rand, QuarterStart(box, rand, tick, 1)) &&
      DividedBy(g, Quarter(box, c, 2), rand, QuarterStart(box, rand, tick, 2)) &&
      DividedBy(g, Quarter(box, c, 3), rand, QuarterStart(box, rand, tick, 3))
  }

  /** `g1` holds what `g0` holds on every cell of `box`. */
  ghost predicate Agrees(g0: Grid, g1: Grid, box: Rect)
  {
    forall p | InRect(p, box) && p in g0 :: p in g1 && g1[p] == g0[p]
  }

  /** A division depends only on the cells of its rectangle. */
  lemma {:induction false} DividedByFrame(g0: Grid, g1: Grid, box: Rect, rand: nat -> nat, tick: nat)
    requires DividedBy(g0, box, rand, tick) && Agrees(g0, g1, box)
    ensures DividedBy(g1, box, rand, tick)
    decreases box.bottom - box.top + box.right - box.left
  {
    if Splits(box) {
      var c := DrawCut(box, rand, tick);
      DividedByFrame(g0, g1, Quarter(box, c, 0), rand, QuarterStart(box, rand, tick, 0));
      DividedByFrame(g0, g1, Quarter(box, c, 1), rand, QuarterStart(box, rand, tick, 1));
      DividedByFrame(g0, g1, Quarter(box, c, 2), rand, QuarterStart(box, rand, tick, 2));
      DividedByFrame(g0, g1, Quarter(box, c, 3), rand, QuarterStart(box, rand, tick, 3));
    }
  }

  /** A change confined to one quarter leaves the division of another quarter as it was. */
  lemma OtherQuarterKept(g1: Grid, g2: Grid, box: Rect, c: Cut, i: int, j: int, rand: nat -> nat, tick: nat)
    requires WellPlaced(box, c) && 0 <= i < 4 && 0 <= j < 4 && i != j
    requires Reshaped(g1, g2, Quarter(box, c, j)) && DividedBy(g1, Quarter(box, c, i), rand, tick)
    ensures DividedBy(g2, Quarter(box, c, i), rand, tick)
  {
    var qi, qj := Quarter(box, c, i), Quarter(box, c, j);
    forall p | InRect(p, qi) ensures !InRect(p, qj) {
    }
    DividedByFrame(g1, g2, qi, rand, tick);
  }

  /** devide's four recursive calls put together: the cross of the call stands
      and each quarter keeps the division its own call made. */
  lemma Assemble(g2: Grid, g3: Grid, g4: Grid, g5: Grid, box: Rect, c: Cut, rand: nat -> nat, tick: nat)
    requires Splits(box) && c == DrawCut(box, rand, tick) && CutHolds(g5, box, c)
    requires Reshaped(g2, g3, Quarter(box, c, 1)) && Reshaped(g3, g4, Quarter(box, c, 2))
    requires Reshaped(g4, g5, Quarter(box, c, 3))
    requires DividedBy(g2, Quarter(box, c, 0), rand, QuarterStart(box, rand, tick, 0))
    requires DividedBy(g3, Quarter(box, c, 1), rand, QuarterStart(box, rand, tick, 1))
    requires DividedBy(g4, Quarter(box, c, 2), rand, QuarterStart(box, rand, tick, 2))
    requires DividedBy(g5, Quarter(box, c, 3), rand, QuarterStart(box, rand, tick, 3))
    ensures DividedBy(g5, box, rand, tick)
  {
    var s0, s1, s2 := QuarterStart(box, rand, tick, 0), QuarterStart(box, rand, tick, 1), QuarterStart(box, rand, tick, 2);
    OtherQuarterKept(g2, g3, box, c, 0, 1, rand, s0);
    OtherQuarterKept(g3, g4, box, c, 0, 2, rand, s0);
    OtherQuarterKept(g4, g5, box, c, 0, 3, rand, s0);
    OtherQuarterKept(g3, g4, box, c, 1, 2, rand, s1);
    OtherQuarterKept(g4, g5, box, c, 1, 3, rand, s1);
    OtherQuarterKept(g4, g5, box, c, 2, 3, rand, s2);
  }

  /** The cross drawn by one call: both lines WALL over the rectangle, then the
      four openings PASSAGE, then opening `shut` WALL again. */
  lemma CrossLayout(g0: Grid, g1: Grid, g2: Grid, g3: Grid, rows: int, cols: int, box: Rect, c: Cut)
    requires Shaped(g0, rows, cols) && Region(rows, cols, box) && WellPlaced(box, c)
    requires Overwritten(g0, g1, Rect(c.row, c.row, box.left, box.right), Wall)
    requires Overwritten(g1, g2, Rect(box.top, box.bottom, c.col, c.col), Wall)
    requires g3 == g2[Openings(c)[0] := Passage][Openings(c)[1] := Passage]
                     [Openings(c)[2] := Passage][Openings(c)[3] := Passage][Openings(c)[c.shut] := Wall]
    ensures CutHolds(g3, box, c) && Reshaped(g0, g3, box)
  {
    CrossStands(g0, g1, g2, g3, rows, cols, box, c);
    CrossConfined(g0, g1, g2, g3, rows, cols, box, c);
  }

  lemma CrossStands(g0: Grid, g1: Grid, g2: Grid, g3: Grid, rows: int, cols: int, box: Rect, c: Cut)
    requires Shaped(g0, rows, cols) && Region(rows, cols, box) && WellPlaced(box, c)
    requires Overwritten(g0, g1, Rect(c.row, c.row, box.left, box.right), Wall)
    requires Overwritten(g1, g2, Rect(box.top, box.bottom, c.col, c.col), Wall)
    requires g3 == g2[Openings(c)[0] := Passage][Openings(c)[1] := Passage]
                     [Openings(c)[2] := Passage][Openings(c)[3] := Passage][Openings(c)[c.shut] := Wall]
    ensures CutHolds(g3, box, c)
  {
    forall p | OnCross(p, box, c) ensures p in g3 && g3[p] == (if Gap(p, c) then Passage else Wall) {
      assert p in g0;
    }
  }

  lemma CrossConfined(g0: Grid, g1: Grid, g2: Grid, g3: Grid, rows: int, cols: int, box: Rect, c: Cut)
    requires Shaped(g0, rows, cols) && Region(rows, cols, box) && WellPlaced(box, c)
    requires Overwritten(g0, g1, Rect(c.row, c.row, box.left, box.right), Wall)
    requires Overwritten(g1, g2, Rect(box.top, box.bottom, c.col, c.col), Wall)
    requires g3 == g2[Openings(c)[0] := Passage][Openings(c)[1] := Passage]
                     [Openings(c)[2] := Passage][Openings(c)[3] := Passage][Openings(c)[c.shut] := Wall]
    ensures Reshaped(g0, g3, box)
  {
    CrossKeys(g0, g1, g2, g3, rows, cols, box, c);
    forall p | p in g0
      ensures g3[p] == g0[p] || (InRect(p, box) && !OnLattice(p) && (g3[p] == Wall || g3[p] == Passage))
    {
      CrossCellConfined(g0, g1, g2, g3, rows, cols, box, c, p);
    }
  }

  lemma CrossKeys(g0: Grid, g1: Grid, g2: Grid, g3: Grid, rows: int, cols: int, box: Rect, c: Cut)
    requires Shaped(g0, rows, cols) && Region(rows, cols, box) && WellPlaced(box, c)
    requires Overwritten(g0, g1, Rect(c.row, c.row, box.left, box.right), Wall)
    requires Overwritten(g1, g2, Rect(box.top, box.bottom, c.col, c.col), Wall)
    requires g3 == g2[Openings(c)[0] := Passage][Openings(c)[1] := Passage]
                     [Openings(c)[2] := Passage][Openings(c)[3] := Passage][Openings(c)[c.shut] := Wall]
    ensures g3.Keys == g0.Keys
  {
    var ops := Openings(c);
    assert forall k | 0 <= k < 4 :: ops[k] in g0;
  }

  lemma CrossCellConfined(g0: Grid, g1: Grid, g2: Grid, g3: Grid, rows: int, cols: int, box: Rect, c: Cut, p: Pos)
    requires Shaped(g0, rows, cols) && Region(rows, cols, box) && WellPlaced(box, c)
    requires Overwritten(g0, g1, Rect(c.row, c.row, box.left, box.right), Wall)
    requires Overwritten(g1, g2, Rect(box.top, box.bottom, c.col, c.col), Wall)
    requires g3 == g2[Openings(c)[0] := Passage][Openings(c)[1] := Passage]
                     [Openings(c)[2] := Passage][Openings(c)[3] := Passage][Openings(c)[c.shut] := Wall]
    requires p in g0
    ensures g3[p] == g0[p] || (InRect(p, box) && !OnLattice(p) && (g3[p] == Wall || g3[p] == Passage))
  {
    if p !in Openings(c) && !OnCross(p, box, c) {
      assert g3[p] == g2[p] == g1[p] == g0[p];
    }
  }

  /** One of devide's two fill loops, on a horizontal or vertical segment. */
  method WallRow(m: Maze, row: int, l: int, r: int)
    requires m.Sized() && 0 <= row < m.rows && 0 <= l <= r < m.cols
    modifies m.board
    ensures Overwritten(old(m.Cells()), m.Cells(), Rect(row, row, l, r), Wall)
  {
    for i := l to r + 1
      invariant Overwritten(old(m.Cells()), m.Cells(), Rect(row, row, l, i - 1), Wall)
    {
      m.Put(row, i, Wall);
    }
  }

  method WallColumn(m: Maze, col: int, t: int, b: int)
    requires m.Sized() && 0 <= col < m.cols && 0 <= t <= b < m.rows
    modifies m.board
    ensures Overwritten(old(m.Cells()), m.Cells(), Rect(t, b, col, col), Wall)
  {
    for i := t to b + 1
      invariant Overwritten(old(m.Cells()), m.Cells(), Rect(t, i - 1, col, col), Wall)
    {
      m.Put(i, col, Wall);
    }
  }

  /** The four PASSAGE writes at pos[0..3], then the switch that walls up the
      opening notThrough again. */
  method OpenGaps(m: Maze, crossPointRow: int, crossPointCol: int, pos: seq<int>, notThrough: int)
    requires m.Sized() && |pos| == 4 && 0 <= notThrough < 4
    requires 0 <= crossPointRow < m.rows && 0 <= crossPointCol < m.cols
    requires 0 <= pos[0] < m.rows && 0 <= pos[1] < m.rows && 0 <= pos[2] < m.cols && 0 <= pos[3] < m.cols
    modifies m.board
    ensures var ops := Openings(Cut(crossPointRow, crossPointCol, pos, notThrough));
            m.Cells() == old(m.Cells())[ops[0] := Passage][ops[1] := Passage][ops[2] := Passage]
                                       [ops[3] := Passage][ops[notThrough] := Wall]
  {
    m.Put(pos[0], crossPointCol, Passage);
    m.Put(pos[1], crossPointCol, Passage);
    m.Put(crossPointRow, pos[2], Passage);
    m.Put(crossPointRow, pos[3], Passage);
    match notThrough
    case 0 => m.Put(pos[0], crossPointCol, Wall);
    case 1 => m.Put(pos[1], crossPointCol, Wall);
    case 2 => m.Put(crossPointRow, pos[2], Wall);
    case 3 => m.Put(crossPointRow, pos[3], Wall);
  }

  /** The non-recursive part of a `devide` call on a rectangle that is more than
      one line in both directions: seven draws, the cross, its gaps. */
  method Cross(m: Maze, t: int, b: int, l: int, r: int, rand: nat -> nat, tick: nat) returns (c: Cut)
    requires m.Sized() && Region(m.rows, m.cols, Rect(t, b, l, r)) && t != b && l != r
    modifies m.board
    ensures c == DrawCut(Rect(t, b, l, r), rand, tick)
    ensures CutHolds(m.Cells(), Rect(t, b, l, r), c) && Reshaped(old(m.Cells()), m.Cells(), Rect(t, b, l, r))
  {
    ghost var g0 := m.Cells();
    var crossPointRow := CrossLine(t, b, rand(tick));
    var crossPointCol := CrossLine(l, r, rand(tick + 1));
    WallRow(m, crossPointRow, l, r);
    ghost var g1 := m.Cells();
    WallColumn(m, crossPointCol, t, b);
    ghost var g2 := m.Cells();
    var notThrough := rand(tick + 2) % 4;
    var pos := [LowOpening(t, crossPointRow, rand(tick + 3)), HighOpening(crossPointRow, b, rand(tick + 4)),
                LowOpening(l, crossPointCol, rand(tick + 5)), HighOpening(crossPointCol, r, rand(tick + 6))];
    OpenGaps(m, crossPointRow, crossPointCol, pos, notThrough);
    c := Cut(crossPointRow, crossPointCol, pos, notThrough);
    CrossLayout(g0, g1, g2, m.Cells(), m.rows, m.cols, Rect(t, b, l, r), c);
  }

  /** devide(t, b, l, r): unless the rectangle is a single row or column, draw a
      cross with three gaps and divide the four quarters in turn. Only cells of
      the rectangle off the lattice change, to WALL or PASSAGE; the whole
      recursive division stands once the call returns, and the call draws
      exactly Draws numbers. */
  method Devide(m: Maze, t: int, b: int, l: int, r: int, rand: nat -> nat, tick: nat)
    returns (tick': nat, ghost cut: Option<Cut>)
    requires m.Sized() && Region(m.rows, m.cols, Rect(t, b, l, r))
    modifies m.board
    ensures Reshaped(old(m.Cells()), m.Cells(), Rect(t, b, l, r))
    ensures DividedBy(m.Cells(), Rect(t, b, l, r), rand, tick)
    ensures tick' == tick + Draws(Rect(t, b, l, r), rand, tick)
    ensures cut.Some? <==> t != b && l != r
    ensures cut.None? ==> m.Cells() == old(m.Cells())
    ensures cut.Some? ==> cut.value == DrawCut(Rect(t, b, l, r), rand, tick) &&
                          CutHolds(m.Cells(), Rect(t, b, l, r), cut.value)
    decreases b - t + r - l, 1
  {
    if t != b && l != r {
      var box := Rect(t, b, l, r);
      ghost var g0 := m.Cells();
      var c := Cross(m, t, b, l, r, rand, tick);
      cut := Some(c);
      ghost var g1 := m.Cells();
      tick' := DivideQuarter(m, box, c, 0, rand, tick + 7);
      ghost var g2 := m.Cells();
      assert tick' == QuarterStart(box, rand, tick, 1);
      tick' := DivideQuarter(m, box, c, 1, rand, tick');
      ghost var g3 := m.Cells();
      assert tick' == QuarterStart(box, rand, tick, 2);
      tick' := DivideQuarter(m, box, c, 2, rand, tick');
      ghost var g4 := m.Cells();
      assert tick' == QuarterStart(box, rand, tick, 3);
      tick' := DivideQuarter(m, box, c, 3, rand, tick');
      assert tick' == QuarterStart(box, rand, tick, 4);
      Chain(g0, g1, g2, g3, g4, m.Cells(), box);
      Assemble(g2, g3, g4, m.Cells(), box, c, rand, tick);
    } else {
      return tick, None;
    }
  }

  lemma Chain(g0: Grid, g1: Grid, g2: Grid, g3: Grid, g4: Grid, g5: Grid, box: Rect)
    requires Reshaped(g0, g1, box) && Reshaped(g1, g2, box) && Reshaped(g2, g3, box)
    requires Reshaped(g3, g4, box) && Reshaped(g4, g5, box)
    ensures Reshaped(g0, g5, box)
  {
    ReshapedTransitive(g0, g1, g2, box);
    ReshapedTransitive(g0, g2, g3, box);
    ReshapedTransitive(g0, g3, g4, box);
    ReshapedTransitive(g0, g4, g5, box);
  }

  /** One of devide's four recursive calls, on quarter `i` of the cut `c`: it
      divides the quarter, keeps the cross standing and changes nothing outside
      the quarter. */
  method DivideQuarter(m: Maze, box: Rect, c: Cut, i: int, rand: nat -> nat, tick: nat) returns (tick': nat)
    requires m.Sized() && Region(m.rows, m.cols, box) && WellPlaced(box, c) && 0 <= i < 4
    requires CutHolds(m.Cells(), box, c)
    modifies m.board
    ensures CutHolds(m.Cells(), box, c) && Reshaped(old(m.Cells()), m.Cells(), box)
    ensures Reshaped(old(m.Cells()), m.Cells(), Quarter(box, c, i))
    ensures DividedBy(m.Cells(), Quarter(box, c, i), rand, tick)
    ensures tick' == tick + Draws(Quarter(box, c, i), rand, tick)
    decreases box.bottom - box.top + box.right - box.left, 0
  {
    ghost var g := m.Cells();
    var q := Quarter(box, c, i);
    QuarterRegion(m.rows, m.cols, box, c, i);
    ghost var ignored: Option<Cut>;
    tick', ignored := Devide(m, q.top, q.bottom, q.left, q.right, rand, tick);
    assert Rect(q.top, q.bottom, q.left, q.right) == q;
    QuarterStep(g, m.Cells(), box, c, i);
  }

  /** Division only reshapes the interior, so the ring and the anchors stay and
      every interior cell stays WALL or PASSAGE. */
  lemma ReshapedInterior(g0: Grid, g1: Grid, rows: int, cols: int, entry: Pos, exit: Pos)
    requires Reshaped(g0, g1, Interior(rows, cols))
    requires RingIntact(g0, rows, cols, entry, exit) && Generating(g0, rows, cols)
    ensures RingIntact(g1, rows, cols, entry, exit) && Generating(g1, rows, cols)
  {
  }

  /** generate: divide the whole interior. The lattice cells keep their tags, the
      ring and the anchors stay, the first cross and every cross below it stand
      at the end, and `ticks` numbers were drawn. */
  method Generate(m: Maze, rand: nat -> nat) returns (ticks: nat, ghost cut: Option<Cut>)
    requires m.Valid() && Generating(m.Cells(), m.rows, m.cols)
    modifies m.board
    ensures m.Valid() && Generating(m.Cells(), m.rows, m.cols)
    ensures Reshaped(old(m.Cells()), m.Cells(), Interior(m.rows, m.cols))
    ensures DividedBy(m.Cells(), Interior(m.rows, m.cols), rand, 0)
    ensures ticks == Draws(Interior(m.rows, m.cols), rand, 0)
    ensures cut.Some? && cut.value == DrawCut(Interior(m.rows, m.cols), rand, 0)
    ensures CutHolds(m.Cells(), Interior(m.rows, m.cols), cut.value)
    ensures Open(old(m.Cells()), m.rows, m.cols) ==> Divided(old(m.Cells()), m.Cells(), m.rows, m.cols)
  {
    ghost var g0 := m.Cells();
    var box := Interior(m.rows, m.cols);
    ticks, cut := Devide(m, box.top, box.bottom, box.left, box.right, rand, 0);
    ReshapedInterior(g0, m.Cells(), m.rows, m.cols, m.entry, m.exit);
    if Open(g0, m.rows, m.cols) {
      LatticeKept(g0, m.Cells(), m.rows, m.cols);
    }
  }

  /** SimpleMaze(rows, cols): a PASSAGE-filled maze, then generate. The interior
      is divided by the crosses the draws give, and every interior lattice cell,
      the entry among them, is a PASSAGE at the end. */
  method NewSimpleMaze(rows: int, cols: int, screenRows: int, screenCols: int,
                       draw: nat -> AnchorDraw, rand: nat -> nat)
    returns (r: Result<Maze, MazeError>)
    requires ValidDims(rows, cols) ==> DrawsInRange(draw, rows, cols)
    requires ValidDims(rows, cols) ==> exists k: nat :: Settles(draw, rows, cols, k)
    ensures r.Failure? <==> CheckSize(rows, cols, screenRows, screenCols).Some?
    ensures r.Success? ==> r.value.Valid() && fresh(r.value.board) && r.value.rows == rows && r.value.cols == cols
    ensures r.Success? ==> Divided(InitialGrid(rows, cols, Passage, r.value.entry, r.value.exit), r.value.Cells(), rows, cols)
    ensures r.Success? ==> DividedBy(r.value.Cells(), Interior(rows, cols), rand, 0)
  {
    r := Create(rows, cols, Passage, screenRows, screenCols, draw);
    if r.Success? {
      var m := r.value;
      Build(m, rand);
    }
  }

  /** SimpleMaze's constructor body on the PASSAGE-filled board: generate, which
      divides the interior. */
  method Build(m: Maze, rand: nat -> nat)
    requires m.Valid() && m.Cells() == InitialGrid(m.rows, m.cols, Passage, m.entry, m.exit)
    modifies m.board
    ensures m.Valid() && Divided(old(m.Cells()), m.Cells(), m.rows, m.cols)
    ensures DividedBy(m.Cells(), Interior(m.rows, m.cols), rand, 0)
  {
    PassageStart(m.rows, m.cols, m.entry, m.exit);
    var _, _ := Generate(m, rand);
  }

  /** The PASSAGE-filled board is ready for division: all interior cells PASSAGE. */
  lemma PassageStart(rows: int, cols: int, entry: Pos, exit: Pos)
    requires ValidDims(rows, cols) && IsAnchor(rows, cols, entry) && IsAnchor(rows, cols, exit)
    requires entry != exit
    ensures Generating(InitialGrid(rows, cols, Passage, entry, exit), rows, cols)
    ensures Open(InitialGrid(rows, cols, Passage, entry, exit), rows, cols)
  {
    InitialGridLayout(rows, cols, Passage, entry, exit);
  }

  /** Every interior cell is a PASSAGE. */
  ghost predicate Open(g: Grid, rows: int, cols: int)
  {
    forall p | InMaze(rows, cols, p) :: p in g && g[p] == Passage
  }

  /** The outcome of generate on a PASSAGE-filled board `g0`: only interior cells
      off the lattice changed, every interior cell is WALL or PASSAGE, and every
      interior lattice cell is a PASSAGE. */
  ghost predicate Divided(g0: Grid, g1: Grid, rows: int, cols: int)
  {
    Generating(g1, rows, cols) && Reshaped(g0, g1, Interior(rows, cols)) &&
    forall p | InMaze(rows, cols, p) && OnLattice(p) :: PassageAt(g1, rows, cols, p)
  }

  /** Division never touches a lattice cell: on a board that starts PASSAGE
      inside, every interior lattice cell is still a PASSAGE. */
  lemma LatticeKept(g0: Grid, g1: Grid, rows: int, cols: int)
    requires Reshaped(g0, g1, Interior(rows, cols)) && Generating(g1, rows, cols)
    requires Open(g0, rows, cols)
    ensures Divided(g0, g1, rows, cols)
  {
  }
}
