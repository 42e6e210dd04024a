/** Cell tags, directions and board coordinates shared by the grid, the generators
    and the solver (BaseMaze::CellType, BaseMaze::Direction, BaseMaze::Cell). */
module Cells {

  /** The tag stored in every board cell. */
  datatype CellType = Border | Wall | Passage | Entry | Export | Current | Visited

  datatype Direction = Up | Down | Left | Right

  /** A (row, col) coordinate on the board. */
  datatype Pos = Pos(row: int, col: int)

  datatype Option<T> = None | Some(value: T)

  datatype Result<T, E> = Success(value: T) | Failure(error: E)

  /** The four directions in the order the source enumerates them. */
  const Directions: seq<Direction> := [Up, Down, Left, Right]

  function Abs(x: int): nat
  {
    if x < 0 then -x else x
  }

  /** Manhattan distance, the solver's heuristic. */
  function Distance(p: Pos, q: Pos): nat
  {
    Abs(p.row - q.row) + Abs(p.col - q.col)
  }

  /** The cell `k` steps away from `p` in direction `d` (a negative `k` walks backwards). */
  function Step(p: Pos, d: Direction, k: int): Pos
  {
    match d
    case Up => Pos(p.row - k, p.col)
    case Down => Pos(p.row + k, p.col)
    case Left => Pos(p.row, p.col - k)
    case Right => Pos(p.row, p.col + k)
  }

  /** Orthogonal neighbours. */
  predicate Adjacent(p: Pos, q: Pos)
  {
    Distance(p, q) == 1
  }

  /** The direction that leads from `p` to an orthogonal neighbour `q`. */
  function DirectionTo(p: Pos, q: Pos): (d: Direction)
    requires Adjacent(p, q)
    ensures Step(p, d, 1) == q
  {
    if q.row < p.row then Up
    else if q.row > p.row then Down
    else if q.col < p.col then Left
    else Right
  }

  predicate Odd(x: int)
  {
    x % 2 == 1
  }

  /** Both coordinates odd: the nodes the generators carve between. */
  predicate OnLattice(p: Pos)
  {
    Odd(p.row) && Odd(p.col)
  }

  /** Two steps from a lattice node is a lattice node; one step is a connector,
      with one odd coordinate. */
  lemma LatticeSteps(p: Pos, d: Direction)
    requires OnLattice(p)
    ensures OnLattice(Step(p, d, 2))
    ensures Odd(Step(p, d, 1).row) || Odd(Step(p, d, 1).col)
  {
    assert (p.row + 2) % 2 == p.row % 2 && (p.row - 2) % 2 == p.row % 2;
    assert (p.col + 2) % 2 == p.col % 2 && (p.col - 2) % 2 == p.col % 2;
  }
}
