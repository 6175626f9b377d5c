/** Grid geometry shared by the generator and the solvers: cells, the eight
    unit directions, and what it means for a word to be read along a line. */
module Geometry {

  datatype Option<T> = None | Some(value: T)

  /** A cell as (row, column). */
  type Pos = (int, int)

  /** A unit step (row delta, column delta). */
  type Direction = (int, int)

  /** A reported hit: the cell of the word's first letter and of its last. */
  datatype Span = Span(start: Pos, end: Pos)

  /** The direction table, in the order both the generator and the
      eight-direction solver enumerate it: right, down, down-right, down-left,
      left, up, up-left, up-right. */
  const DIRECTIONS: seq<Direction> :=
    [(0, 1), (1, 0), (1, 1), (1, -1), (0, -1), (-1, 0), (-1, -1), (-1, 1)]

  /** The four horizontal and vertical directions. */
  predicate IsAxis(d: Direction) {
    d in {(0, 1), (0, -1), (1, 0), (-1, 0)}
  }

  /** The cell reached after i steps from p along d. */
  function Step(p: Pos, d: Direction, i: int): Pos {
    (p.0 + d.0 * i, p.1 + d.1 * i)
  }

  /** The cell holding the last letter of a word of length len. */
  function EndOf(p: Pos, d: Direction, len: int): Pos {
    Step(p, d, len - 1)
  }

  predicate InGrid<T>(g: seq<seq<T>>, p: Pos) {
    0 <= p.0 < |g| && 0 <= p.1 < |g[p.0]|
  }

  /** Every row has the length of the first one (the solvers' `len(grid[0])`). */
  predicate IsRect<T>(g: seq<seq<T>>) {
    forall r :: 0 <= r < |g| ==> |g[r]| == |g[0]|
  }

  /** A solver's grid: one letter per cell. */
  type LetterGrid = seq<seq<char>>

  /** What both solvers need of the grid before indexing it: `grid[0]`
      exists and every row is as long as the first. */
  predicate SolverGrid(g: LetterGrid) {
    |g| > 0 && IsRect(g)
  }

  /** Row-major order: q comes strictly before p. */
  predicate Before(q: Pos, p: Pos) {
    q.0 < p.0 || (q.0 == p.0 && q.1 < p.1)
  }

  predicate CellIs<T(==)>(g: seq<seq<T>>, p: Pos, x: T) {
    InGrid(g, p) && g[p.0][p.1] == x
  }

  /** Reading |w| cells from p along d, all inside the grid, yields w. */
  predicate MatchAt<T(==)>(g: seq<seq<T>>, w: seq<T>, p: Pos, d: Direction) {
    forall i :: 0 <= i < |w| ==> CellIs(g, Step(p, d, i), w[i])
  }

  /** Every entry of the direction table is a non-zero unit step. */
  lemma DirectionIsUnit(d: Direction)
    requires d in DIRECTIONS
    ensures -1 <= d.0 <= 1 && -1 <= d.1 <= 1 && d != (0, 0)
    ensures IsAxis(d) <==> d.0 == 0 || d.1 == 0
  {
  }

  /** Along a unit step, a coordinate between the first and the last step
      stays between the two endpoints. */
  lemma {:induction false} CoordinateBetween(x: int, dx: int, len: int, i: int, lo: int, hi: int)
    requires -1 <= dx <= 1 && 0 <= i < len
    requires lo <= x <= hi && lo <= x + dx * (len - 1) <= hi
    ensures lo <= x + dx * i <= hi
  {
    if dx == 1 {
      assert x + dx * i == x + i;
    } else if dx == -1 {
      assert x + dx * i == x - i;
      assert x + dx * (len - 1) == x - len + 1;
    } else {
      assert dx == 0;
    }
  }
}
