/**
 * The square maze the breadth-first search runs on: rows of cells, each
 * carrying its own coordinates and a wall flag, and the notions of an open
 * cell and of a walk through open cells.
 */
module Grids {

  datatype Cell = Cell(r: int, c: int, wall: bool)

  /** Rows of cells; row r, column c is g[r][c]. */
  type Grid = seq<seq<Cell>>

  /** A position given by row and column, possibly off the grid. */
  datatype Coord = Coord(r: int, c: int)

  predicate Inside(n: int, x: Coord) {
    0 <= x.r < n && 0 <= x.c < n
  }

  /** Every row has at least as many cells as there are rows. */
  predicate Rows(g: Grid) {
    forall r :: 0 <= r < |g| ==> |g[r]| >= |g|
  }

  /** A cell within the N x N square (N the number of rows) that is not a wall. */
  predicate Open(g: Grid, x: Coord) {
    Inside(|g|, x) && x.c < |g[x.r]| && !g[x.r][x.c].wall
  }

  /** a and b are one step apart horizontally or vertically. */
  predicate Adjacent(a: Coord, b: Coord) {
    (a.r == b.r && (a.c == b.c + 1 || b.c == a.c + 1)) ||
    (a.c == b.c && (a.r == b.r + 1 || b.r == a.r + 1))
  }

  /**
   * A walk from src: it starts at src (which may itself be a wall), and every
   * later cell is open and adjacent to the one before it. A walk of k cells
   * takes k - 1 steps.
   */
  predicate Walk(g: Grid, src: Coord, w: seq<Coord>) {
    |w| >= 1 && w[0] == src &&
    forall i :: 1 <= i < |w| ==> Open(g, w[i]) && Adjacent(w[i - 1], w[i])
  }

  ghost predicate Reachable(g: Grid, src: Coord, y: Coord) {
    exists w :: Walk(g, src, w) && w[|w| - 1] == y
  }

  /** Cell (r, c) is the k-th cell built, counting row by row. */
  lemma RowMajor(n: int, r: int, c: int)
    requires 0 <= r < n && 0 <= c < n
    ensures 0 <= r * n + c < n * n
  {
    assert r * n + c < r * n + n == (r + 1) * n;
    assert (r + 1) * n <= n * n;
  }

  /**
   * generateGrid with the random wall draws supplied: draws[k] is the outcome
   * of the k-th wall draw, made for cell (k / N, k % N). The grid has N rows
   * of N cells, each knows its coordinates, the two corners are open and
   * every other cell is a wall exactly when its draw said so.
   */
  method GenerateGrid(n: int, draws: seq<bool>) returns (g: Grid)
    requires n >= 1 && |draws| == n * n
    ensures |g| == n && forall r :: 0 <= r < n ==> |g[r]| == n
    ensures forall r, c :: 0 <= r < n && 0 <= c < n ==> g[r][c].r == r && g[r][c].c == c
    ensures !g[0][0].wall && !g[n - 1][n - 1].wall
    ensures Rows(g) && Open(g, Coord(0, 0)) && Open(g, Coord(n - 1, n - 1))
    ensures forall r, c :: 0 <= r < n && 0 <= c < n && !(r == 0 && c == 0) && !(r == n - 1 && c == n - 1) ==>
              (RowMajor(n, r, c); g[r][c].wall == draws[r * n + c])
  {
    g := [];
    var r := 0;
    while r < n
      invariant 0 <= r <= n && |g| == r
      invariant forall i :: 0 <= i < r ==> |g[i]| == n
      invariant forall i, c :: 0 <= i < r && 0 <= c < n ==>
                  (RowMajor(n, i, c); g[i][c] == Cell(i, c, draws[i * n + c]))
    {
      var row := [];
      var c := 0;
      while c < n
        invariant 0 <= c <= n && |row| == c
        invariant forall j :: 0 <= j < c ==> (RowMajor(n, r, j); row[j] == Cell(r, j, draws[r * n + j]))
      {
        RowMajor(n, r, c);
        row := row + [Cell(r, c, draws[r * n + c])];
        c := c + 1;
      }
      g := g + [row];
      r := r + 1;
    }
    g := g[0 := g[0][0 := g[0][0].(wall := false)]];
    g := g[n - 1 := g[n - 1][n - 1 := g[n - 1][n - 1].(wall := false)]];
  }
}
