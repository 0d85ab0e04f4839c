/** Row-major numbering of a table of cells, as a table, so that loops can reason about cells without arithmetic. */
module Grids {
  import opened Words

  function Grid(rows: nat, cols: nat): (g: seq<seq<nat>>)
    ensures |g| == rows && forall i :: 0 <= i < rows ==> |g[i]| == cols
  {
    seq(rows, i requires 0 <= i < rows => seq(cols, j requires 0 <= j < cols => i * cols + j))
  }

  /** A table of distinct cell numbers below a size. */
  ghost predicate Numbering(g: seq<seq<nat>>, rows: nat, cols: nat, size: nat)
  {
    && |g| == rows
    && (forall i :: 0 <= i < rows ==> |g[i]| == cols)
    && (forall i, j :: 0 <= i < rows && 0 <= j < cols ==> g[i][j] < size)
    && (forall i, j, i', j' ::
          0 <= i < rows && 0 <= j < cols && 0 <= i' < rows && 0 <= j' < cols && g[i][j] == g[i'][j']
          ==> i == i' && j == j')
  }

  lemma CellBelow(rows: nat, cols: nat, i: nat, j: nat)
    requires i < rows && j < cols
    ensures i * cols + j < rows * cols
    ensures (i * cols + j) / cols == i && (i * cols + j) % cols == j
  {
    AddOneTimes(i, cols);
    MulMonotone(i + 1, rows, cols);
    DivModUnique(i, cols, j);
  }

  /** Row-major numbers are distinct and in range. */
  lemma GridNumbers(rows: nat, cols: nat)
    ensures Numbering(Grid(rows, cols), rows, cols, rows * cols)
  {
    var g := Grid(rows, cols);
    forall i, j | 0 <= i < rows && 0 <= j < cols
      ensures g[i][j] < rows * cols && g[i][j] / cols == i && g[i][j] % cols == j
    {
      CellBelow(rows, cols, i, j);
    }
  }

  /** Every number in range is a cell of the grid. */
  lemma GridCovers(rows: nat, cols: nat, k: nat)
    requires k < rows * cols
    ensures cols > 0 && k / cols < rows && k % cols < cols && Grid(rows, cols)[k / cols][k % cols] == k
  {
    if cols == 0 {
      assert false;
    }
    DivBelow(k, cols, rows);
  }
}
