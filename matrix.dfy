/**
 * The matrix engine of Matrix.py: a dense row-major grid of real numbers,
 * its elementary row operations (performed in place on a `Matrix` object),
 * rectangular extraction and overwrite, and the recursive Gaussian
 * elimination (`ref`) and Gauss-Jordan back-elimination (`rref`).
 *
 * Row and column numbers in the public operations are 1-based, as in the
 * source; the specification functions below take them the same way.
 */
module Matrices {
  import opened Options
  import opened Tolerance

  /** The contents of a matrix: a sequence of rows. */
  type Grid = seq<seq<real>>

  /** The accuracy `ref`, `rref` and `get_pivot_position` use when given none. */
  const DEFAULT_ACCURACY: nat := 2

  /** The number of columns, read off the first row as the source does. */
  function Cols(g: Grid): nat {
    if |g| == 0 then 0 else |g[0]|
  }

  /** Every row has the same length. */
  predicate IsRect(g: Grid) {
    forall i :: 0 <= i < |g| ==> |g[i]| == Cols(g)
  }

  // ---------------------------------------------------------------------
  // Python slicing
  // ---------------------------------------------------------------------

  /** Where Python's slice `s[lo:hi]` stops: a negative end counts from the back; both clip to the sequence. */
  function SliceEnd(n: nat, hi: int): (e: nat)
    ensures e <= n
    ensures 0 <= hi <= n ==> e == hi
    ensures hi > n ==> e == n
  {
    if hi < 0 then (if hi + n < 0 then 0 else hi + n)
    else if hi > n then n
    else hi
  }

  /** Python's `s[lo:hi]` for a non-negative start. */
  function Slice<T>(s: seq<T>, lo: nat, hi: int): (r: seq<T>)
    ensures |r| == if lo < SliceEnd(|s|, hi) then SliceEnd(|s|, hi) - lo else 0
    ensures |r| == 0 || lo + |r| <= |s|
    ensures forall k :: 0 <= k < |r| ==> r[k] == s[lo + k]
  {
    var e := SliceEnd(|s|, hi);
    if lo < e then s[lo..e] else []
  }

  // ---------------------------------------------------------------------
  // submatrix and insert (Matrix.py:45-115)
  // ---------------------------------------------------------------------

  /**
   * `submatrix(start_row, start_col, end_row, end_col)`: the inclusive block
   * from (start_row, start_col) to (end_row, end_col); a missing end means
   * "to the last row/column". Ends past the matrix are clipped.
   */
  function Submatrix(g: Grid, startRow: int, startCol: int, endRow: Option<int>, endCol: Option<int>): (r: Grid)
    requires startRow >= 1 && startCol >= 1
    requires |g| > 0 || endCol.Some?
    ensures |r| == |Slice(g, startRow - 1, endRow.GetOr(|g|))|
    ensures forall i :: 0 <= i < |r| ==>
      startRow - 1 + i < |g| && r[i] == Slice(g[startRow - 1 + i], startCol - 1, endCol.GetOr(Cols(g)))
    ensures forall i, j :: 0 <= i < |r| && 0 <= j < |r[i]| ==>
      startRow - 1 + i < |g| && startCol - 1 + j < |g[startRow - 1 + i]| && r[i][j] == g[startRow - 1 + i][startCol - 1 + j]
    ensures IsRect(g) ==> IsRect(r)
  {
    var rows := Slice(g, startRow - 1, endRow.GetOr(|g|));
    var ec := endCol.GetOr(Cols(g));
    var r := seq(|rows|, i requires 0 <= i < |rows| => Slice(rows[i], startCol - 1, ec));
    assert IsRect(g) ==> forall i :: 0 <= i < |r| ==> |r[i]| == |r[0]| by {
      if IsRect(g) {
        forall i | 0 <= i < |r|
          ensures |r[i]| == |r[0]|
        {
          assert |rows[i]| == Cols(g) == |rows[0]|;
        }
      }
    }
    r
  }

  /** Whether the offset (a, b) falls inside the block `other`. */
  predicate InBlock(other: Grid, a: int, b: int) {
    0 <= a < |other| && 0 <= b < Cols(other)
  }

  /**
   * `insert(other, position)`: `g` with the block `other` written over it
   * from the 1-based `position`; what of `other` falls outside `g` is
   * dropped.
   */
  function Insert(g: Grid, other: Grid, position: (int, int)): (r: Grid)
    requires position.0 >= 1 && position.1 >= 1
    requires IsRect(g) && IsRect(other)
    ensures |r| == |g| && IsRect(r) && Cols(r) == Cols(g)
    ensures forall i, j :: 0 <= i < |g| && 0 <= j < Cols(g) ==>
      r[i][j] == if InBlock(other, i - position.0 + 1, j - position.1 + 1)
                 then other[i - position.0 + 1][j - position.1 + 1]
                 else g[i][j]
  {
    if |g| == 0 then []
    else if |other| == 0 then g
    else
      seq(|g|, i requires 0 <= i < |g| =>
        seq(Cols(g), j requires 0 <= j < Cols(g) =>
          if InBlock(other, i - position.0 + 1, j - position.1 + 1)
          then other[i - position.0 + 1][j - position.1 + 1]
          else g[i][j]))
  }

  // ---------------------------------------------------------------------
  // Elementary row operations (Matrix.py:116-177), as functions of the grid
  // ---------------------------------------------------------------------

  /** `row` plus `other` times `s`, cell by cell over `row`'s length. */
  function AddScaled(row: seq<real>, other: seq<real>, s: real): (r: seq<real>)
    requires |other| >= |row|
    ensures |r| == |row|
    ensures forall j :: 0 <= j < |row| ==> r[j] == row[j] + other[j] * s
  {
    seq(|row|, j requires 0 <= j < |row| => row[j] + other[j] * s)
  }

  /** `row` times `s`, cell by cell. */
  function ScaleRow(row: seq<real>, s: real): (r: seq<real>) {
    seq(|row|, j requires 0 <= j < |row| => row[j] * s)
  }

  /**
   * What `replace` needs not to fail: both row numbers at least 1, the row
   * to change present, and the mutator row present and long enough whenever
   * there is a cell to update.
   */
  predicate ReplaceDefined(g: Grid, rowToMutate: int, mutatorRow: int) {
    && 1 <= rowToMutate <= |g|
    && 1 <= mutatorRow
    && (|g[rowToMutate - 1]| > 0 ==> mutatorRow <= |g| && |g[mutatorRow - 1]| >= |g[rowToMutate - 1]|)
  }

  /**
   * The grid after `replace(rowToMutate, mutatorRow, s)`: the row to mutate
   * gains `s` times the mutator row; an empty row has nothing to update.
   */
  function Replaced(g: Grid, rowToMutate: int, mutatorRow: int, s: real): (r: Grid)
    requires ReplaceDefined(g, rowToMutate, mutatorRow)
    ensures |r| == |g|
    ensures forall i :: 0 <= i < |g| && i != rowToMutate - 1 ==> r[i] == g[i]
    ensures |g[rowToMutate - 1]| == 0 ==> r == g
    ensures |g[rowToMutate - 1]| > 0 ==>
      r[rowToMutate - 1] == AddScaled(g[rowToMutate - 1], g[mutatorRow - 1], s)
    ensures IsRect(g) ==> IsRect(r) && Cols(r) == Cols(g)
  {
    var a := rowToMutate - 1;
    if |g[a]| == 0 then g
    else g[a := AddScaled(g[a], g[mutatorRow - 1], s)]
  }

  /** What `interchange` needs not to fail: it returns before indexing when the rows coincide. */
  predicate InterchangeDefined(g: Grid, rowA: int, rowB: int) {
    rowA >= 1 && rowB >= 1 && (rowA != rowB ==> rowA <= |g| && rowB <= |g|)
  }

  /** The grid after `interchange(rowA, rowB)`. */
  function Interchanged(g: Grid, rowA: int, rowB: int): (r: Grid)
    requires InterchangeDefined(g, rowA, rowB)
    ensures |r| == |g|
    ensures forall i :: 0 <= i < |g| ==>
      r[i] == (if i == rowA - 1 then g[rowB - 1] else if i == rowB - 1 then g[rowA - 1] else g[i])
    ensures IsRect(g) ==> IsRect(r) && Cols(r) == Cols(g)
  {
    if rowA == rowB then g
    else g[rowA - 1 := g[rowB - 1]][rowB - 1 := g[rowA - 1]]
  }

  /**
   * The list index Python uses for row number `row` in `self.contents[row - 1]`:
   * row 0 (index -1) and below count from the back.
   */
  function RowIndex(n: nat, row: int): (k: nat)
    requires 1 - n <= row <= n
    ensures k < n
  {
    if row >= 1 then row - 1 else row - 1 + n
  }

  /** The grid after `scale(row, s)`; `scale` has no index check, so Python's negative indexing applies. */
  function Scaled(g: Grid, row: int, s: real): (r: Grid)
    requires 1 - |g| <= row <= |g|
    ensures |r| == |g|
    ensures forall i :: 0 <= i < |g| && i != RowIndex(|g|, row) ==> r[i] == g[i]
    ensures |r[RowIndex(|g|, row)]| == |g[RowIndex(|g|, row)]|
    ensures forall j :: 0 <= j < |g[RowIndex(|g|, row)]| ==>
      r[RowIndex(|g|, row)][j] == g[RowIndex(|g|, row)][j] * s
    ensures IsRect(g) ==> IsRect(r) && Cols(r) == Cols(g)
  {
    var k := RowIndex(|g|, row);
    g[k := ScaleRow(g[k], s)]
  }

  // ---------------------------------------------------------------------
  // get_pivot_position (Matrix.py:242-245)
  // ---------------------------------------------------------------------

  /** The 1-based position of the first entry from index `k` on that does not round to zero. */
  function PivotFrom(row: seq<real>, accuracy: nat, k: nat): (p: Option<nat>)
    requires k <= |row|
    ensures p.Some? ==> k < p.value <= |row| && !RoundsToZero(row[p.value - 1], accuracy)
    ensures forall m :: k <= m < |row| && (p.None? || m < p.value - 1) ==> RoundsToZero(row[m], accuracy)
    decreases |row| - k
  {
    if k == |row| then None
    else if !RoundsToZero(row[k], accuracy) then Some(k + 1)
    else PivotFrom(row, accuracy, k + 1)
  }

  /** `get_pivot_position(row, accuracy)`. */
  function PivotOf(row: seq<real>, accuracy: nat): Option<nat> {
    PivotFrom(row, accuracy, 0)
  }

  /** The search loop of `get_pivot_position`, returning at the first entry that does not round to zero. */
  method GetPivotPosition(row: seq<real>, accuracy: nat) returns (p: Option<nat>)
    ensures p == PivotOf(row, accuracy)
    ensures p.Some? ==> 1 <= p.value <= |row| && !RoundsToZero(row[p.value - 1], accuracy)
    ensures forall m :: 0 <= m < |row| && (p.None? || m < p.value - 1) ==> RoundsToZero(row[m], accuracy)
  {
    for i := 0 to |row|
      invariant PivotOf(row, accuracy) == PivotFrom(row, accuracy, i)
      invariant forall m :: 0 <= m < i ==> RoundsToZero(row[m], accuracy)
    {
      if !RoundsToZero(row[i], accuracy) {
        return Some(i + 1);
      }
    }
    return None;
  }

  // ---------------------------------------------------------------------
  // ref (Matrix.py:183-212)
  // ---------------------------------------------------------------------

  /** The shapes `ref` handles: rectangular, and never so tall that a recursive step meets rows with no first entry. */
  predicate RefDefined(g: Grid) {
    IsRect(g) && |g| <= Cols(g) + 1
  }

  /** `[row[0] for row in self]`. */
  function FirstColumn(g: Grid): (c: seq<real>)
    requires forall i :: 0 <= i < |g| ==> |g[i]| > 0
    ensures |c| == |g|
    ensures forall i :: 0 <= i < |g| ==> c[i] == g[i][0]
  {
    seq(|g|, i requires 0 <= i < |g| => g[i][0])
  }

  /** `all(round(entry, accuracy) == 0 for entry in xs)`. */
  predicate AllNegligible(xs: seq<real>, accuracy: nat) {
    forall i :: 0 <= i < |xs| ==> RoundsToZero(xs[i], accuracy)
  }

  /** Python's `max`. */
  function Max(xs: seq<real>): (m: real)
    requires |xs| > 0
    ensures m in xs
    ensures forall i :: 0 <= i < |xs| ==> xs[i] <= m
  {
    if |xs| == 1 then xs[0]
    else
      var rest := Max(xs[1..]);
      assert forall i :: 1 <= i < |xs| ==> xs[i] == xs[1..][i - 1];
      if xs[0] >= rest then xs[0] else rest
  }

  /** Python's `min`. */
  function Min(xs: seq<real>): (m: real)
    requires |xs| > 0
    ensures m in xs
    ensures forall i :: 0 <= i < |xs| ==> m <= xs[i]
  {
    if |xs| == 1 then xs[0]
    else
      var rest := Min(xs[1..]);
      assert forall i :: 1 <= i < |xs| ==> xs[i] == xs[1..][i - 1];
      if xs[0] <= rest then xs[0] else rest
  }

  /** Python's `list.index`: the first position holding `v`. */
  function IndexOf(xs: seq<real>, v: real): (k: nat)
    requires v in xs
    ensures k < |xs| && xs[k] == v
    ensures forall m :: 0 <= m < k ==> xs[m] != v
  {
    if xs[0] == v then 0
    else
      assert v in xs[1..];
      1 + IndexOf(xs[1..], v)
  }

  /**
   * The 0-based row `ref` moves to the top: the first row holding the
   * column's maximum when that is larger in absolute value than the
   * minimum, and otherwise the first row holding the minimum.
   */
  function PivotRow(col: seq<real>): (p: nat)
    requires |col| > 0
    ensures p < |col|
    ensures forall i :: 0 <= i < |col| ==> Abs(col[i]) <= Abs(col[p])
    ensures forall i :: 0 <= i < |col| && col[i] == -col[p] ==> col[p] <= 0.0
    ensures forall m :: 0 <= m < p ==> col[m] != col[p]
  {
    var hi, lo := Max(col), Min(col);
    IndexOf(col, if Abs(hi) > Abs(lo) then hi else lo)
  }

  /**
   * Rows 2 to `k` (1-based) after the calls `replace(row, 1, -mat[row - 1][0] / mat[0][0])`
   * for row = 2, ..., k, made one after another.
   */
  function EliminateRows(g: Grid, k: nat): (r: Grid)
    requires IsRect(g) && 1 <= k <= |g| && Cols(g) > 0 && g[0][0] != 0.0
    ensures |r| == |g| && IsRect(r) && Cols(r) == Cols(g) && r[0] == g[0]
    ensures forall i :: k <= i < |g| ==> r[i] == g[i]
    ensures forall i :: 1 <= i < k ==> r[i][0] == 0.0
    decreases k
  {
    if k == 1 then g
    else
      var prev := EliminateRows(g, k - 1);
      ReplacedClears(prev, k, 1, 1);
      Replaced(prev, k, 1, -prev[k - 1][0] / prev[0][0])
  }

  /**
   * `replace(k, m, -mat[k - 1][c - 1] / mat[m - 1][c - 1])` leaves exactly 0
   * in column `c` of row `k`, when the mutator's entry there is nonzero.
   */
  lemma ReplacedClears(g: Grid, k: nat, m: nat, c: nat)
    requires IsRect(g) && 1 <= k <= |g| && 1 <= m <= |g| && 1 <= c <= Cols(g) && g[m - 1][c - 1] != 0.0
    ensures Replaced(g, k, m, -g[k - 1][c - 1] / g[m - 1][c - 1])[k - 1][c - 1] == 0.0
  {
    var v, w := g[k - 1][c - 1], g[m - 1][c - 1];
    var r := Replaced(g, k, m, -v / w);
    assert r[k - 1] == AddScaled(g[k - 1], g[m - 1], -v / w);
    assert r[k - 1][c - 1] == v + w * (-v / w);
    assert w * (-v / w) == -v;
  }

  /** One more call of `replace` extends `EliminateRows` by one row. */
  lemma EliminateRowsStep(g: Grid, k: nat)
    requires IsRect(g) && 2 <= k <= |g| && Cols(g) > 0 && g[0][0] != 0.0
    ensures var prev := EliminateRows(g, k - 1);
      Replaced(prev, k, 1, -prev[k - 1][0] / prev[0][0]) == EliminateRows(g, k)
  {
  }

  /** Step 2 of `ref`: clear the first column below the pivot row. */
  function EliminateBelow(g: Grid): (r: Grid)
    requires IsRect(g) && |g| > 0 && Cols(g) > 0 && g[0][0] != 0.0
    ensures |r| == |g| && IsRect(r) && Cols(r) == Cols(g) && r[0] == g[0]
    ensures forall i :: 1 <= i < |g| ==> r[i][0] == 0.0
  {
    EliminateRows(g, |g|)
  }

  /**
   * Steps 1 and 2 of `ref`: unless every first-column entry rounds to zero,
   * move the pivot row to the top and clear the column below it.
   */
  function RefStep(g: Grid, accuracy: nat): (m: Grid)
    requires IsRect(g) && |g| > 0 && Cols(g) > 0
    ensures |m| == |g| && IsRect(m) && Cols(m) == Cols(g)
  {
    var col := FirstColumn(g);
    if AllNegligible(col, accuracy) then g
    else
      var p := PivotRow(col);
      var sw := Interchanged(g, p + 1, 1);
      assert sw[0][0] == col[p];
      EliminateBelow(sw)
  }

  /**
   * `ref(accuracy)`. The recursive step uses the default accuracy, since the
   * source calls `ref()` on the submatrix without passing its own.
   */
  function RefOf(g: Grid, accuracy: nat): (r: Grid)
    requires RefDefined(g)
    ensures |r| == |g| && IsRect(r) && Cols(r) == Cols(g)
    ensures |g| < 2 ==> r == g
    decreases |g|
  {
    if |g| < 2 then g
    else
      var m := RefStep(g, accuracy);
      var sub := Submatrix(m, 2, 2, None, None);
      assert |sub| == |g| - 1 && (|sub| > 0 ==> Cols(sub) == Cols(g) - 1);
      Insert(m, RefOf(sub, DEFAULT_ACCURACY), (2, 2))
  }

  // ---------------------------------------------------------------------
  // rref (Matrix.py:213-240)
  // ---------------------------------------------------------------------

  /** Step 1 of `rref` on one row: scale it so that its pivot becomes 1. */
  function NormalizeRow(row: seq<real>): (r: seq<real>)
    ensures |r| == |row|
    ensures PivotOf(row, DEFAULT_ACCURACY).None? ==> r == row
    ensures PivotOf(row, DEFAULT_ACCURACY).Some? ==>
      var p := PivotOf(row, DEFAULT_ACCURACY).value;
      r[p - 1] == 1.0 && forall j :: 0 <= j < |row| ==> r[j] == row[j] / row[p - 1]
  {
    match PivotOf(row, DEFAULT_ACCURACY)
    case None => row
    case Some(p) => ScaleRow(row, 1.0 / row[p - 1])
  }

  /** Step 1 of `rref` for rows 1 to `k`: `scale(i + 1, 1 / row[pivot_pos - 1])` on each row with a pivot. */
  function NormalizeRows(g: Grid, k: nat): (r: Grid)
    requires IsRect(g) && k <= |g|
    ensures |r| == |g| && IsRect(r) && Cols(r) == Cols(g)
    ensures forall i :: 0 <= i < k ==> r[i] == NormalizeRow(g[i])
    ensures forall i :: k <= i < |g| ==> r[i] == g[i]
    decreases k
  {
    if k == 0 then g
    else
      var prev := NormalizeRows(g, k - 1);
      match PivotOf(prev[k - 1], DEFAULT_ACCURACY)
      case None => prev
      case Some(p) =>
        ScaledByPivot(prev, k, p);
        Scaled(prev, k, 1.0 / prev[k - 1][p - 1])
  }

  /** Scaling row `k` by the inverse of its pivot entry replaces it with `NormalizeRow` of it. */
  lemma ScaledByPivot(g: Grid, k: nat, p: nat)
    requires 1 <= k <= |g| && PivotOf(g[k - 1], DEFAULT_ACCURACY) == Some(p)
    ensures 1 <= p <= |g[k - 1]| && g[k - 1][p - 1] != 0.0
    ensures Scaled(g, k, 1.0 / g[k - 1][p - 1]) == g[k - 1 := NormalizeRow(g[k - 1])]
  {
    ZeroIsNegligible(DEFAULT_ACCURACY);
  }

  /**
   * The calls `replace(i2 + 1, i + 1, -mat[i2][p - 1] / row[p - 1])` for
   * i2 = 0, ..., k - 1 in turn: rows above row `i` lose their entry in
   * column `p`.
   */
  function ClearAbove(g: Grid, i: nat, p: nat, k: nat): (r: Grid)
    requires IsRect(g) && k <= i < |g| && 1 <= p <= Cols(g) && g[i][p - 1] != 0.0
    ensures |r| == |g| && IsRect(r) && Cols(r) == Cols(g)
    ensures forall m :: k <= m < |g| ==> r[m] == g[m]
    ensures forall m :: 0 <= m < k ==> r[m][p - 1] == 0.0
    decreases k
  {
    if k == 0 then g
    else
      var prev := ClearAbove(g, i, p, k - 1);
      ReplacedClears(prev, k, i + 1, p);
      Replaced(prev, k, i + 1, -prev[k - 1][p - 1] / prev[i][p - 1])
  }

  /**
   * Step 2 of `rref` for row `i`: when the row has a pivot, every row above
   * it loses its entry in the pivot's column.
   */
  function EliminateAbove(g: Grid, i: nat): (r: Grid)
    requires IsRect(g) && i < |g|
    ensures |r| == |g| && IsRect(r) && Cols(r) == Cols(g)
    ensures forall k :: i <= k < |g| ==> r[k] == g[k]
    ensures PivotOf(g[i], DEFAULT_ACCURACY).None? ==> r == g
    ensures PivotOf(g[i], DEFAULT_ACCURACY).Some? ==>
      var p := PivotOf(g[i], DEFAULT_ACCURACY).value;
      forall k :: 0 <= k < i ==> r[k][p - 1] == 0.0
  {
    match PivotOf(g[i], DEFAULT_ACCURACY)
    case None => g
    case Some(p) => ClearAbove(g, i, p, i)
  }

  /** Step 2 of `rref` carried out for rows 0 to `k` - 1, top to bottom. */
  function BackEliminate(g: Grid, k: nat): (r: Grid)
    requires IsRect(g) && k <= |g|
    ensures |r| == |g| && IsRect(r) && Cols(r) == Cols(g)
    ensures forall m :: k <= m < |g| ==> r[m] == g[m]
    decreases k
  {
    if k == 0 then g
    else EliminateAbove(BackEliminate(g, k - 1), k - 1)
  }

  /** `rref(accuracy)`: the accuracy is not used; `ref` and the pivot searches run with the default. */
  function RrefOf(g: Grid): (r: Grid)
    requires RefDefined(g)
    ensures |r| == |g| && IsRect(r) && Cols(r) == Cols(g)
    ensures |g| < 2 ==> r == RefOf(g, DEFAULT_ACCURACY)
  {
    var m := RefOf(g, DEFAULT_ACCURACY);
    if |g| < 2 then m
    else BackEliminate(NormalizeRows(m, |m|), |m|)
  }

  // ---------------------------------------------------------------------
  // The Matrix object
  // ---------------------------------------------------------------------

  /** A matrix whose rows the elementary row operations change in place. */
  class Matrix {
    var contents: Grid

    /** `Matrix(contents)`; the interactive constructor is not modelled. */
    constructor (contents: Grid)
      ensures this.contents == contents
    {
      this.contents := contents;
    }

    /** `copy()`: a new matrix with the same cells. */
    method Copy() returns (m: Matrix)
      ensures fresh(m) && m.contents == contents
    {
      m := new Matrix(contents);
    }

    /** `replace(row_to_mutate, mutator_row, scale)`: adds `scale` times one row to another, cell by cell. */
    method Replace(rowToMutate: int, mutatorRow: int, scale: real)
      requires ReplaceDefined(contents, rowToMutate, mutatorRow)
      modifies this
      ensures contents == Replaced(old(contents), rowToMutate, mutatorRow, scale)
    {
      var a, b := rowToMutate - 1, mutatorRow - 1;
      ghost var before := contents;
      for j := 0 to |contents[a]|
        invariant |contents| == |before| && |contents[a]| == |before[a]|
        invariant forall i :: 0 <= i < |before| && i != a ==> contents[i] == before[i]
        invariant forall k :: 0 <= k < j ==> contents[a][k] == before[a][k] + before[b][k] * scale
        invariant forall k :: j <= k < |before[a]| ==> contents[a][k] == before[a][k]
      {
        contents := contents[a := contents[a][j := contents[a][j] + contents[b][j] * scale]];
      }
      ghost var target := Replaced(before, rowToMutate, mutatorRow, scale);
      assert |target[a]| == |before[a]|;
      forall k | 0 <= k < |before[a]|
        ensures contents[a][k] == target[a][k]
      {
      }
      assert contents[a] == target[a];
      assert forall i :: 0 <= i < |contents| ==> contents[i] == target[i];
    }

    /** `interchange(row_a, row_b)`: swaps two rows; nothing happens when they are the same row. */
    method Interchange(rowA: int, rowB: int)
      requires InterchangeDefined(contents, rowA, rowB)
      modifies this
      ensures contents == Interchanged(old(contents), rowA, rowB)
    {
      if rowA == rowB {
        return;
      }
      var temp := contents[rowA - 1];
      contents := contents[rowA - 1 := contents[rowB - 1]];
      contents := contents[rowB - 1 := temp];
    }

    /** `scale(row_to_mutate, scale)`: rebinds the row to its cells times `scale`. */
    method Scale(rowToMutate: int, scale: real)
      requires 1 - |contents| <= rowToMutate <= |contents|
      modifies this
      ensures contents == Scaled(old(contents), rowToMutate, scale)
    {
      var k := RowIndex(|contents|, rowToMutate);
      contents := contents[k := ScaleRow(contents[k], scale)];
    }

    /**
     * Step 2 of `ref`: `replace(row, 1, -mat[row - 1][0] / mat[0][0])` for
     * row = 2, ..., the number of rows, clearing the first column below the pivot.
     */
    method EliminateBelowPivot()
      requires IsRect(contents) && |contents| > 0 && Cols(contents) > 0 && contents[0][0] != 0.0
      modifies this
      ensures contents == EliminateBelow(old(contents))
    {
      ghost var start := contents;
      var n := |contents|;
      for row := 2 to n + 1
        invariant contents == EliminateRows(start, row - 1)
      {
        Replace(row, 1, -contents[row - 1][0] / contents[0][0]);
        EliminateRowsStep(start, row);
      }
    }

    /**
     * The inner loop of step 2 of `rref`: `replace(i2 + 1, i + 1, -mat[i2][p - 1] / row[p - 1])`
     * for i2 = 0, ..., i - 1, where `p` is the pivot of row `i`.
     */
    method ClearAbovePivot(i: nat, p: nat)
      requires IsRect(contents) && i < |contents| && 1 <= p <= Cols(contents) && contents[i][p - 1] != 0.0
      modifies this
      ensures contents == ClearAbove(old(contents), i, p, i)
    {
      ghost var start := contents;
      var row := contents[i];
      for i2 := 0 to i
        invariant contents == ClearAbove(start, i, p, i2)
      {
        ghost var prev := contents;
        assert prev[i] == row;
        Replace(i2 + 1, i + 1, -contents[i2][p - 1] / row[p - 1]);
      }
    }

    /**
     * Steps 1 and 2 of `ref` on this matrix: unless every first-column entry
     * rounds to zero, `interchange` the pivot row with row 1 and clear the
     * column below it.
     */
    method PivotFirstColumn(accuracy: nat)
      requires IsRect(contents) && |contents| > 0 && Cols(contents) > 0
      modifies this
      ensures contents == RefStep(old(contents), accuracy)
    {
      var firstEntries := FirstColumn(contents);
      if !AllNegligible(firstEntries, accuracy) {
        var rowWithPivot := PivotRow(firstEntries) + 1;
        Interchange(rowWithPivot, 1);
        assert contents[0][0] == firstEntries[rowWithPivot - 1];
        EliminateBelowPivot();
      }
    }

    /**
     * `ref(accuracy)`: works on a copy, choosing and moving the pivot row
     * and clearing below it, then putting back the `ref()` of the block from
     * row 2, column 2.
     */
    method Ref(accuracy: nat) returns (r: Matrix)
      requires RefDefined(contents)
      ensures fresh(r) && r.contents == RefOf(contents, accuracy)
      decreases |contents|
    {
      var mat := Copy();
      if |contents| < 2 {
        return mat;
      }
      mat.PivotFirstColumn(accuracy);
      var sub := new Matrix(Submatrix(mat.contents, 2, 2, None, None));
      assert |sub.contents| == |contents| - 1;
      var subRef := sub.Ref(DEFAULT_ACCURACY);
      r := new Matrix(Insert(mat.contents, subRef.contents, (2, 2)));
    }

    /** Step 1 of `rref`: scales every row with a pivot so that the pivot becomes 1. */
    method NormalizePivots()
      requires IsRect(contents)
      modifies this
      ensures contents == NormalizeRows(old(contents), |old(contents)|)
    {
      ghost var start := contents;
      var n := |contents|;
      for i := 0 to n
        invariant contents == NormalizeRows(start, i)
      {
        var row := contents[i];
        var pivotPos := GetPivotPosition(row, DEFAULT_ACCURACY);
        if pivotPos.Some? {
          Scale(i + 1, 1.0 / row[pivotPos.value - 1]);
        }
      }
    }

    /** Step 2 of `rref`: row by row from the top, clears the column of each pivot above it. */
    method ClearAbovePivots()
      requires IsRect(contents)
      modifies this
      ensures contents == BackEliminate(old(contents), |old(contents)|)
    {
      ghost var start := contents;
      var n := |contents|;
      for i := 0 to n
        invariant contents == BackEliminate(start, i)
      {
        var row := contents[i];
        var pivotPos := GetPivotPosition(row, DEFAULT_ACCURACY);
        if pivotPos.Some? {
          ZeroIsNegligible(DEFAULT_ACCURACY);
          ClearAbovePivot(i, pivotPos.value);
        }
      }
    }

    /**
     * `rref(accuracy)`: takes `ref()`, scales every row with a pivot so the
     * pivot is 1, then clears each pivot's column above it, row by row.
     */
    method Rref(accuracy: nat) returns (r: Matrix)
      requires RefDefined(contents)
      ensures fresh(r) && r.contents == RrefOf(contents)
    {
      r := Ref(DEFAULT_ACCURACY);
      if |contents| < 2 {
        return;
      }
      r.NormalizePivots();
      r.ClearAbovePivots();
    }
  }
}
