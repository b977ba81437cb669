/**
 * Properties of the matrix engine of Matrix.py: how the row operations
 * undo one another, how `insert` and `submatrix` fit together, what one
 * elimination step of `ref` guarantees and what `rref` guarantees on an
 * echelon form with exact zeros.
 */
module MatrixFacts {
  import opened Options
  import opened Tolerance
  import opened Matrices

  // ---------------------------------------------------------------------
  // Row operations
  // ---------------------------------------------------------------------

  /** `interchange` is its own inverse, and the order of its arguments does not matter. */
  lemma InterchangeInvolution(g: Grid, rowA: int, rowB: int)
    requires InterchangeDefined(g, rowA, rowB)
    ensures Interchanged(Interchanged(g, rowA, rowB), rowA, rowB) == g
    ensures Interchanged(g, rowA, rowB) == Interchanged(g, rowB, rowA)
  {
    var once := Interchanged(g, rowA, rowB);
    var twice := Interchanged(once, rowA, rowB);
    assert forall i :: 0 <= i < |g| ==> twice[i] == g[i];
    var other := Interchanged(g, rowB, rowA);
    assert forall i :: 0 <= i < |g| ==> other[i] == once[i];
  }

  /** Adding `-s` times the same other row undoes `replace(a, b, s)`. */
  lemma ReplaceUndo(g: Grid, rowToMutate: int, mutatorRow: int, s: real)
    requires ReplaceDefined(g, rowToMutate, mutatorRow) && rowToMutate != mutatorRow
    ensures ReplaceDefined(Replaced(g, rowToMutate, mutatorRow, s), rowToMutate, mutatorRow)
    ensures Replaced(Replaced(g, rowToMutate, mutatorRow, s), rowToMutate, mutatorRow, -s) == g
  {
    var once := Replaced(g, rowToMutate, mutatorRow, s);
    var twice := Replaced(once, rowToMutate, mutatorRow, -s);
    var a := rowToMutate - 1;
    assert |twice[a]| == |g[a]|;
    forall j | 0 <= j < |g[a]|
      ensures twice[a][j] == g[a][j]
    {
    }
    assert twice[a] == g[a];
    assert forall i :: 0 <= i < |g| ==> twice[i] == g[i];
  }

  /** `replace` with scale 0 changes nothing. */
  lemma ReplaceByZero(g: Grid, rowToMutate: int, mutatorRow: int)
    requires ReplaceDefined(g, rowToMutate, mutatorRow)
    ensures Replaced(g, rowToMutate, mutatorRow, 0.0) == g
  {
    var r := Replaced(g, rowToMutate, mutatorRow, 0.0);
    var a := rowToMutate - 1;
    assert r[a] == g[a];
    assert forall i :: 0 <= i < |g| ==> r[i] == g[i];
  }

  /** Scaling a row by `s` and then by `1 / s` restores it, for any nonzero `s`. */
  lemma ScaleUndo(g: Grid, row: int, s: real)
    requires 1 - |g| <= row <= |g| && s != 0.0
    ensures Scaled(Scaled(g, row, s), row, 1.0 / s) == g
  {
    var once := Scaled(g, row, s);
    var twice := Scaled(once, row, 1.0 / s);
    var k := RowIndex(|g|, row);
    forall j | 0 <= j < |g[k]|
      ensures twice[k][j] == g[k][j]
    {
      calc {
        twice[k][j];
        once[k][j] * (1.0 / s);
        (g[k][j] * s) * (1.0 / s);
        g[k][j];
      }
    }
    assert twice[k] == g[k];
    assert forall i :: 0 <= i < |g| ==> twice[i] == g[i];
  }

  /** `scale(0, s)` and `scale(n, s)` act on the same, last row, as Python's index -1 does. */
  lemma ScaleRowZeroIsLast(g: Grid, s: real)
    requires |g| > 0
    ensures Scaled(g, 0, s) == Scaled(g, |g|, s)
  {
  }

  // ---------------------------------------------------------------------
  // insert and submatrix
  // ---------------------------------------------------------------------

  /** Reading back the block just written by `insert` gives the inserted matrix, when it fits. */
  lemma SubmatrixOfInsert(g: Grid, other: Grid, row: int, col: int)
    requires IsRect(g) && IsRect(other) && row >= 1 && col >= 1
    requires row - 1 + |other| <= |g| && col - 1 + Cols(other) <= Cols(g)
    ensures Submatrix(Insert(g, other, (row, col)), row, col,
                      Some(row - 1 + |other|), Some(col - 1 + Cols(other))) == other
  {
    var ins := Insert(g, other, (row, col));
    var back := Submatrix(ins, row, col, Some(row - 1 + |other|), Some(col - 1 + Cols(other)));
    assert |back| == |other|;
    forall i | 0 <= i < |other|
      ensures back[i] == other[i]
    {
      forall j | 0 <= j < |other[i]|
        ensures ins[row - 1 + i][col - 1 + j] == other[i][j]
      {
        InsertedCell(g, other, row, col, i, j);
      }
      SliceOfMatch(ins[row - 1 + i], other[i], col - 1);
    }
  }

  /** The cell at offset (`i`, `j`) of the block written by `insert` holds `other[i][j]`. */
  lemma InsertedCell(g: Grid, other: Grid, row: int, col: int, i: int, j: int)
    requires IsRect(g) && IsRect(other) && row >= 1 && col >= 1
    requires row - 1 + |other| <= |g| && col - 1 + Cols(other) <= Cols(g)
    requires 0 <= i < |other| && 0 <= j < |other[i]|
    ensures Insert(g, other, (row, col))[row - 1 + i][col - 1 + j] == other[i][j]
  {
    assert InBlock(other, i, j);
  }

  /** A slice of `s` from `lo` that agrees with `t` cell by cell is `t`. */
  lemma SliceOfMatch(s: seq<real>, t: seq<real>, lo: nat)
    requires lo + |t| <= |s|
    requires forall j :: 0 <= j < |t| ==> s[lo + j] == t[j]
    ensures Slice(s, lo, lo + |t|) == t
  {
  }

  /** Writing a matrix's own block back over it with `insert` changes nothing. */
  lemma InsertOwnBlock(g: Grid, row: int, col: int)
    requires IsRect(g) && |g| > 0 && row >= 1 && col >= 1
    ensures Insert(g, Submatrix(g, row, col, None, None), (row, col)) == g
  {
    var ins := Insert(g, Submatrix(g, row, col, None, None), (row, col));
    forall i | 0 <= i < |g|
      ensures ins[i] == g[i]
    {
      forall j | 0 <= j < Cols(g)
        ensures ins[i][j] == g[i][j]
      {
        OwnBlockCell(g, row, col, i, j);
      }
    }
  }

  /** Each cell of a matrix with its own block from (`row`, `col`) written back is the cell it was. */
  lemma OwnBlockCell(g: Grid, row: int, col: int, i: int, j: int)
    requires IsRect(g) && |g| > 0 && row >= 1 && col >= 1
    requires 0 <= i < |g| && 0 <= j < Cols(g)
    ensures Insert(g, Submatrix(g, row, col, None, None), (row, col))[i][j] == g[i][j]
  {
    var sub := Submatrix(g, row, col, None, None);
    if InBlock(sub, i - row + 1, j - col + 1) {
      assert |sub[i - row + 1]| == Cols(sub);
    }
  }

  /** `insert` with an empty matrix returns the cells of `self` unchanged. */
  lemma InsertEmpty(g: Grid, position: (int, int))
    requires IsRect(g) && position.0 >= 1 && position.1 >= 1
    ensures Insert(g, [], position) == g
  {
  }

  // ---------------------------------------------------------------------
  // One elimination step of ref
  // ---------------------------------------------------------------------

  /** After the first `k` rows are processed, each of rows 2 to `k` has gained the multiple of row 1 that clears its first entry. */
  lemma {:induction false} EliminateRowsCells(g: Grid, k: nat)
    requires IsRect(g) && 1 <= k <= |g| && Cols(g) > 0 && g[0][0] != 0.0
    ensures var r := EliminateRows(g, k);
      forall i :: 1 <= i < k ==> r[i] == AddScaled(g[i], g[0], -g[i][0] / g[0][0])
    decreases k
  {
    if k > 1 {
      EliminateRowsCells(g, k - 1);
      var prev := EliminateRows(g, k - 1);
      assert prev[k - 1] == g[k - 1] && prev[0] == g[0];
    }
  }

  /**
   * Step 2 of `ref` after row `p` + 1 has been swapped to the top: row 1 is
   * the old row `p` + 1, and every other row (the old first row in that
   * row's place) has gained the multiple of it that clears its first entry.
   */
  lemma EliminateBelowSwapped(g: Grid, p: nat)
    requires IsRect(g) && |g| > 0 && Cols(g) > 0 && p < |g| && g[p][0] != 0.0
    ensures var m := EliminateBelow(Interchanged(g, p + 1, 1));
      && m[0] == g[p]
      && (forall i :: 1 <= i < |g| && i != p ==> m[i] == AddScaled(g[i], m[0], -g[i][0] / m[0][0]))
      && (p != 0 ==> m[p] == AddScaled(g[0], m[0], -g[0][0] / m[0][0]))
  {
    var sw := Interchanged(g, p + 1, 1);
    assert sw[0] == g[p];
    var m := EliminateBelow(sw);
    EliminateRowsCells(sw, |sw|);
    assert m[0] == g[p];
    forall i | 1 <= i < |g| && i != p
      ensures m[i] == AddScaled(g[i], m[0], -g[i][0] / m[0][0])
    {
      assert sw[i] == g[i];
      assert m[i] == AddScaled(sw[i], sw[0], -sw[i][0] / sw[0][0]);
    }
    if p != 0 {
      assert sw[p] == g[0];
      assert m[p] == AddScaled(sw[p], sw[0], -sw[p][0] / sw[0][0]);
    }
  }

  /**
   * One step of `ref` when the first column is not negligible: the new
   * first row is the row of `g` whose first entry is largest in absolute
   * value (on a tie, the negative one; among equal entries, the first),
   * it is nonzero, and every row below it has a zero first entry, having
   * gained the multiple of the pivot row that clears it.
   */
  lemma RefStepPivots(g: Grid, accuracy: nat)
    requires IsRect(g) && |g| > 0 && Cols(g) > 0 && !AllNegligible(FirstColumn(g), accuracy)
    ensures var m, p := RefStep(g, accuracy), PivotRow(FirstColumn(g));
      && m[0] == g[p] && m[0][0] != 0.0
      && (forall i :: 0 <= i < |g| ==> Abs(g[i][0]) <= Abs(m[0][0]))
      && (forall i :: 0 <= i < |g| && g[i][0] == -m[0][0] ==> m[0][0] <= 0.0)
      && (forall i :: 0 <= i < p ==> g[i][0] != m[0][0])
      && (forall i :: 1 <= i < |g| ==> m[i][0] == 0.0)
      && (forall i :: 1 <= i < |g| && i != p ==> m[i] == AddScaled(g[i], m[0], -g[i][0] / m[0][0]))
      && (p != 0 ==> m[p] == AddScaled(g[0], m[0], -g[0][0] / m[0][0]))
  {
    var col := FirstColumn(g);
    var p := PivotRow(col);
    assert g[p][0] != 0.0 by {
      ZeroIsNegligible(accuracy);
    }
    EliminateBelowSwapped(g, p);
  }

  /** When every first-column entry rounds to zero, the step of `ref` changes nothing. */
  lemma RefStepSkips(g: Grid, accuracy: nat)
    requires IsRect(g) && |g| > 0 && Cols(g) > 0 && AllNegligible(FirstColumn(g), accuracy)
    ensures RefStep(g, accuracy) == g
  {
  }

  /** The recursion of `ref` only writes from row 2, column 2: row 1 and column 1 are those of its first step. */
  lemma RefKeepsFirstStep(g: Grid, accuracy: nat)
    requires RefDefined(g) && |g| >= 2
    ensures var r, m := RefOf(g, accuracy), RefStep(g, accuracy);
      r[0] == m[0] && forall i :: 0 <= i < |g| ==> r[i][0] == m[i][0]
  {
    var m := RefStep(g, accuracy);
    var sub := Submatrix(m, 2, 2, None, None);
    var r := RefOf(g, accuracy);
    assert r == Insert(m, RefOf(sub, DEFAULT_ACCURACY), (2, 2));
    forall j | 0 <= j < Cols(g)
      ensures r[0][j] == m[0][j]
    {
    }
  }

  /** On two rows, clearing below the pivot is one call of `replace`. */
  lemma EliminateTwoRows(g: Grid)
    requires IsRect(g) && |g| == 2 && Cols(g) > 0 && g[0][0] != 0.0
    ensures EliminateBelow(g) == [g[0], AddScaled(g[1], g[0], -g[1][0] / g[0][0])]
  {
    EliminateRowsStep(g, 2);
  }

  /** When the first column has an entry that does not round to zero, the first step swaps the pivot row up and clears below it. */
  lemma RefStepPivoting(g: Grid, accuracy: nat, p: nat)
    requires IsRect(g) && |g| > 0 && Cols(g) > 0
    requires !AllNegligible(FirstColumn(g), accuracy) && PivotRow(FirstColumn(g)) == p
    ensures Interchanged(g, p + 1, 1)[0][0] == g[p][0] != 0.0
    ensures RefStep(g, accuracy) == EliminateBelow(Interchanged(g, p + 1, 1))
  {
    ZeroIsNegligible(accuracy);
  }

  /** On two rows the recursion sees a single row and returns it unchanged, so `ref` is its first step. */
  lemma RefTwoRows(g: Grid, accuracy: nat)
    requires RefDefined(g) && |g| == 2
    ensures RefOf(g, accuracy) == RefStep(g, accuracy)
  {
    InsertOwnBlock(RefStep(g, accuracy), 2, 2);
  }

  /**
   * What `ref` guarantees about its first row and column: when the first
   * column is not negligible, row 1 is the input row with the largest first
   * entry in absolute value and it is the only row with a nonzero first
   * entry; otherwise row 1 and column 1 are left as they were.
   */
  lemma RefFirstColumn(g: Grid, accuracy: nat)
    requires RefDefined(g) && |g| >= 2
    ensures var r, p := RefOf(g, accuracy), PivotRow(FirstColumn(g));
      if AllNegligible(FirstColumn(g), accuracy) then
        r[0] == g[0] && forall i :: 0 <= i < |g| ==> r[i][0] == g[i][0]
      else
        && r[0] == g[p] && r[0][0] != 0.0
        && (forall i :: 0 <= i < |g| ==> Abs(g[i][0]) <= Abs(r[0][0]))
        && (forall i :: 1 <= i < |g| ==> r[i][0] == 0.0)
  {
    RefKeepsFirstStep(g, accuracy);
    if !AllNegligible(FirstColumn(g), accuracy) {
      RefStepPivots(g, accuracy);
    }
  }

  /**
   * `ref` does not always return an echelon form: it moves on to row 2,
   * column 2 even when column 1 is negligible, so in `[[0, 1], [0, 2]]`
   * both rows keep their leading entry in column 2.
   */
  lemma RefSkipsNegligibleColumn()
    ensures var g := [[0.0, 1.0], [0.0, 2.0]];
      RefOf(g, DEFAULT_ACCURACY) == g
      && PivotOf(g[0], DEFAULT_ACCURACY) == PivotOf(g[1], DEFAULT_ACCURACY) == Some(2)
  {
    var g := [[0.0, 1.0], [0.0, 2.0]];
    assert AllNegligible(FirstColumn(g), DEFAULT_ACCURACY);
    var sub := Submatrix(g, 2, 2, None, None);
    assert |sub| == 1;
    InsertOwnBlock(g, 2, 2);
  }

  /** The first example of `ref`'s documentation, with 5/3 in place of its display as 1.67. */
  lemma RefExample()
    ensures RefOf([[1.0, 3.0, 4.0, 7.0], [3.0, 9.0, 7.0, 6.0]], DEFAULT_ACCURACY)
         == [[3.0, 9.0, 7.0, 6.0], [0.0, 0.0, 5.0 / 3.0, 5.0]]
  {
    RefStepExample();
    RefTwoRows([[1.0, 3.0, 4.0, 7.0], [3.0, 9.0, 7.0, 6.0]], DEFAULT_ACCURACY);
  }

  /** The first step of the example swaps the second row up and clears below it. */
  lemma RefStepExample()
    ensures RefStep([[1.0, 3.0, 4.0, 7.0], [3.0, 9.0, 7.0, 6.0]], DEFAULT_ACCURACY)
         == [[3.0, 9.0, 7.0, 6.0], [0.0, 0.0, 5.0 / 3.0, 5.0]]
  {
    var g := [[1.0, 3.0, 4.0, 7.0], [3.0, 9.0, 7.0, 6.0]];
    PivotExample();
    RefStepPivoting(g, DEFAULT_ACCURACY, 1);
    assert Interchanged(g, 2, 1) == [[3.0, 9.0, 7.0, 6.0], [1.0, 3.0, 4.0, 7.0]];
    EliminateExample();
  }

  /** The example's first column `[1, 3]` is not negligible and its largest entry is in row 2. */
  lemma PivotExample()
    ensures var col := FirstColumn([[1.0, 3.0, 4.0, 7.0], [3.0, 9.0, 7.0, 6.0]]);
      !AllNegligible(col, DEFAULT_ACCURACY) && PivotRow(col) == 1
  {
    var col := FirstColumn([[1.0, 3.0, 4.0, 7.0], [3.0, 9.0, 7.0, 6.0]]);
    assert col == [1.0, 3.0];
    assert !RoundsToZero(col[1], DEFAULT_ACCURACY);
    assert Max(col) == 3.0 && Min(col) == 1.0;
  }

  /** Clearing below `[3, 9, 7, 6]` in the example. */
  lemma EliminateExample()
    ensures EliminateBelow([[3.0, 9.0, 7.0, 6.0], [1.0, 3.0, 4.0, 7.0]])
         == [[3.0, 9.0, 7.0, 6.0], [0.0, 0.0, 5.0 / 3.0, 5.0]]
  {
    var sw := [[3.0, 9.0, 7.0, 6.0], [1.0, 3.0, 4.0, 7.0]];
    EliminateTwoRows(sw);
    var row := AddScaled(sw[1], sw[0], -1.0 / 3.0);
    assert row[0] == 0.0 && row[1] == 0.0 && row[2] == 5.0 / 3.0 && row[3] == 5.0;
    assert row == [0.0, 0.0, 5.0 / 3.0, 5.0];
  }

  // ---------------------------------------------------------------------
  // rref on an echelon form with exact zeros
  // ---------------------------------------------------------------------

  /** The entries before the row's pivot (found with the default accuracy) are exactly zero. */
  predicate ZerosBeforePivot(row: seq<real>) {
    match PivotOf(row, DEFAULT_ACCURACY)
    case None => true
    case Some(p) => forall c :: 0 <= c < p - 1 ==> row[c] == 0.0
  }

  /**
   * An echelon form in which the zeros before each pivot are exact: every
   * row has only exact zeros before its pivot, and each pivot lies strictly
   * to the right of the pivots of the rows above it.
   */
  predicate ExactEchelon(g: Grid) {
    && (forall i :: 0 <= i < |g| ==> ZerosBeforePivot(g[i]))
    && (forall i, j :: 0 <= i < j < |g| && PivotOf(g[i], DEFAULT_ACCURACY).Some? && PivotOf(g[j], DEFAULT_ACCURACY).Some? ==>
          PivotOf(g[i], DEFAULT_ACCURACY).value < PivotOf(g[j], DEFAULT_ACCURACY).value)
  }

  /** Scaling a row with exact zeros before its pivot keeps the pivot where it was, and makes it 1. */
  lemma NormalizeKeepsPivot(row: seq<real>)
    requires ZerosBeforePivot(row)
    ensures PivotOf(NormalizeRow(row), DEFAULT_ACCURACY) == PivotOf(row, DEFAULT_ACCURACY)
    ensures ZerosBeforePivot(NormalizeRow(row))
    ensures PivotOf(row, DEFAULT_ACCURACY).Some? ==> NormalizeRow(row)[PivotOf(row, DEFAULT_ACCURACY).value - 1] == 1.0
  {
    var nr := NormalizeRow(row);
    if PivotOf(row, DEFAULT_ACCURACY).Some? {
      var p := PivotOf(row, DEFAULT_ACCURACY).value;
      ZeroIsNegligible(DEFAULT_ACCURACY);
      assert !RoundsToZero(1.0, DEFAULT_ACCURACY);
      forall c | 0 <= c < p - 1
        ensures nr[c] == 0.0
      {
        assert nr[c] == row[c] / row[p - 1];
      }
    }
  }

  /** Clearing above a pivot leaves alone every column in which the pivot row has a zero. */
  lemma {:induction false} ClearAboveKeepsColumn(g: Grid, i: nat, p: nat, k: nat, c: nat)
    requires IsRect(g) && k <= i < |g| && 1 <= p <= Cols(g) && g[i][p - 1] != 0.0
    requires c < Cols(g) && g[i][c] == 0.0
    ensures forall m :: 0 <= m < |g| ==> ClearAbove(g, i, p, k)[m][c] == g[m][c]
    decreases k
  {
    if k > 0 {
      ClearAboveKeepsColumn(g, i, p, k - 1, c);
      var prev := ClearAbove(g, i, p, k - 1);
      var r := Replaced(prev, k, i + 1, -prev[k - 1][p - 1] / prev[i][p - 1]);
      assert r == ClearAbove(g, i, p, k);
      assert prev[i] == g[i];
      assert r[k - 1] == AddScaled(prev[k - 1], prev[i], -prev[k - 1][p - 1] / prev[i][p - 1]);
      forall m | 0 <= m < |g|
        ensures r[m][c] == g[m][c]
      {
        if m != k - 1 {
          assert r[m] == prev[m];
        }
      }
    }
  }

  /** Row `i` of `b` still has the pivot entry of row `i` of `g`, and only zeros above it. */
  predicate PivotKept(g: Grid, b: Grid, i: nat)
    requires IsRect(g) && IsRect(b) && |b| == |g| && Cols(b) == Cols(g) && i < |g|
  {
    match PivotOf(g[i], DEFAULT_ACCURACY)
    case None => true
    case Some(p) => b[i][p - 1] == g[i][p - 1] && forall m :: 0 <= m < i ==> b[m][p - 1] == 0.0
  }

  /** A row without a pivot changes nothing in step 2 of `rref`. */
  lemma BackEliminateSkips(g: Grid, k: nat, i: nat)
    requires IsRect(g) && 1 <= k <= |g| && i < k && PivotOf(g[k - 1], DEFAULT_ACCURACY).None?
    requires i < k - 1 ==> PivotKept(g, BackEliminate(g, k - 1), i)
    ensures PivotKept(g, BackEliminate(g, k), i)
  {
    var prev := BackEliminate(g, k - 1);
    assert prev[k - 1] == g[k - 1];
    assert BackEliminate(g, k) == prev;
  }

  /**
   * Clearing above the pivot `q` of row `k` - 1 keeps what a row `i` before
   * it has, when its pivot column lies to the left, where row `k` - 1 has a zero.
   */
  lemma BackEliminateClearsPivot(g: Grid, k: nat, i: nat, q: nat)
    requires IsRect(g) && 1 <= k <= |g| && i < k && PivotOf(g[k - 1], DEFAULT_ACCURACY) == Some(q)
    requires i < k - 1 && PivotOf(g[i], DEFAULT_ACCURACY).Some? ==>
      PivotOf(g[i], DEFAULT_ACCURACY).value < q && g[k - 1][PivotOf(g[i], DEFAULT_ACCURACY).value - 1] == 0.0
    requires i < k - 1 ==> PivotKept(g, BackEliminate(g, k - 1), i)
    ensures PivotKept(g, BackEliminate(g, k), i)
  {
    var prev := BackEliminate(g, k - 1);
    var b := BackEliminate(g, k);
    assert prev[k - 1] == g[k - 1];
    ZeroIsNegligible(DEFAULT_ACCURACY);
    assert b == ClearAbove(prev, k - 1, q, k - 1);
    if i < k - 1 && PivotOf(g[i], DEFAULT_ACCURACY).Some? {
      var p := PivotOf(g[i], DEFAULT_ACCURACY).value;
      ClearAboveKeepsColumn(prev, k - 1, q, k - 1, p - 1);
    }
  }

  /** Step 2 of `rref` for row `k` - 1 of an exact echelon form keeps what row `i` before it has. */
  lemma BackEliminateStep(g: Grid, k: nat, i: nat)
    requires IsRect(g) && 1 <= k <= |g| && ExactEchelon(g) && i < k
    requires i < k - 1 ==> PivotKept(g, BackEliminate(g, k - 1), i)
    ensures PivotKept(g, BackEliminate(g, k), i)
  {
    match PivotOf(g[k - 1], DEFAULT_ACCURACY)
    case None =>
      BackEliminateSkips(g, k, i);
    case Some(q) =>
      assert ZerosBeforePivot(g[k - 1]);
      BackEliminateClearsPivot(g, k, i, q);
  }

  /**
   * Step 2 of `rref` on an exact echelon form, after rows 0 to `k` - 1: each
   * of those rows keeps its pivot entry, and the entries above it are zero.
   */
  lemma {:induction false} BackEliminateClears(g: Grid, k: nat)
    requires IsRect(g) && k <= |g| && ExactEchelon(g)
    ensures var b := BackEliminate(g, k);
      forall i :: 0 <= i < k && PivotOf(g[i], DEFAULT_ACCURACY).Some? ==>
        var p := PivotOf(g[i], DEFAULT_ACCURACY).value;
        b[i][p - 1] == g[i][p - 1] && forall m :: 0 <= m < i ==> b[m][p - 1] == 0.0
    decreases k
  {
    if k > 0 {
      BackEliminateClears(g, k - 1);
      var b := BackEliminate(g, k);
      forall i | 0 <= i < k && PivotOf(g[i], DEFAULT_ACCURACY).Some?
        ensures var p := PivotOf(g[i], DEFAULT_ACCURACY).value;
          b[i][p - 1] == g[i][p - 1] && forall m :: 0 <= m < i ==> b[m][p - 1] == 0.0
      {
        BackEliminateStep(g, k, i);
      }
    }
  }

  /** Step 1 of `rref` on an exact echelon form keeps every pivot in place, makes it 1, and keeps the form. */
  lemma NormalizeRowsEchelon(e: Grid)
    requires IsRect(e) && ExactEchelon(e)
    ensures var n := NormalizeRows(e, |e|);
      && ExactEchelon(n)
      && (forall i :: 0 <= i < |e| ==> PivotOf(n[i], DEFAULT_ACCURACY) == PivotOf(e[i], DEFAULT_ACCURACY))
      && (forall i :: 0 <= i < |e| && PivotOf(e[i], DEFAULT_ACCURACY).Some? ==>
            n[i][PivotOf(e[i], DEFAULT_ACCURACY).value - 1] == 1.0)
  {
    var n := NormalizeRows(e, |e|);
    forall i | 0 <= i < |e|
      ensures PivotOf(n[i], DEFAULT_ACCURACY) == PivotOf(e[i], DEFAULT_ACCURACY)
      ensures ZerosBeforePivot(n[i])
      ensures PivotOf(e[i], DEFAULT_ACCURACY).Some? ==> n[i][PivotOf(e[i], DEFAULT_ACCURACY).value - 1] == 1.0
    {
      NormalizeKeepsPivot(e[i]);
    }
  }

  /** Steps 1 and 2 of `rref` on an exact echelon form: every pivot becomes 1 and every entry above it 0. */
  lemma NormalizeAndClear(e: Grid)
    requires IsRect(e) && ExactEchelon(e)
    ensures var r := BackEliminate(NormalizeRows(e, |e|), |e|);
      forall i :: 0 <= i < |e| && PivotOf(e[i], DEFAULT_ACCURACY).Some? ==>
        var p := PivotOf(e[i], DEFAULT_ACCURACY).value;
        r[i][p - 1] == 1.0 && forall m :: 0 <= m < i ==> r[m][p - 1] == 0.0
  {
    var n := NormalizeRows(e, |e|);
    var r := BackEliminate(n, |n|);
    NormalizeRowsEchelon(e);
    BackEliminateClears(n, |n|);
    forall i | 0 <= i < |e| && PivotOf(e[i], DEFAULT_ACCURACY).Some?
      ensures var p := PivotOf(e[i], DEFAULT_ACCURACY).value;
        r[i][p - 1] == 1.0 && forall m :: 0 <= m < i ==> r[m][p - 1] == 0.0
    {
      assert PivotOf(n[i], DEFAULT_ACCURACY) == PivotOf(e[i], DEFAULT_ACCURACY);
    }
  }

  /**
   * `rref` on a matrix whose `ref` is an exact echelon form: every pivot
   * of the `ref` becomes 1 and every entry above it becomes 0.
   */
  lemma RrefPivots(g: Grid)
    requires RefDefined(g) && |g| >= 2 && ExactEchelon(RefOf(g, DEFAULT_ACCURACY))
    ensures var e, r := RefOf(g, DEFAULT_ACCURACY), RrefOf(g);
      forall i :: 0 <= i < |g| && PivotOf(e[i], DEFAULT_ACCURACY).Some? ==>
        var p := PivotOf(e[i], DEFAULT_ACCURACY).value;
        r[i][p - 1] == 1.0 && forall m :: 0 <= m < i ==> r[m][p - 1] == 0.0
  {
    NormalizeAndClear(RefOf(g, DEFAULT_ACCURACY));
  }

  /**
   * Step 2 of `rref` looks for the pivot again in the scaled row, where an
   * entry that rounded to zero before scaling may no longer do so: in
   * `[0.004, 0.5]` the pivot is in column 2, in the scaled `[0.008, 1]` it
   * is in column 1.
   */
  lemma RrefPivotCanMove()
    ensures var row := [0.004, 0.5];
      && PivotOf(row, DEFAULT_ACCURACY) == Some(2)
      && NormalizeRow(row) == [0.008, 1.0]
      && PivotOf(NormalizeRow(row), DEFAULT_ACCURACY) == Some(1)
  {
    var row := [0.004, 0.5];
    assert RoundsToZero(row[0], DEFAULT_ACCURACY);
    assert PivotOf(row, DEFAULT_ACCURACY) == Some(2);
    var nr := NormalizeRow(row);
    assert nr[0] == 0.008 && nr[1] == 1.0;
    assert nr == [0.008, 1.0];
  }

  /** Step 1 of `rref` in the first example of its documentation. */
  lemma RrefExampleScaling()
    ensures NormalizeRows([[3.0, 9.0, 7.0, 6.0], [0.0, 0.0, 5.0 / 3.0, 5.0]], 2)
         == [[1.0, 3.0, 7.0 / 3.0, 2.0], [0.0, 0.0, 1.0, 3.0]]
  {
    NormalizeExampleTop();
    NormalizeExampleBottom();
    NormalizeTwoRows([[3.0, 9.0, 7.0, 6.0], [0.0, 0.0, 5.0 / 3.0, 5.0]]);
  }

  /** Step 1 of `rref` on two rows normalises each. */
  lemma NormalizeTwoRows(g: Grid)
    requires IsRect(g) && |g| == 2
    ensures NormalizeRows(g, 2) == [NormalizeRow(g[0]), NormalizeRow(g[1])]
  {
  }

  lemma NormalizeExampleTop()
    ensures NormalizeRow([3.0, 9.0, 7.0, 6.0]) == [1.0, 3.0, 7.0 / 3.0, 2.0]
  {
    assert PivotOf([3.0, 9.0, 7.0, 6.0], DEFAULT_ACCURACY) == Some(1);
    assert ScaleRow([3.0, 9.0, 7.0, 6.0], 1.0 / 3.0) == [1.0, 3.0, 7.0 / 3.0, 2.0];
  }

  lemma NormalizeExampleBottom()
    ensures NormalizeRow([0.0, 0.0, 5.0 / 3.0, 5.0]) == [0.0, 0.0, 1.0, 3.0]
  {
    ZeroIsNegligible(DEFAULT_ACCURACY);
    assert PivotOf([0.0, 0.0, 5.0 / 3.0, 5.0], DEFAULT_ACCURACY) == Some(3);
    assert ScaleRow([0.0, 0.0, 5.0 / 3.0, 5.0], 3.0 / 5.0) == [0.0, 0.0, 1.0, 3.0];
  }

  /** Step 2 of `rref` in the first example of its documentation. */
  lemma RrefExampleClearing()
    ensures BackEliminate([[1.0, 3.0, 7.0 / 3.0, 2.0], [0.0, 0.0, 1.0, 3.0]], 2)
         == [[1.0, 3.0, 0.0, -5.0], [0.0, 0.0, 1.0, 3.0]]
  {
    var n := [[1.0, 3.0, 7.0 / 3.0, 2.0], [0.0, 0.0, 1.0, 3.0]];
    assert PivotOf(n[0], DEFAULT_ACCURACY) == Some(1);
    assert PivotOf(n[1], DEFAULT_ACCURACY) == Some(3) by {
      ZeroIsNegligible(DEFAULT_ACCURACY);
    }
    assert BackEliminate(n, 1) == n;
    var top := AddScaled(n[0], n[1], -7.0 / 3.0);
    assert top == [1.0, 3.0, 0.0, -5.0];
    assert ClearAbove(n, 1, 3, 1) == [top, n[1]];
  }

  /** The first example of `rref`'s documentation. */
  lemma RrefExample()
    ensures RrefOf([[1.0, 3.0, 4.0, 7.0], [3.0, 9.0, 7.0, 6.0]])
         == [[1.0, 3.0, 0.0, -5.0], [0.0, 0.0, 1.0, 3.0]]
  {
    RefExample();
    RrefExampleScaling();
    RrefExampleClearing();
  }
}
