/**
 * Properties of the linear-system layer: on a square triangular echelon
 * form the system has exactly one solution, back-substitution finds it and
 * it satisfies every equation; and the behaviour on the documented examples.
 */
module LinearSystemFacts {
  import opened Options
  import opened Tolerance
  import opened Matrices
  import opened LinearSystems
  import opened MatrixFacts

  /** `x[lo] * row[lo] + ... + x[hi - 1] * row[hi - 1]`. */
  function Dot(row: seq<real>, x: seq<real>, lo: nat, hi: nat): real
    requires hi <= |row| && hi <= |x|
    decreases hi - lo
  {
    if lo >= hi then 0.0 else x[lo] * row[lo] + Dot(row, x, lo + 1, hi)
  }

  /** `x` satisfies every equation of the augmented matrix `g`: each row's coefficients against `x` give its last entry. */
  predicate Satisfies(g: Grid, x: seq<real>) {
    forall i :: 0 <= i < |g| ==> |g[i]| == |x| + 1 && Dot(g[i], x, 0, |x|) == g[i][|x|]
  }

  /**
   * A square triangular echelon form with `n` unknowns: row `i` has its
   * pivot in column `i` + 1 (with `places` decimal places), exact zeros
   * before it, and a pivot entry that does not round to zero with `round2`.
   */
  predicate Triangular(g: Grid, places: nat) {
    && |g| > 0 && IsRect(g) && Cols(g) == |g| + 1
    && forall i :: 0 <= i < |g| ==>
         && PivotOf(g[i], places) == Some(i + 1)
         && !Round2IsZero(g[i][i], places)
         && (forall j :: 0 <= j < i ==> g[i][j] == 0.0)
  }

  // ---------------------------------------------------------------------
  // Sums
  // ---------------------------------------------------------------------

  /** The sum can also be taken from its last term. */
  lemma {:induction false} DotLast(row: seq<real>, x: seq<real>, lo: nat, hi: nat)
    requires lo < hi <= |row| && hi <= |x|
    ensures Dot(row, x, lo, hi) == Dot(row, x, lo, hi - 1) + x[hi - 1] * row[hi - 1]
    decreases hi - lo
  {
    if lo + 1 < hi {
      DotLast(row, x, lo + 1, hi);
    }
  }

  /** The sum only reads `x` between `lo` and `hi`. */
  lemma {:induction false} DotFrame(row: seq<real>, x: seq<real>, y: seq<real>, lo: nat, hi: nat)
    requires hi <= |row| && hi <= |x| && hi <= |y|
    requires forall j :: lo <= j < hi ==> x[j] == y[j]
    ensures Dot(row, x, lo, hi) == Dot(row, y, lo, hi)
    decreases hi - lo
  {
    if lo < hi {
      DotFrame(row, x, y, lo + 1, hi);
    }
  }

  /** Terms with a zero coefficient add nothing. */
  lemma {:induction false} DotZeroPrefix(row: seq<real>, x: seq<real>, lo: nat, mid: nat, hi: nat)
    requires lo <= mid <= hi <= |row| && hi <= |x|
    requires forall j :: lo <= j < mid ==> row[j] == 0.0
    ensures Dot(row, x, lo, hi) == Dot(row, x, mid, hi)
    decreases mid - lo
  {
    if lo < mid {
      DotZeroPrefix(row, x, lo + 1, mid, hi);
    }
  }

  /** The loop's sum, when every key it looks up is there, is the sum against the values those keys hold. */
  lemma {:induction false} SumFromIsDot(sols: map<int, real>, row: seq<real>, x: seq<real>, lo: nat, hi: nat)
    requires hi <= |row| && hi <= |x|
    requires forall k :: lo < k <= hi ==> k in sols && sols[k] == x[k - 1]
    ensures SumFrom(sols, row, lo, hi) == Success(Dot(row, x, lo, hi))
    decreases hi
  {
    if lo < hi {
      SumFromIsDot(sols, row, x, lo, hi - 1);
      DotLast(row, x, lo, hi);
      assert hi in sols && sols[hi] == x[hi - 1];
      assert SumFrom(sols, row, lo, hi) == Success(Dot(row, x, lo, hi - 1) + sols[hi] * row[hi - 1]);
      assert Dot(row, x, lo, hi - 1) + sols[hi] * row[hi - 1] == Dot(row, x, lo, hi);
    }
  }

  // ---------------------------------------------------------------------
  // Back-substitution on a triangular form
  // ---------------------------------------------------------------------

  /** The values the dictionary holds for x1, ..., xn, with 0 where a key is missing. */
  function Values(sols: map<int, real>, n: nat): (v: seq<real>)
    ensures |v| == n
    ensures forall k :: 1 <= k <= n && k in sols ==> v[k - 1] == sols[k]
  {
    seq(n, j requires 0 <= j < n => if j + 1 in sols then sols[j + 1] else 0.0)
  }

  /** Every row of a triangular form has a pivot. */
  lemma TriangularHasPivots(g: Grid, places: nat)
    requires Triangular(g, places)
    ensures EveryRowHasPivot(g, places)
  {
  }

  /** Setting one key changes one value. */
  lemma ValuesUpdate(s: map<int, real>, n: nat, k: nat, x: real)
    requires k < n
    ensures Values(s[k + 1 := x], n)[k] == x
    ensures forall j :: 0 <= j < n && j != k ==> Values(s[k + 1 := x], n)[j] == Values(s, n)[j]
  {
  }

  /** Adding the key before a run of keys extends the run by one. */
  lemma KeysExtend(s: map<int, real>, s': map<int, real>, k: nat, n: nat, x: real)
    requires k < n && s' == s[k + 1 := x]
    requires forall key :: key in s <==> k + 1 < key <= n
    requires |s| == n - k - 1
    ensures forall key :: key in s' <==> k < key <= n
    ensures |s'| == n - k
  {
    assert k + 1 !in s;
  }

  /** The row's unknown, solved for from the sum of the terms after it. */
  function SolvedFor(s: map<int, real>, row: seq<real>, k: nat, n: nat): real
    requires k < n && |row| == n + 1 && row[k] != 0.0
  {
    (row[n] - Dot(row, Values(s, n), k + 1, n)) / row[k]
  }

  /** With the keys after the pivot in place, the row's unknown is solved for. */
  lemma SolveRowSucceeds(s: map<int, real>, row: seq<real>, places: nat, k: nat, n: nat)
    requires k < n && |row| == n + 1 && row[k] != 0.0
    requires PivotOf(row, places) == Some(k + 1)
    requires forall key :: key in s <==> k + 1 < key <= n
    ensures SolveRow(s, row, places) == Success(s[k + 1 := SolvedFor(s, row, k, n)])
  {
    var v := Values(s, n);
    assert forall key :: k + 1 < key <= n ==> key in s && s[key] == v[key - 1];
    SumFromIsDot(s, row, v, k + 1, n);
    SolveRowFromSum(s, row, places, k + 1, n, Dot(row, v, k + 1, n));
  }

  /** Once the sum past the pivot is known, the row stores its unknown. */
  lemma SolveRowFromSum(s: map<int, real>, row: seq<real>, places: nat, p: nat, n: nat, t: real)
    requires |row| == n + 1 && p <= n && PivotOf(row, places) == Some(p)
    requires SumFrom(s, row, p, n) == Success(t)
    ensures SolveRow(s, row, places) == Success(s[p := (row[n] - t) / row[p - 1]])
  {
  }

  /** The solved-for value satisfies the row's equation. */
  lemma SolvedRowHolds(s: map<int, real>, row: seq<real>, k: nat, n: nat)
    requires k < n && |row| == n + 1 && row[k] != 0.0
    ensures Dot(row, Values(s[k + 1 := SolvedFor(s, row, k, n)], n), k, n) == row[n]
  {
    var x := SolvedFor(s, row, k, n);
    var v, v' := Values(s, n), Values(s[k + 1 := x], n);
    var t := Dot(row, v, k + 1, n);
    ValuesUpdate(s, n, k, x);
    DotFrame(row, v', v, k + 1, n);
    assert Dot(row, v', k, n) == x * row[k] + t;
    assert x * row[k] == row[n] - t;
  }

  /** The facts about a triangular form that back-substitution relies on. */
  predicate DiagonalPivots(g: Grid, places: nat) {
    forall i :: 0 <= i < |g| ==>
      && |g[i]| == |g| + 1
      && PivotOf(g[i], places) == Some(i + 1)
      && g[i][i] != 0.0
  }

  lemma TriangularDiagonalPivots(g: Grid, places: nat)
    requires Triangular(g, places)
    ensures DiagonalPivots(g, places) && EveryRowHasPivot(g, places)
  {
    ZeroIsNegligible(places);
  }

  /**
   * What the loop has built after handling rows `n` - 1 down to `k`: the
   * dictionary holds exactly the keys `k` + 1 to `n`, and every handled
   * row's equation holds for the values found so far.
   */
  ghost predicate SolvedFrom(g: Grid, s: map<int, real>, k: nat)
    requires forall i :: 0 <= i < |g| ==> |g[i]| == |g| + 1
  {
    && (forall key :: key in s <==> k < key <= |g|)
    && |s| == |g| - k
    && forall i :: k <= i < |g| ==> Dot(g[i], Values(s, |g|), i, |g|) == g[i][|g|]
  }

  /** On a triangular form the loop never fails, and once it has handled every row it has built `SolvedFrom` row 0. */
  lemma TriangularBackSubstitute(g: Grid, places: nat)
    requires DiagonalPivots(g, places) && EveryRowHasPivot(g, places)
    ensures BackSubstitute(g, places, 0).Success?
    ensures SolvedFrom(g, BackSubstitute(g, places, 0).value, 0)
  {
    var k: nat := |g|;
    assert BackSubstitute(g, places, k) == Success(map[]);
    while k > 0
      invariant k <= |g|
      invariant BackSubstitute(g, places, k).Success? && SolvedFrom(g, BackSubstitute(g, places, k).value, k)
    {
      var s := BackSubstitute(g, places, k).value;
      k := k - 1;
      BackSubstituteStep(g, places, k, s);
    }
  }

  /** One pass of the loop: row `k` of a triangular form adds its own unknown and keeps the rows below it solved. */
  lemma BackSubstituteStep(g: Grid, places: nat, k: nat, s: map<int, real>)
    requires DiagonalPivots(g, places) && EveryRowHasPivot(g, places) && k < |g|
    requires BackSubstitute(g, places, k + 1) == Success(s)
    requires SolvedFrom(g, s, k + 1)
    ensures BackSubstitute(g, places, k).Success?
    ensures SolvedFrom(g, BackSubstitute(g, places, k).value, k)
  {
    var n := |g|;
    SolveRowSucceeds(s, g[k], places, k, n);
    var x := SolvedFor(s, g[k], k, n);
    var s' := s[k + 1 := x];
    assert BackSubstitute(g, places, k) == Success(s');
    KeysExtend(s, s', k, n, x);
    SolvedRowHolds(s, g[k], k, n);
    LowerRowsKept(g, s, k, x);
  }

  /** Setting the unknown of row `k` leaves the equations of the rows below it as they were. */
  lemma LowerRowsKept(g: Grid, s: map<int, real>, k: nat, x: real)
    requires k < |g| && forall i :: 0 <= i < |g| ==> |g[i]| == |g| + 1
    requires forall i :: k < i < |g| ==> Dot(g[i], Values(s, |g|), i, |g|) == g[i][|g|]
    ensures forall i :: k < i < |g| ==> Dot(g[i], Values(s[k + 1 := x], |g|), i, |g|) == g[i][|g|]
  {
    var n := |g|;
    ValuesUpdate(s, n, k, x);
    forall i | k < i < n
      ensures Dot(g[i], Values(s[k + 1 := x], n), i, n) == g[i][n]
    {
      DotFrame(g[i], Values(s[k + 1 := x], n), Values(s, n), i, n);
    }
  }

  // ---------------------------------------------------------------------
  // The theorem: one solution, found and correct
  // ---------------------------------------------------------------------

  /** Without tautologies, none is counted. */
  lemma {:induction false} NoTautologies(g: Grid, places: nat)
    requires forall i :: 0 <= i < |g| ==> !Tautology(g[i], places)
    ensures CountTautologies(g, places) == 0
  {
    if |g| > 0 {
      NoTautologies(g[..|g| - 1], places);
    }
  }

  /** A triangular form is classified as having exactly one solution. */
  lemma TriangularClassifiedOne(g: Grid, places: nat)
    requires Triangular(g, places)
    ensures Classifiable(g) && Classify(g, places) == One
  {
    forall i | 0 <= i < |g|
      ensures !Inconsistent(g[i], places) && !Tautology(g[i], places)
    {
      assert !Round2IsZero(g[i][i], places);
    }
    NoTautologies(g, places);
    assert NumVars(g) == |g|;
  }

  /**
   * On a triangular form, `solution()` returns a tuple of one value per
   * unknown, and that tuple satisfies every equation.
   */
  lemma TriangularSolved(g: Grid, places: nat)
    requires Triangular(g, places)
    ensures Classifiable(g)
    ensures SolutionOf(g, places).Solved?
    ensures |SolutionOf(g, places).values| == |g|
    ensures Satisfies(g, SolutionOf(g, places).values)
  {
    var n := |g|;
    TriangularClassifiedOne(g, places);
    TriangularDiagonalPivots(g, places);
    TriangularBackSubstitute(g, places);
    var s := BackSubstitute(g, places, 0).value;
    var c := Collect(s, |s|);
    assert c.Success?;
    var v := c.value;
    assert v == Values(s, n);
    assert SolutionOf(g, places) == Solved(v);
    forall i | 0 <= i < n
      ensures Dot(g[i], v, 0, n) == g[i][n]
    {
      DotZeroPrefix(g[i], v, 0, i, n);
    }
  }

  /** Row `i` has zeros before a nonzero diagonal entry: the shape that makes a solution unique. */
  predicate UpperTriangular(g: Grid) {
    forall i :: 0 <= i < |g| ==>
      && |g[i]| == |g| + 1
      && g[i][i] != 0.0
      && (forall j :: 0 <= j < i ==> g[i][j] == 0.0)
  }

  /** Two sums with the same total and the same tail have the same head. */
  lemma SameTail(a: real, b: real, t: real, total: real)
    requires a + t == total && b + t == total
    ensures a == b
  {
  }

  /** A nonzero factor cancels. */
  lemma CancelFactor(u: real, w: real, a: real)
    requires a != 0.0 && u * a == w * a
    ensures u == w
  {
    assert u == u * a / a;
  }

  /** One equation with zeros before a nonzero entry `k` fixes unknown `k` once the later ones are fixed. */
  lemma RowFixesValue(row: seq<real>, x: seq<real>, y: seq<real>, k: nat)
    requires |x| == |y| && k < |x| && |row| == |x| + 1
    requires row[k] != 0.0 && forall j :: 0 <= j < k ==> row[j] == 0.0
    requires forall j :: k < j < |x| ==> x[j] == y[j]
    requires Dot(row, x, 0, |x|) == Dot(row, y, 0, |x|)
    ensures x[k] == y[k]
  {
    var n := |x|;
    DotZeroPrefix(row, x, 0, k, n);
    DotZeroPrefix(row, y, 0, k, n);
    DotFrame(row, x, y, k + 1, n);
    HeadTermCancels(row, x, y, k, n);
  }

  /** Equal sums from `k` with equal tails from `k` + 1 agree at `k`, when the coefficient there is nonzero. */
  lemma HeadTermCancels(row: seq<real>, x: seq<real>, y: seq<real>, k: nat, n: nat)
    requires k < n <= |row| && n <= |x| && n <= |y| && row[k] != 0.0
    requires Dot(row, x, k, n) == Dot(row, y, k, n)
    requires Dot(row, x, k + 1, n) == Dot(row, y, k + 1, n)
    ensures x[k] == y[k]
  {
    SameTail(x[k] * row[k], y[k] * row[k], Dot(row, x, k + 1, n), Dot(row, x, k, n));
    CancelFactor(x[k], y[k], row[k]);
  }

  /** Two solutions of an upper-triangular system agree from unknown `k` on. */
  lemma {:induction false} AgreeFrom(g: Grid, x: seq<real>, y: seq<real>, k: nat)
    requires UpperTriangular(g) && |x| == |y| == |g| && k <= |g|
    requires Satisfies(g, x) && Satisfies(g, y)
    ensures x[k..] == y[k..]
    decreases |g| - k
  {
    if k < |g| {
      AgreeFrom(g, x, y, k + 1);
      assert forall j :: k < j < |x| ==> x[j] == x[k + 1..][j - k - 1] == y[j];
      RowFixesValue(g[k], x, y, k);
      assert x[k..] == [x[k]] + x[k + 1..];
      assert y[k..] == [y[k]] + y[k + 1..];
    }
  }

  /** An upper-triangular system has at most one solution. */
  lemma UpperTriangularUnique(g: Grid, x: seq<real>, y: seq<real>)
    requires UpperTriangular(g) && |x| == |y| == |g|
    requires Satisfies(g, x) && Satisfies(g, y)
    ensures x == y
  {
    AgreeFrom(g, x, y, 0);
  }

  /** On a triangular form the tuple `solution()` returns is the only tuple that satisfies every equation. */
  lemma TriangularSolutionUnique(g: Grid, places: nat, y: seq<real>)
    requires Triangular(g, places) && Satisfies(g, y)
    ensures Classifiable(g) && SolutionOf(g, places) == Solved(y)
  {
    TriangularSolved(g, places);
    assert UpperTriangular(g) by {
      ZeroIsNegligible(places);
    }
    var x := SolutionOf(g, places).values;
    assert |y| == |g| by {
      assert |g[0]| == |y| + 1;
    }
    UpperTriangularUnique(g, x, y);
  }

  // ---------------------------------------------------------------------
  // The documented examples
  // ---------------------------------------------------------------------

  /** Clearing below the row of threes leaves rows of zeros. */
  lemma EliminateDependentRows()
    ensures var sw := [[3.0, 3.0, 3.0], [2.0, 2.0, 2.0], [1.0, 1.0, 1.0]];
      EliminateBelow(sw) == [[3.0, 3.0, 3.0], [0.0, 0.0, 0.0], [0.0, 0.0, 0.0]]
  {
    var sw := [[3.0, 3.0, 3.0], [2.0, 2.0, 2.0], [1.0, 1.0, 1.0]];
    var zero := [0.0, 0.0, 0.0];
    assert AddScaled(sw[1], sw[0], -2.0 / 3.0) == zero;
    assert AddScaled(sw[2], sw[0], -1.0 / 3.0) == zero;
    EliminateRowsStep(sw, 2);
    EliminateRowsStep(sw, 3);
  }

  /** Below and right of the row of threes lies a block of zeros. */
  lemma SubmatrixOfZeroRows()
    ensures Submatrix([[3.0, 3.0, 3.0], [0.0, 0.0, 0.0], [0.0, 0.0, 0.0]], 2, 2, None, None)
         == [[0.0, 0.0], [0.0, 0.0]]
  {
    var m := [[3.0, 3.0, 3.0], [0.0, 0.0, 0.0], [0.0, 0.0, 0.0]];
    var sub := Submatrix(m, 2, 2, None, None);
    assert |sub| == 2 && |sub[0]| == 2 && |sub[1]| == 2;
    assert sub[0][0] == m[1][1] && sub[0][1] == m[1][2];
    assert sub[1][0] == m[2][1] && sub[1][1] == m[2][2];
    assert sub[0] == [0.0, 0.0] && sub[1] == [0.0, 0.0];
  }

  /** `ref` leaves a block of zeros as it is. */
  lemma RefOfZeroBlock()
    ensures RefOf([[0.0, 0.0], [0.0, 0.0]], DEFAULT_ACCURACY) == [[0.0, 0.0], [0.0, 0.0]]
  {
    var z := [[0.0, 0.0], [0.0, 0.0]];
    assert AllNegligible(FirstColumn(z), DEFAULT_ACCURACY);
    InsertOwnBlock(z, 2, 2);
  }

  /** The first step of `ref` on `[[1, 1, 1], [2, 2, 2], [3, 3, 3]]` moves the row of threes up and clears below it. */
  lemma RefStepDependentRows()
    ensures RefStep([[1.0, 1.0, 1.0], [2.0, 2.0, 2.0], [3.0, 3.0, 3.0]], DEFAULT_ACCURACY)
         == [[3.0, 3.0, 3.0], [0.0, 0.0, 0.0], [0.0, 0.0, 0.0]]
  {
    var g := [[1.0, 1.0, 1.0], [2.0, 2.0, 2.0], [3.0, 3.0, 3.0]];
    var col := FirstColumn(g);
    assert col == [1.0, 2.0, 3.0];
    assert !RoundsToZero(col[2], DEFAULT_ACCURACY);
    assert Max(col) == 3.0 && Min(col) == 1.0;
    assert PivotRow(col) == 2;
    assert Interchanged(g, 3, 1) == [[3.0, 3.0, 3.0], [2.0, 2.0, 2.0], [1.0, 1.0, 1.0]];
    EliminateDependentRows();
  }

  /** The echelon form of `[[1, 1, 1], [2, 2, 2], [3, 3, 3]]`: the row of threes on top, zeros below. */
  lemma RefOfDependentRows()
    ensures RefOf([[1.0, 1.0, 1.0], [2.0, 2.0, 2.0], [3.0, 3.0, 3.0]], DEFAULT_ACCURACY)
         == [[3.0, 3.0, 3.0], [0.0, 0.0, 0.0], [0.0, 0.0, 0.0]]
  {
    var m := [[3.0, 3.0, 3.0], [0.0, 0.0, 0.0], [0.0, 0.0, 0.0]];
    RefStepDependentRows();
    SubmatrixOfZeroRows();
    RefOfZeroBlock();
    InsertOwnBlock(m, 2, 2);
  }

  /** The echelon form of the dependent rows has two tautologies and two unknowns against three rows: infinitely many solutions. */
  lemma ClassifyDependentForm()
    ensures Classifiable([[3.0, 3.0, 3.0], [0.0, 0.0, 0.0], [0.0, 0.0, 0.0]]) && Classify([[3.0, 3.0, 3.0], [0.0, 0.0, 0.0], [0.0, 0.0, 0.0]], DEFAULT_ACCURACY) == Infinite
  {
    var r := [[3.0, 3.0, 3.0], [0.0, 0.0, 0.0], [0.0, 0.0, 0.0]];
    ZeroIsNegligible(DEFAULT_ACCURACY);
    assert Abs(r[0][0]) == 3.0 && !Round2IsZero(r[0][0], DEFAULT_ACCURACY);
    assert !Tautology(r[0], DEFAULT_ACCURACY);
    assert Tautology(r[1], DEFAULT_ACCURACY) && Tautology(r[2], DEFAULT_ACCURACY);
    assert r[..2][..1] == r[..1];
    assert CountTautologies(r, DEFAULT_ACCURACY) == 2;
  }

  /** `num_solutions` on `[[1, 1, 1], [2, 2, 2], [3, 3, 3]]`: infinitely many. */
  lemma NumSolutionsDependent()
    ensures var r := RefOf([[1.0, 1.0, 1.0], [2.0, 2.0, 2.0], [3.0, 3.0, 3.0]], DEFAULT_ACCURACY);
      Classifiable(r) && Classify(r, DEFAULT_ACCURACY) == Infinite
  {
    RefOfDependentRows();
    ClassifyDependentForm();
  }

  /** The echelon form of `[[2, 1, 1], [4, 2, 1.25]]`. */
  lemma RefOfInconsistent()
    ensures RefOf([[2.0, 1.0, 1.0], [4.0, 2.0, 1.25]], DEFAULT_ACCURACY) == [[4.0, 2.0, 1.25], [0.0, 0.0, 0.375]]
  {
    var g := [[2.0, 1.0, 1.0], [4.0, 2.0, 1.25]];
    var col := FirstColumn(g);
    assert col == [2.0, 4.0];
    assert !RoundsToZero(col[1], DEFAULT_ACCURACY);
    assert Max(col) == 4.0 && Min(col) == 2.0;
    RefStepPivoting(g, DEFAULT_ACCURACY, 1);
    var sw := Interchanged(g, 2, 1);
    assert sw == [[4.0, 2.0, 1.25], [2.0, 1.0, 1.0]];
    EliminateTwoRows(sw);
    var row := AddScaled(sw[1], sw[0], -2.0 / 4.0);
    assert row[0] == 0.0 && row[1] == 0.0 && row[2] == 0.375;
    assert row == [0.0, 0.0, 0.375];
    RefTwoRows(g, DEFAULT_ACCURACY);
  }

  /** The second row of this echelon form reads 0 = 0.375: no solution. */
  lemma ClassifyInconsistentForm()
    ensures Classifiable([[4.0, 2.0, 1.25], [0.0, 0.0, 0.375]]) && Classify([[4.0, 2.0, 1.25], [0.0, 0.0, 0.375]], DEFAULT_ACCURACY) == Zero
  {
    var r := [[4.0, 2.0, 1.25], [0.0, 0.0, 0.375]];
    ZeroIsNegligible(DEFAULT_ACCURACY);
    assert Inconsistent(r[1], DEFAULT_ACCURACY);
  }

  /** `num_solutions` on `[[2, 1, 1], [4, 2, 1.25]]`: none, since the second row reads 0 = 0.375. */
  lemma NumSolutionsInconsistent()
    ensures var r := RefOf([[2.0, 1.0, 1.0], [4.0, 2.0, 1.25]], DEFAULT_ACCURACY);
      Classifiable(r) && Classify(r, DEFAULT_ACCURACY) == Zero
  {
    RefOfInconsistent();
    ClassifyInconsistentForm();
  }

  /** The echelon form of `[[1, 1, 1], [2, 1, 2]]`. */
  lemma RefOfIndependent()
    ensures RefOf([[1.0, 1.0, 1.0], [2.0, 1.0, 2.0]], DEFAULT_ACCURACY) == [[2.0, 1.0, 2.0], [0.0, 0.5, 0.0]]
  {
    RefStepIndependent();
    RefTwoRows([[1.0, 1.0, 1.0], [2.0, 1.0, 2.0]], DEFAULT_ACCURACY);
  }

  /** The first step swaps `[2, 1, 2]` up and clears the entry below it. */
  lemma RefStepIndependent()
    ensures RefStep([[1.0, 1.0, 1.0], [2.0, 1.0, 2.0]], DEFAULT_ACCURACY) == [[2.0, 1.0, 2.0], [0.0, 0.5, 0.0]]
  {
    var g := [[1.0, 1.0, 1.0], [2.0, 1.0, 2.0]];
    PivotIndependent();
    RefStepPivoting(g, DEFAULT_ACCURACY, 1);
    var sw := Interchanged(g, 2, 1);
    assert sw == [[2.0, 1.0, 2.0], [1.0, 1.0, 1.0]];
    EliminateIndependent();
  }

  /** The first column `[1, 2]` is not negligible and its largest entry is in row 2. */
  lemma PivotIndependent()
    ensures var col := FirstColumn([[1.0, 1.0, 1.0], [2.0, 1.0, 2.0]]);
      !AllNegligible(col, DEFAULT_ACCURACY) && PivotRow(col) == 1
  {
    var col := FirstColumn([[1.0, 1.0, 1.0], [2.0, 1.0, 2.0]]);
    assert col == [1.0, 2.0];
    assert !RoundsToZero(col[1], DEFAULT_ACCURACY);
    assert Max(col) == 2.0 && Min(col) == 1.0;
  }

  /** Clearing below `[2, 1, 2]`. */
  lemma EliminateIndependent()
    ensures EliminateBelow([[2.0, 1.0, 2.0], [1.0, 1.0, 1.0]]) == [[2.0, 1.0, 2.0], [0.0, 0.5, 0.0]]
  {
    var sw := [[2.0, 1.0, 2.0], [1.0, 1.0, 1.0]];
    EliminateTwoRows(sw);
    var row := AddScaled(sw[1], sw[0], -1.0 / 2.0);
    assert row[0] == 0.0 && row[1] == 0.5 && row[2] == 0.0;
    assert row == [0.0, 0.5, 0.0];
  }

  /** Neither row of this echelon form is a tautology, and there are two unknowns for two rows: one solution. */
  lemma ClassifyIndependentForm()
    ensures Classifiable([[2.0, 1.0, 2.0], [0.0, 0.5, 0.0]]) && Classify([[2.0, 1.0, 2.0], [0.0, 0.5, 0.0]], DEFAULT_ACCURACY) == One
  {
    var r := [[2.0, 1.0, 2.0], [0.0, 0.5, 0.0]];
    assert Pow10(DEFAULT_ACCURACY) == 100;
    assert Abs(r[0][0]) == 2.0 && !Round2IsZero(r[0][0], DEFAULT_ACCURACY);
    assert Abs(r[1][1]) == 0.5 && !Round2IsZero(r[1][1], DEFAULT_ACCURACY);
    assert !Inconsistent(r[0], DEFAULT_ACCURACY) && !Tautology(r[0], DEFAULT_ACCURACY);
    assert !Inconsistent(r[1], DEFAULT_ACCURACY) && !Tautology(r[1], DEFAULT_ACCURACY);
    NoTautologies(r, DEFAULT_ACCURACY);
  }

  /** `num_solutions` on `[[1, 1, 1], [2, 1, 2]]`: exactly one. */
  lemma NumSolutionsIndependent()
    ensures var r := RefOf([[1.0, 1.0, 1.0], [2.0, 1.0, 2.0]], DEFAULT_ACCURACY);
      Classifiable(r) && Classify(r, DEFAULT_ACCURACY) == One
  {
    RefOfIndependent();
    ClassifyIndependentForm();
  }


  /** The echelon form of `[[1, 1, 2], [1, 2, 3]]`: a tie in the first column keeps the first row on top. */
  lemma RefOfTwoByTwo()
    ensures RefOf([[1.0, 1.0, 2.0], [1.0, 2.0, 3.0]], DEFAULT_ACCURACY) == [[1.0, 1.0, 2.0], [0.0, 1.0, 1.0]]
  {
    var g := [[1.0, 1.0, 2.0], [1.0, 2.0, 3.0]];
    var col := FirstColumn(g);
    assert col == [1.0, 1.0];
    assert !RoundsToZero(col[0], DEFAULT_ACCURACY);
    assert Max(col) == 1.0 && Min(col) == 1.0;
    RefStepPivoting(g, DEFAULT_ACCURACY, 0);
    var sw := Interchanged(g, 1, 1);
    assert sw == g;
    EliminateTwoRows(sw);
    var row := AddScaled(sw[1], sw[0], -1.0 / 1.0);
    assert row[0] == 0.0 && row[1] == 1.0 && row[2] == 1.0;
    assert row == [0.0, 1.0, 1.0];
    assert EliminateBelow(sw) == [g[0], row];
    RefTwoRows(g, DEFAULT_ACCURACY);
  }

  /** That echelon form is triangular, and (1, 1) satisfies it. */
  lemma TwoByTwoFormSolved()
    ensures Triangular([[1.0, 1.0, 2.0], [0.0, 1.0, 1.0]], DEFAULT_ACCURACY)
    ensures Satisfies([[1.0, 1.0, 2.0], [0.0, 1.0, 1.0]], [1.0, 1.0])
  {
    var r := [[1.0, 1.0, 2.0], [0.0, 1.0, 1.0]];
    var x := [1.0, 1.0];
    assert Pow10(DEFAULT_ACCURACY) == 100;
    ZeroIsNegligible(DEFAULT_ACCURACY);
    assert Abs(1.0) == 1.0 && !RoundsToZero(1.0, DEFAULT_ACCURACY) && !Round2IsZero(1.0, DEFAULT_ACCURACY);
    assert PivotFrom(r[1], DEFAULT_ACCURACY, 1) == Some(2);
    assert PivotOf(r[0], DEFAULT_ACCURACY) == Some(1) && PivotOf(r[1], DEFAULT_ACCURACY) == Some(2);
    assert Dot(r[0], x, 0, 2) == 2.0;
    assert Dot(r[1], x, 0, 2) == 1.0;
  }

  /** `solution` on `[[1, 1, 2], [1, 2, 3]]`: the tuple (1, 1). */
  lemma SolutionTwoByTwo()
    ensures var r := RefOf([[1.0, 1.0, 2.0], [1.0, 2.0, 3.0]], DEFAULT_ACCURACY);
      Classifiable(r) && SolutionOf(r, DEFAULT_ACCURACY) == Solved([1.0, 1.0])
  {
    RefOfTwoByTwo();
    TwoByTwoFormSolved();
    TriangularSolutionUnique([[1.0, 1.0, 2.0], [0.0, 1.0, 1.0]], DEFAULT_ACCURACY, [1.0, 1.0]);
  }

  /** Clearing the first column of `[[2, 1, 1, 7], [1, 1, 0, 3], [1, -1, 3, 8]]` below the 2. */
  lemma EliminateThreeByThree()
    ensures EliminateBelow([[2.0, 1.0, 1.0, 7.0], [1.0, 1.0, 0.0, 3.0], [1.0, -1.0, 3.0, 8.0]])
         == [[2.0, 1.0, 1.0, 7.0], [0.0, 0.5, -0.5, -0.5], [0.0, -1.5, 2.5, 4.5]]
  {
    var sw := [[2.0, 1.0, 1.0, 7.0], [1.0, 1.0, 0.0, 3.0], [1.0, -1.0, 3.0, 8.0]];
    var r1 := AddScaled(sw[1], sw[0], -1.0 / 2.0);
    var r2 := AddScaled(sw[2], sw[0], -1.0 / 2.0);
    assert r1[0] == 0.0 && r1[1] == 0.5 && r1[2] == -0.5 && r1[3] == -0.5;
    assert r2[0] == 0.0 && r2[1] == -1.5 && r2[2] == 2.5 && r2[3] == 4.5;
    assert r1 == [0.0, 0.5, -0.5, -0.5] && r2 == [0.0, -1.5, 2.5, 4.5];
    EliminateRowsStep(sw, 2);
    EliminateRowsStep(sw, 3);
  }

  /** The first step of `ref` on `[[1, 1, 0, 3], [2, 1, 1, 7], [1, -1, 3, 8]]`. */
  lemma RefStepThreeByThree()
    ensures RefStep([[1.0, 1.0, 0.0, 3.0], [2.0, 1.0, 1.0, 7.0], [1.0, -1.0, 3.0, 8.0]], DEFAULT_ACCURACY)
         == [[2.0, 1.0, 1.0, 7.0], [0.0, 0.5, -0.5, -0.5], [0.0, -1.5, 2.5, 4.5]]
  {
    var g := [[1.0, 1.0, 0.0, 3.0], [2.0, 1.0, 1.0, 7.0], [1.0, -1.0, 3.0, 8.0]];
    PivotThreeByThree();
    RefStepPivoting(g, DEFAULT_ACCURACY, 1);
    SwapThreeByThree();
    EliminateThreeByThree();
  }

  /** The first column `[1, 2, 1]` is not negligible and its largest entry is in row 2. */
  lemma PivotThreeByThree()
    ensures var col := FirstColumn([[1.0, 1.0, 0.0, 3.0], [2.0, 1.0, 1.0, 7.0], [1.0, -1.0, 3.0, 8.0]]);
      !AllNegligible(col, DEFAULT_ACCURACY) && PivotRow(col) == 1
  {
    var col := FirstColumn([[1.0, 1.0, 0.0, 3.0], [2.0, 1.0, 1.0, 7.0], [1.0, -1.0, 3.0, 8.0]]);
    assert col == [1.0, 2.0, 1.0];
    assert !RoundsToZero(col[1], DEFAULT_ACCURACY);
    assert Max(col) == 2.0 && Min(col) == 1.0;
    assert IndexOf(col, 2.0) == 1;
  }

  /** Rows 1 and 2 change places. */
  lemma SwapThreeByThree()
    ensures Interchanged([[1.0, 1.0, 0.0, 3.0], [2.0, 1.0, 1.0, 7.0], [1.0, -1.0, 3.0, 8.0]], 2, 1)
         == [[2.0, 1.0, 1.0, 7.0], [1.0, 1.0, 0.0, 3.0], [1.0, -1.0, 3.0, 8.0]]
  {
  }

  /** The block left for the recursive call. */
  lemma SubmatrixThreeByThree()
    ensures Submatrix([[2.0, 1.0, 1.0, 7.0], [0.0, 0.5, -0.5, -0.5], [0.0, -1.5, 2.5, 4.5]], 2, 2, None, None)
         == [[0.5, -0.5, -0.5], [-1.5, 2.5, 4.5]]
  {
    var m := [[2.0, 1.0, 1.0, 7.0], [0.0, 0.5, -0.5, -0.5], [0.0, -1.5, 2.5, 4.5]];
    var sub := Submatrix(m, 2, 2, None, None);
    assert |sub| == 2 && |sub[0]| == 3 && |sub[1]| == 3;
    assert sub[0][0] == m[1][1] && sub[0][1] == m[1][2] && sub[0][2] == m[1][3];
    assert sub[1][0] == m[2][1] && sub[1][1] == m[2][2] && sub[1][2] == m[2][3];
    assert sub[0] == [0.5, -0.5, -0.5] && sub[1] == [-1.5, 2.5, 4.5];
  }

  /** The recursive call: the larger entry in absolute value, -1.5, is the pivot. */
  lemma RefOfThreeByThreeBlock()
    ensures RefOf([[0.5, -0.5, -0.5], [-1.5, 2.5, 4.5]], DEFAULT_ACCURACY)
         == [[-1.5, 2.5, 4.5], [0.0, 1.0 / 3.0, 1.0]]
  {
    var g := [[0.5, -0.5, -0.5], [-1.5, 2.5, 4.5]];
    PivotThreeByThreeBlock();
    RefStepPivoting(g, DEFAULT_ACCURACY, 1);
    assert Interchanged(g, 2, 1) == [[-1.5, 2.5, 4.5], [0.5, -0.5, -0.5]];
    EliminateThreeByThreeBlock();
    RefTwoRows(g, DEFAULT_ACCURACY);
  }

  /** The block's first column `[0.5, -1.5]` is not negligible and -1.5 is its pivot. */
  lemma PivotThreeByThreeBlock()
    ensures var col := FirstColumn([[0.5, -0.5, -0.5], [-1.5, 2.5, 4.5]]);
      !AllNegligible(col, DEFAULT_ACCURACY) && PivotRow(col) == 1
  {
    var col := FirstColumn([[0.5, -0.5, -0.5], [-1.5, 2.5, 4.5]]);
    assert col == [0.5, -1.5];
    assert !RoundsToZero(col[1], DEFAULT_ACCURACY);
    assert Max(col) == 0.5 && Min(col) == -1.5;
    assert Abs(0.5) == 0.5 && Abs(-1.5) == 1.5;
  }

  /** Clearing below -1.5 in the swapped block. */
  lemma EliminateThreeByThreeBlock()
    ensures EliminateBelow([[-1.5, 2.5, 4.5], [0.5, -0.5, -0.5]]) == [[-1.5, 2.5, 4.5], [0.0, 1.0 / 3.0, 1.0]]
  {
    var sw := [[-1.5, 2.5, 4.5], [0.5, -0.5, -0.5]];
    EliminateTwoRows(sw);
    var row := AddScaled(sw[1], sw[0], -0.5 / -1.5);
    assert row[0] == 0.0 && row[1] == 1.0 / 3.0 && row[2] == 1.0;
    assert row == [0.0, 1.0 / 3.0, 1.0];
  }

  /** Writing the block's echelon form back from row 2, column 2. */
  lemma InsertThreeByThree()
    ensures Insert([[2.0, 1.0, 1.0, 7.0], [0.0, 0.5, -0.5, -0.5], [0.0, -1.5, 2.5, 4.5]],
                   [[-1.5, 2.5, 4.5], [0.0, 1.0 / 3.0, 1.0]], (2, 2))
         == [[2.0, 1.0, 1.0, 7.0], [0.0, -1.5, 2.5, 4.5], [0.0, 0.0, 1.0 / 3.0, 1.0]]
  {
    var m := [[2.0, 1.0, 1.0, 7.0], [0.0, 0.5, -0.5, -0.5], [0.0, -1.5, 2.5, 4.5]];
    var t := [[-1.5, 2.5, 4.5], [0.0, 1.0 / 3.0, 1.0]];
    var r := Insert(m, t, (2, 2));
    assert r[0][0] == 2.0 && r[0][1] == 1.0 && r[0][2] == 1.0 && r[0][3] == 7.0;
    assert r[1][0] == 0.0 && r[1][1] == -1.5 && r[1][2] == 2.5 && r[1][3] == 4.5;
    assert r[2][0] == 0.0 && r[2][1] == 0.0 && r[2][2] == 1.0 / 3.0 && r[2][3] == 1.0;
    assert r[0] == [2.0, 1.0, 1.0, 7.0];
    assert r[1] == [0.0, -1.5, 2.5, 4.5];
    assert r[2] == [0.0, 0.0, 1.0 / 3.0, 1.0];
  }

  /** The echelon form of `[[1, 1, 0, 3], [2, 1, 1, 7], [1, -1, 3, 8]]`. */
  lemma RefOfThreeByThree()
    ensures RefOf([[1.0, 1.0, 0.0, 3.0], [2.0, 1.0, 1.0, 7.0], [1.0, -1.0, 3.0, 8.0]], DEFAULT_ACCURACY)
         == [[2.0, 1.0, 1.0, 7.0], [0.0, -1.5, 2.5, 4.5], [0.0, 0.0, 1.0 / 3.0, 1.0]]
  {
    RefStepThreeByThree();
    SubmatrixThreeByThree();
    RefOfThreeByThreeBlock();
    InsertThreeByThree();
  }

  /** That echelon form is triangular, and (1, 2, 3) satisfies it. */
  lemma ThreeByThreeFormSolved()
    ensures Triangular([[2.0, 1.0, 1.0, 7.0], [0.0, -1.5, 2.5, 4.5], [0.0, 0.0, 1.0 / 3.0, 1.0]], DEFAULT_ACCURACY)
    ensures Satisfies([[2.0, 1.0, 1.0, 7.0], [0.0, -1.5, 2.5, 4.5], [0.0, 0.0, 1.0 / 3.0, 1.0]], [1.0, 2.0, 3.0])
  {
    ThreeByThreeFormTriangular();
    ThreeByThreeFormSatisfied();
  }

  lemma ThreeByThreeFormTriangular()
    ensures Triangular([[2.0, 1.0, 1.0, 7.0], [0.0, -1.5, 2.5, 4.5], [0.0, 0.0, 1.0 / 3.0, 1.0]], DEFAULT_ACCURACY)
  {
    var r := [[2.0, 1.0, 1.0, 7.0], [0.0, -1.5, 2.5, 4.5], [0.0, 0.0, 1.0 / 3.0, 1.0]];
    assert Pow10(DEFAULT_ACCURACY) == 100;
    ZeroIsNegligible(DEFAULT_ACCURACY);
    assert Abs(2.0) == 2.0 && !RoundsToZero(2.0, DEFAULT_ACCURACY) && !Round2IsZero(2.0, DEFAULT_ACCURACY);
    assert Abs(-1.5) == 1.5 && !RoundsToZero(-1.5, DEFAULT_ACCURACY) && !Round2IsZero(-1.5, DEFAULT_ACCURACY);
    assert Abs(1.0 / 3.0) == 1.0 / 3.0 && !RoundsToZero(1.0 / 3.0, DEFAULT_ACCURACY) && !Round2IsZero(1.0 / 3.0, DEFAULT_ACCURACY);
    assert PivotFrom(r[1], DEFAULT_ACCURACY, 1) == Some(2);
    assert PivotFrom(r[2], DEFAULT_ACCURACY, 2) == Some(3);
    assert PivotFrom(r[2], DEFAULT_ACCURACY, 1) == Some(3);
    assert PivotOf(r[0], DEFAULT_ACCURACY) == Some(1);
    assert PivotOf(r[1], DEFAULT_ACCURACY) == Some(2);
    assert PivotOf(r[2], DEFAULT_ACCURACY) == Some(3);
  }

  lemma ThreeByThreeFormSatisfied()
    ensures Satisfies([[2.0, 1.0, 1.0, 7.0], [0.0, -1.5, 2.5, 4.5], [0.0, 0.0, 1.0 / 3.0, 1.0]], [1.0, 2.0, 3.0])
  {
    var r := [[2.0, 1.0, 1.0, 7.0], [0.0, -1.5, 2.5, 4.5], [0.0, 0.0, 1.0 / 3.0, 1.0]];
    var x := [1.0, 2.0, 3.0];
    assert Dot(r[0], x, 0, 3) == 7.0;
    assert Dot(r[1], x, 0, 3) == 4.5;
    assert Dot(r[2], x, 0, 3) == 1.0;
  }

  /** `solution` on `[[1, 1, 0, 3], [2, 1, 1, 7], [1, -1, 3, 8]]`: the tuple (1, 2, 3). */
  lemma SolutionThreeByThree()
    ensures var r := RefOf([[1.0, 1.0, 0.0, 3.0], [2.0, 1.0, 1.0, 7.0], [1.0, -1.0, 3.0, 8.0]], DEFAULT_ACCURACY);
      Classifiable(r) && SolutionOf(r, DEFAULT_ACCURACY) == Solved([1.0, 2.0, 3.0])
  {
    RefOfThreeByThree();
    ThreeByThreeFormSolved();
    TriangularSolutionUnique([[2.0, 1.0, 1.0, 7.0], [0.0, -1.5, 2.5, 4.5], [0.0, 0.0, 1.0 / 3.0, 1.0]], DEFAULT_ACCURACY, [1.0, 2.0, 3.0]);
  }

  // ---------------------------------------------------------------------
  // A consequence of the skipped column
  // ---------------------------------------------------------------------

  /** `ref` leaves `[[0, 1, 1], [0, 2, 3]]` as it is: its first column is all zeros. */
  lemma RefOfZeroColumn()
    ensures RefOf([[0.0, 1.0, 1.0], [0.0, 2.0, 3.0]], DEFAULT_ACCURACY) == [[0.0, 1.0, 1.0], [0.0, 2.0, 3.0]]
  {
    var g := [[0.0, 1.0, 1.0], [0.0, 2.0, 3.0]];
    ZeroIsNegligible(DEFAULT_ACCURACY);
    assert AllNegligible(FirstColumn(g), DEFAULT_ACCURACY);
    RefTwoRows(g, DEFAULT_ACCURACY);
  }

  /** A sum of two terms. */
  lemma DotOfTwo(row: seq<real>, x: seq<real>)
    requires |row| >= 2 && |x| >= 2
    ensures Dot(row, x, 0, 2) == x[0] * row[0] + x[1] * row[1]
  {
  }

  /** `[[0, 1, 1], [0, 2, 3]]` reads y = 1 and 2y = 3, which no values satisfy. */
  lemma ZeroColumnUnsolvable()
    ensures forall x :: !Satisfies([[0.0, 1.0, 1.0], [0.0, 2.0, 3.0]], x)
  {
    var g := [[0.0, 1.0, 1.0], [0.0, 2.0, 3.0]];
    forall x | Satisfies(g, x)
      ensures false
    {
      assert |g[0]| == |x| + 1;
      DotOfTwo(g[0], x);
      DotOfTwo(g[1], x);
    }
  }

  /** A row `[0, a, b]` with `a` not negligible is neither inconsistent nor a tautology, and has its pivot in column 2. */
  lemma LeadingZeroRow(row: seq<real>, places: nat)
    requires |row| == 3 && row[0] == 0.0 && !Round2IsZero(row[1], places) && !RoundsToZero(row[1], places)
    ensures !Inconsistent(row, places) && !Tautology(row, places) && PivotOf(row, places) == Some(2)
  {
    ZeroIsNegligible(places);
    assert PivotFrom(row, places, 1) == Some(2);
  }

  /** Neither row is inconsistent or a tautology, and both have their pivot in column 2. */
  lemma ZeroColumnClassified()
    ensures var g := [[0.0, 1.0, 1.0], [0.0, 2.0, 3.0]];
      && Classifiable(g) && Classify(g, DEFAULT_ACCURACY) == One
      && PivotOf(g[0], DEFAULT_ACCURACY) == Some(2) && PivotOf(g[1], DEFAULT_ACCURACY) == Some(2)
      && EveryRowHasPivot(g, DEFAULT_ACCURACY)
  {
    var g := [[0.0, 1.0, 1.0], [0.0, 2.0, 3.0]];
    assert Pow10(DEFAULT_ACCURACY) == 100;
    assert Abs(1.0) == 1.0 && !Round2IsZero(1.0, DEFAULT_ACCURACY) && !RoundsToZero(1.0, DEFAULT_ACCURACY);
    assert Abs(2.0) == 2.0 && !Round2IsZero(2.0, DEFAULT_ACCURACY) && !RoundsToZero(2.0, DEFAULT_ACCURACY);
    LeadingZeroRow(g[0], DEFAULT_ACCURACY);
    LeadingZeroRow(g[1], DEFAULT_ACCURACY);
    NoTautologies(g, DEFAULT_ACCURACY);
    assert NumVars(g) == 2;
  }

  /** Back-substitution fills only `sols[2]`, so collecting `sols[1]` fails. */
  lemma ZeroColumnSubstitution()
    ensures Substitution([[0.0, 1.0, 1.0], [0.0, 2.0, 3.0]], DEFAULT_ACCURACY) == MissingKey(1)
  {
    var g := [[0.0, 1.0, 1.0], [0.0, 2.0, 3.0]];
    ZeroColumnClassified();
    assert SumFrom(map[], g[1], 2, 2) == Success(0.0);
    assert BackSubstitute(g, DEFAULT_ACCURACY, 1) == Success(map[2 := 1.5]);
    assert SumFrom(map[2 := 1.5], g[0], 2, 2) == Success(0.0);
    assert map[2 := 1.5][2 := (1.0 - 0.0) / 1.0] == map[2 := 1.0];
    assert BackSubstitute(g, DEFAULT_ACCURACY, 0) == Success(map[2 := 1.0]);
    assert Collect(map[2 := 1.0], 1) == Failure(1);
  }

  /**
   * Since `ref` skips the zero column and leaves the rows of
   * `[[0, 1, 1], [0, 2, 3]]` as they are, `num_solutions` counts one
   * solution for this system without any (see `ZeroColumnUnsolvable`), and `solution` fails with a
   * `KeyError` on `sols[1]`: both rows have their pivot in column 2, so x1
   * is never assigned.
   */
  lemma ZeroColumnMissesKey()
    ensures var g := [[0.0, 1.0, 1.0], [0.0, 2.0, 3.0]];
      && RefOf(g, DEFAULT_ACCURACY) == g
      && Classifiable(g)
      && Classify(g, DEFAULT_ACCURACY) == One
      && SolutionOf(g, DEFAULT_ACCURACY) == MissingKey(1)
  {
    RefOfZeroColumn();
    ZeroColumnClassified();
    ZeroColumnSubstitution();
    SolutionIsSubstitution([[0.0, 1.0, 1.0], [0.0, 2.0, 3.0]], DEFAULT_ACCURACY);
  }

  /** With one solution counted, `solution` is the back-substitution. */
  lemma SolutionIsSubstitution(g: Grid, places: nat)
    requires Classifiable(g) && Classify(g, places) == One
    ensures SolutionOf(g, places) == Substitution(g, places)
  {
  }

  // ---------------------------------------------------------------------
  // A row without a pivot
  // ---------------------------------------------------------------------

  /**
   * The loop handles the bottom row first, while the dictionary is still
   * empty. When that row has no pivot, its sum over every coefficient looks
   * up `sols[1]` and raises a `KeyError`; when the row holds only the
   * constant, the sum is empty and the divisor `row[None - 1]` raises a
   * `TypeError`.
   */
  lemma BottomRowWithoutPivot(g: Grid, places: nat)
    requires NoEmptyRow(g) && |g| > 0 && PivotOf(g[|g| - 1], places).None?
    ensures |g[|g| - 1]| >= 2 ==> Substitution(g, places) == MissingKey(1)
    ensures |g[|g| - 1]| == 1 ==> Substitution(g, places) == NoPivot
  {
    var row := g[|g| - 1];
    var e := if |row| >= 2 then MissingKey(1) else NoPivot;
    if |row| >= 2 {
      assert SumFrom(map[], row, 0, 1) == Failure(1);
      SumFromFails(map[], row, 0, 1, |row| - 1, 1);
    }
    assert BackSubstitute(g, places, |g|) == Success(map[]);
    assert BackSubstitute(g, places, |g| - 1) == Failure(e);
    BackSubstituteFails(g, places, |g| - 1, e);
  }

  /** `ref` of the system x = 1, y = 1, x + y = 2: the third row cancels to zeros. */
  lemma RefOfOverdetermined()
    ensures RefOf([[1.0, 0.0, 1.0], [0.0, 1.0, 1.0], [1.0, 1.0, 2.0]], DEFAULT_ACCURACY)
         == [[1.0, 0.0, 1.0], [0.0, 1.0, 1.0], [0.0, 0.0, 0.0]]
  {
    RefStepOverdetermined();
    SubmatrixOverdetermined();
    RefOfOverdeterminedBlock();
    InsertOverdetermined();
  }

  /** The first step keeps row 1 on top, since 1 is the largest first entry, and clears below it. */
  lemma RefStepOverdetermined()
    ensures RefStep([[1.0, 0.0, 1.0], [0.0, 1.0, 1.0], [1.0, 1.0, 2.0]], DEFAULT_ACCURACY)
         == [[1.0, 0.0, 1.0], [0.0, 1.0, 1.0], [0.0, 1.0, 1.0]]
  {
    var g := [[1.0, 0.0, 1.0], [0.0, 1.0, 1.0], [1.0, 1.0, 2.0]];
    PivotOverdetermined();
    RefStepPivoting(g, DEFAULT_ACCURACY, 0);
    assert Interchanged(g, 1, 1) == g;
    EliminateOverdetermined();
  }

  /** The first column `[1, 0, 1]` is not negligible and its largest entry is first in row 1. */
  lemma PivotOverdetermined()
    ensures var col := FirstColumn([[1.0, 0.0, 1.0], [0.0, 1.0, 1.0], [1.0, 1.0, 2.0]]);
      !AllNegligible(col, DEFAULT_ACCURACY) && PivotRow(col) == 0
  {
    var col := FirstColumn([[1.0, 0.0, 1.0], [0.0, 1.0, 1.0], [1.0, 1.0, 2.0]]);
    assert col == [1.0, 0.0, 1.0];
    assert !RoundsToZero(col[0], DEFAULT_ACCURACY);
    assert Max(col) == 1.0 && Min(col) == 0.0;
    assert IndexOf(col, 1.0) == 0;
  }

  /** Clearing below the first row. */
  lemma EliminateOverdetermined()
    ensures EliminateBelow([[1.0, 0.0, 1.0], [0.0, 1.0, 1.0], [1.0, 1.0, 2.0]])
         == [[1.0, 0.0, 1.0], [0.0, 1.0, 1.0], [0.0, 1.0, 1.0]]
  {
    var g := [[1.0, 0.0, 1.0], [0.0, 1.0, 1.0], [1.0, 1.0, 2.0]];
    var r1 := AddScaled(g[1], g[0], -0.0 / 1.0);
    var r2 := AddScaled(g[2], g[0], -1.0 / 1.0);
    assert r1[0] == 0.0 && r1[1] == 1.0 && r1[2] == 1.0;
    assert r2[0] == 0.0 && r2[1] == 1.0 && r2[2] == 1.0;
    assert r1 == [0.0, 1.0, 1.0] && r2 == [0.0, 1.0, 1.0];
    EliminateRowsStep(g, 2);
    EliminateRowsStep(g, 3);
  }

  /** The block left for the recursive call. */
  lemma SubmatrixOverdetermined()
    ensures Submatrix([[1.0, 0.0, 1.0], [0.0, 1.0, 1.0], [0.0, 1.0, 1.0]], 2, 2, None, None)
         == [[1.0, 1.0], [1.0, 1.0]]
  {
    var m := [[1.0, 0.0, 1.0], [0.0, 1.0, 1.0], [0.0, 1.0, 1.0]];
    var sub := Submatrix(m, 2, 2, None, None);
    assert |sub| == 2 && |sub[0]| == 2 && |sub[1]| == 2;
    assert sub[0][0] == m[1][1] && sub[0][1] == m[1][2];
    assert sub[1][0] == m[2][1] && sub[1][1] == m[2][2];
    assert sub[0] == [1.0, 1.0] && sub[1] == [1.0, 1.0];
  }

  /** The recursive call: equal first entries, so row 1 stays on top and row 2 cancels. */
  lemma RefOfOverdeterminedBlock()
    ensures RefOf([[1.0, 1.0], [1.0, 1.0]], DEFAULT_ACCURACY) == [[1.0, 1.0], [0.0, 0.0]]
  {
    var g := [[1.0, 1.0], [1.0, 1.0]];
    var col := FirstColumn(g);
    assert col == [1.0, 1.0];
    assert !RoundsToZero(col[0], DEFAULT_ACCURACY);
    assert Max(col) == 1.0 && Min(col) == 1.0;
    assert IndexOf(col, 1.0) == 0;
    RefStepPivoting(g, DEFAULT_ACCURACY, 0);
    assert Interchanged(g, 1, 1) == g;
    EliminateTwoRows(g);
    var row := AddScaled(g[1], g[0], -1.0 / 1.0);
    assert row[0] == 0.0 && row[1] == 0.0;
    assert row == [0.0, 0.0];
    RefTwoRows(g, DEFAULT_ACCURACY);
  }

  /** Writing the block's echelon form back from row 2, column 2. */
  lemma InsertOverdetermined()
    ensures Insert([[1.0, 0.0, 1.0], [0.0, 1.0, 1.0], [0.0, 1.0, 1.0]], [[1.0, 1.0], [0.0, 0.0]], (2, 2))
         == [[1.0, 0.0, 1.0], [0.0, 1.0, 1.0], [0.0, 0.0, 0.0]]
  {
    var m := [[1.0, 0.0, 1.0], [0.0, 1.0, 1.0], [0.0, 1.0, 1.0]];
    var r := Insert(m, [[1.0, 1.0], [0.0, 0.0]], (2, 2));
    assert r[0][0] == 1.0 && r[0][1] == 0.0 && r[0][2] == 1.0;
    assert r[1][0] == 0.0 && r[1][1] == 1.0 && r[1][2] == 1.0;
    assert r[2][0] == 0.0 && r[2][1] == 0.0 && r[2][2] == 0.0;
    assert r[0] == [1.0, 0.0, 1.0];
    assert r[1] == [0.0, 1.0, 1.0];
    assert r[2] == [0.0, 0.0, 0.0];
  }

  /**
   * On that echelon form `num_solutions` counts one solution, and (1, 1)
   * does satisfy every equation, but the zero bottom row makes `solution`
   * stop with a `KeyError` on `sols[1]`.
   */
  lemma OverdeterminedMissesKey()
    ensures var g := [[1.0, 0.0, 1.0], [0.0, 1.0, 1.0], [0.0, 0.0, 0.0]];
      && Classifiable(g) && Classify(g, DEFAULT_ACCURACY) == One
      && Satisfies(g, [1.0, 1.0])
      && SolutionOf(g, DEFAULT_ACCURACY) == MissingKey(1)
  {
    var g := [[1.0, 0.0, 1.0], [0.0, 1.0, 1.0], [0.0, 0.0, 0.0]];
    OverdeterminedClassified();
    OverdeterminedSatisfied();
    ZeroIsNegligible(DEFAULT_ACCURACY);
    assert PivotFrom(g[2], DEFAULT_ACCURACY, 2) == None;
    assert PivotFrom(g[2], DEFAULT_ACCURACY, 1) == None;
    BottomRowWithoutPivot(g, DEFAULT_ACCURACY);
    SolutionIsSubstitution(g, DEFAULT_ACCURACY);
  }

  /** Rows 1 and 2 are neither inconsistent nor tautologies; row 3 is a tautology; two unknowns, two constraints. */
  lemma OverdeterminedClassified()
    ensures var g := [[1.0, 0.0, 1.0], [0.0, 1.0, 1.0], [0.0, 0.0, 0.0]];
      Classifiable(g) && Classify(g, DEFAULT_ACCURACY) == One
  {
    var g := [[1.0, 0.0, 1.0], [0.0, 1.0, 1.0], [0.0, 0.0, 0.0]];
    assert Pow10(DEFAULT_ACCURACY) == 100;
    assert Abs(1.0) == 1.0 && !Round2IsZero(1.0, DEFAULT_ACCURACY);
    assert Abs(0.0) == 0.0 && Round2IsZero(0.0, DEFAULT_ACCURACY);
    assert !Round2IsZero(g[0][0], DEFAULT_ACCURACY) && !Round2IsZero(g[1][1], DEFAULT_ACCURACY);
    assert !Inconsistent(g[0], DEFAULT_ACCURACY) && !Tautology(g[0], DEFAULT_ACCURACY);
    assert !Inconsistent(g[1], DEFAULT_ACCURACY) && !Tautology(g[1], DEFAULT_ACCURACY);
    assert !Inconsistent(g[2], DEFAULT_ACCURACY) && Tautology(g[2], DEFAULT_ACCURACY);
    assert g[..2][..1] == [g[0]] && g[..2] == [g[0], g[1]];
    assert CountTautologies([g[0]], DEFAULT_ACCURACY) == 0;
    assert CountTautologies(g[..2], DEFAULT_ACCURACY) == 0;
    assert CountTautologies(g, DEFAULT_ACCURACY) == 1;
    assert NumVars(g) == 2;
  }

  /** x = 1, y = 1 satisfies x = 1, y = 1 and x + y = 2 in its echelon form. */
  lemma OverdeterminedSatisfied()
    ensures Satisfies([[1.0, 0.0, 1.0], [0.0, 1.0, 1.0], [0.0, 0.0, 0.0]], [1.0, 1.0])
  {
    var g := [[1.0, 0.0, 1.0], [0.0, 1.0, 1.0], [0.0, 0.0, 0.0]];
    var x := [1.0, 1.0];
    assert Dot(g[0], x, 0, 2) == 1.0;
    assert Dot(g[1], x, 0, 2) == 1.0;
    assert Dot(g[2], x, 0, 2) == 0.0;
  }
}
