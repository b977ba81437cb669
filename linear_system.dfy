/**
 * The linear-system layer of LinearSystem.py: a system is given by its
 * augmented matrix, whose row echelon form is computed once; the number of
 * solutions is read off that form, and the unique solution, when there is
 * one, is found by back-substitution from the last row up.
 */
module LinearSystems {
  import opened Options
  import opened Tolerance
  import opened Matrices

  /** What `num_solutions` returns: 0, 1 or `float("inf")`. */
  datatype SolutionCount = Zero | One | Infinite

  /**
   * What `solution` gives back: `None`, the tuple of values, the key of a
   * failed dictionary lookup (a `KeyError`), or the `TypeError` of
   * `row[None - 1]` on a row without a pivot.
   */
  datatype Outcome = NoUniqueSolution | Solved(values: seq<real>) | MissingKey(key: int) | NoPivot

  /** The shapes `num_solutions` handles: rectangular, and no row so empty that `row[-1]` fails. */
  predicate Classifiable(g: Grid) {
    IsRect(g) && (|g| > 0 ==> Cols(g) > 0)
  }

  /** A row reading 0 = c with c not rounding to zero (by `round2`): the system is inconsistent. */
  predicate Inconsistent(row: seq<real>, places: nat) {
    && |row| > 0
    && (forall j :: 0 <= j < |row| - 1 ==> Round2IsZero(row[j], places))
    && !Round2IsZero(row[|row| - 1], places)
  }

  /** A row all of whose entries round to zero (by `round2`): it constrains nothing. */
  predicate Tautology(row: seq<real>, places: nat) {
    forall j :: 0 <= j < |row| ==> Round2IsZero(row[j], places)
  }

  /** The number of tautologies among the rows. */
  function CountTautologies(g: Grid, places: nat): (n: nat)
    ensures n <= |g|
  {
    if |g| == 0 then 0
    else CountTautologies(g[..|g| - 1], places) + (if Tautology(g[|g| - 1], places) then 1 else 0)
  }

  /** The number of unknowns: the length of the first row without its last entry, and 0 without rows. */
  function NumVars(g: Grid): nat {
    if |g| == 0 || |g[0]| == 0 then 0 else |g[0]| - 1
  }

  /**
   * `num_solutions` on the echelon form `g`: none when some row is
   * inconsistent; otherwise infinitely many when there are more unknowns
   * than rows that are not tautologies, and one when there are not.
   */
  function Classify(g: Grid, places: nat): (r: SolutionCount)
    requires Classifiable(g)
    ensures r == Zero <==> exists i :: 0 <= i < |g| && Inconsistent(g[i], places)
    ensures r == Infinite <==>
      (forall i :: 0 <= i < |g| ==> !Inconsistent(g[i], places)) && NumVars(g) > |g| - CountTautologies(g, places)
    ensures |g| == 0 ==> r == One
  {
    if exists i :: 0 <= i < |g| && Inconsistent(g[i], places) then Zero
    else if NumVars(g) > |g| - CountTautologies(g, places) then Infinite
    else One
  }

  // ---------------------------------------------------------------------
  // Back-substitution (LinearSystem.py:78-87)
  // ---------------------------------------------------------------------

  /**
   * `sum(sols[j + 1] * row[j] for j in lo .. hi - 1)`, added left to
   * right; the first missing key stops it with a `KeyError`.
   */
  function SumFrom(sols: map<int, real>, row: seq<real>, lo: nat, hi: nat): (r: Result<real, int>)
    requires hi <= |row|
    ensures r.Failure? ==> lo < r.error <= hi && r.error !in sols
    ensures r.Success? ==> forall j :: lo < j <= hi ==> j in sols
    decreases hi
  {
    if hi <= lo then Success(0.0)
    else match SumFrom(sols, row, lo, hi - 1)
      case Failure(k) => Failure(k)
      case Success(t) => if hi in sols then Success(t + sols[hi] * row[hi - 1]) else Failure(hi)
  }

  /**
   * One pass of the loop: with pivot `p`, the unknown `x_p` becomes the
   * constant minus the sum over the entries after the pivot, divided by the
   * pivot entry. Without a pivot the slice `[None:-1]` takes every
   * coefficient, and once that sum has found all its keys the divisor
   * `row[None - 1]` raises a `TypeError`.
   */
  function SolveRow(sols: map<int, real>, row: seq<real>, places: nat): (r: Result<map<int, real>, Outcome>)
    requires |row| > 0
    ensures r.Failure? ==> r.error.MissingKey? || r.error.NoPivot?
    ensures r.Failure? && r.error.NoPivot? <==> PivotOf(row, places).None? && SumFrom(sols, row, 0, |row| - 1).Success?
  {
    match PivotOf(row, places)
    case None =>
      (match SumFrom(sols, row, 0, |row| - 1)
       case Failure(k) => Failure(MissingKey(k))
       case Success(_) => Failure(NoPivot))
    case Some(p) =>
      var hi := if p < |row| - 1 then |row| - 1 else p;
      match SumFrom(sols, row, p, hi)
      case Failure(k) => Failure(MissingKey(k))
      case Success(t) => Success(sols[p := (row[|row| - 1] - t) / row[p - 1]])
  }

  /** Every row has a pivot. */
  predicate EveryRowHasPivot(g: Grid, places: nat) {
    forall i :: 0 <= i < |g| ==> |g[i]| > 0 && PivotOf(g[i], places).Some?
  }

  /** No row is empty, so that `row[-1]` is defined on every row. */
  predicate NoEmptyRow(g: Grid) {
    forall i :: 0 <= i < |g| ==> |g[i]| > 0
  }

  /** The dictionary after the loop has handled rows `|g|` - 1 down to `k`. */
  function BackSubstitute(g: Grid, places: nat, k: nat): (r: Result<map<int, real>, Outcome>)
    requires k <= |g| && NoEmptyRow(g)
    decreases |g| - k
  {
    if k == |g| then Success(map[])
    else match BackSubstitute(g, places, k + 1)
      case Failure(e) => Failure(e)
      case Success(sols) => SolveRow(sols, g[k], places)
  }

  /** `[sols[j + 1] for j in range(n)]`, failing at the first missing key. */
  function Collect(sols: map<int, real>, n: nat): (r: Result<seq<real>, int>)
    ensures r.Success? ==> |r.value| == n && forall k :: 1 <= k <= n ==> k in sols
    ensures r.Success? ==> forall j :: 0 <= j < n ==> r.value[j] == sols[j + 1]
    ensures r.Failure? ==> 0 < r.error <= n && r.error !in sols
  {
    if n == 0 then Success([])
    else
      var prev := Collect(sols, n - 1);
      if prev.Failure? then prev
      else if n in sols then
        var v := prev.value + [sols[n]];
        Success(v)
      else Failure(n)
  }

  /** Back-substitution through every row, then the values in the order x1, x2, ... */
  function Substitution(g: Grid, places: nat): Outcome
    requires NoEmptyRow(g)
  {
    match BackSubstitute(g, places, 0)
    case Failure(e) => e
    case Success(sols) =>
      match Collect(sols, |sols|)
      case Failure(k) => MissingKey(k)
      case Success(v) => Solved(v)
  }

  /** `solution()` on the echelon form `g`. */
  function SolutionOf(g: Grid, places: nat): Outcome
    requires Classifiable(g)
  {
    if Classify(g, places) != One then NoUniqueSolution
    else Substitution(g, places)
  }

  /** Once a row fails with a `KeyError`, the rest of the loop never runs. */
  lemma {:induction false} BackSubstituteFails(g: Grid, places: nat, k: nat, e: Outcome)
    requires k <= |g| && NoEmptyRow(g) && BackSubstitute(g, places, k) == Failure(e)
    ensures BackSubstitute(g, places, 0) == Failure(e)
    decreases k
  {
    if k > 0 {
      BackSubstituteFails(g, places, k - 1, e);
    }
  }

  /** A `KeyError` in the first terms of the sum ends the whole sum. */
  lemma {:induction false} SumFromFails(sols: map<int, real>, row: seq<real>, lo: nat, mid: nat, hi: nat, key: int)
    requires mid <= hi <= |row| && SumFrom(sols, row, lo, mid) == Failure(key)
    ensures SumFrom(sols, row, lo, hi) == Failure(key)
    decreases hi
  {
    if hi > mid {
      SumFromFails(sols, row, lo, mid, hi - 1, key);
    }
  }

  /** A `KeyError` while collecting the first values ends the collection. */
  lemma {:induction false} CollectFails(sols: map<int, real>, mid: nat, n: nat, key: int)
    requires mid <= n && Collect(sols, mid) == Failure(key)
    ensures Collect(sols, n) == Failure(key)
    decreases n
  {
    if n > mid {
      CollectFails(sols, mid, n - 1, key);
    }
  }

  /**
   * The body of the loop of `solution` for one row: the sum over the
   * entries after the pivot (over all coefficients when there is none),
   * then the new value.
   */
  method SubstituteRow(sols: map<int, real>, row: seq<real>, places: nat) returns (r: Result<map<int, real>, Outcome>)
    requires |row| > 0
    ensures r == SolveRow(sols, row, places)
  {
    var pivotPos := GetPivotPosition(row, places);
    var lo := if pivotPos.Some? then pivotPos.value else 0;
    var hi := if lo < |row| - 1 then |row| - 1 else lo;
    var total := 0.0;
    for j := lo to hi
      invariant SumFrom(sols, row, lo, j) == Success(total)
    {
      if j + 1 !in sols {
        SumFromFails(sols, row, lo, j + 1, hi, j + 1);
        return Failure(MissingKey(j + 1));
      }
      SumFromStep(sols, row, lo, j, total);
      total := total + sols[j + 1] * row[j];
    }
    if pivotPos.None? {
      return Failure(NoPivot);
    }
    var p := pivotPos.value;
    return Success(sols[p := (row[|row| - 1] - total) / row[p - 1]]);
  }

  /** One more term of the sum, when its key is present. */
  lemma SumFromStep(sols: map<int, real>, row: seq<real>, lo: nat, j: nat, total: real)
    requires lo <= j < |row| && j + 1 in sols && SumFrom(sols, row, lo, j) == Success(total)
    ensures SumFrom(sols, row, lo, j + 1) == Success(total + sols[j + 1] * row[j])
  {
  }

  /** `tuple([sols[j + 1] for j in range(len(sols))])`. */
  method CollectValues(sols: map<int, real>) returns (r: Result<seq<real>, int>)
    ensures r == Collect(sols, |sols|)
  {
    var values: seq<real> := [];
    for j := 0 to |sols|
      invariant Collect(sols, j) == Success(values)
    {
      if j + 1 !in sols {
        CollectFails(sols, j + 1, |sols|, j + 1);
        return Failure(j + 1);
      }
      values := values + [sols[j + 1]];
    }
    return Success(values);
  }

  /** The loop of `solution` over the rows from the last up, then the tuple of values. */
  method Substitute(g: Grid, places: nat) returns (result: Outcome)
    requires NoEmptyRow(g)
    ensures result == Substitution(g, places)
  {
    var sols: map<int, real> := map[];
    var i := |g|;
    while i > 0
      invariant 0 <= i <= |g|
      invariant BackSubstitute(g, places, i) == Success(sols)
    {
      i := i - 1;
      var next := SubstituteRow(sols, g[i], places);
      if next.Failure? {
        BackSubstituteFails(g, places, i, next.error);
        return next.error;
      }
      sols := next.value;
    }
    var values := CollectValues(sols);
    if values.Failure? {
      return MissingKey(values.error);
    }
    return Solved(values.value);
  }

  // ---------------------------------------------------------------------
  // The system object
  // ---------------------------------------------------------------------

  /** A linear system given by its augmented matrix; nothing in it changes after construction. */
  class LinearSystem {
    const augMatrix: Matrix
    const decimalPlaces: nat
    /** The row echelon form of the augmented matrix, as `ref()` returned it. */
    const ref: Grid

    /** `LinearSystem(aug_matrix, decimal_places)`: the echelon form is computed here, with `ref`'s default accuracy. */
    constructor (augMatrix: Matrix, decimalPlaces: nat)
      requires RefDefined(augMatrix.contents)
      ensures this.augMatrix == augMatrix && this.decimalPlaces == decimalPlaces
      ensures ref == RefOf(augMatrix.contents, DEFAULT_ACCURACY)
    {
      this.augMatrix := augMatrix;
      this.decimalPlaces := decimalPlaces;
      var echelon := augMatrix.Ref(DEFAULT_ACCURACY);
      ref := echelon.contents;
    }

    /** `num_solutions()`: the classification of the stored echelon form. */
    function NumSolutions(): (r: SolutionCount)
      requires Classifiable(ref)
      ensures r == Zero <==> exists i :: 0 <= i < |ref| && Inconsistent(ref[i], decimalPlaces)
      ensures r == Infinite <==>
        (forall i :: 0 <= i < |ref| ==> !Inconsistent(ref[i], decimalPlaces))
        && NumVars(ref) > |ref| - CountTautologies(ref, decimalPlaces)
      ensures r == One <==>
        (forall i :: 0 <= i < |ref| ==> !Inconsistent(ref[i], decimalPlaces))
        && NumVars(ref) <= |ref| - CountTautologies(ref, decimalPlaces)
    {
      Classify(ref, decimalPlaces)
    }

    /**
     * `solution()`: `None` unless there is exactly one solution; otherwise
     * the dictionary of values filled from the last row up, as a tuple.
     */
    method Solution() returns (result: Outcome)
      requires Classifiable(ref)
      ensures result == SolutionOf(ref, decimalPlaces)
    {
      if NumSolutions() != One {
        return NoUniqueSolution;
      }
      result := Substitute(ref, decimalPlaces);
    }
  }
}
