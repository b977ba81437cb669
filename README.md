# LinearAlgebra in Dafny

A model of the small linear-algebra library `LinearAlgebra` and proofs about it. The library has four parts:

- **Matrix engine** (`Matrix.py`). A `Matrix` holds a dense row-major grid of numbers. Its elementary row operations work in place: `replace` adds a multiple of one row to another, `interchange` swaps two rows, `scale` multiplies a row by a number. `submatrix` extracts a rectangular block and `insert` writes one over a matrix. `ref` is Gaussian elimination with partial pivoting, written recursively. `rref` is Gauss-Jordan back-elimination, and `get_pivot_position` finds the first entry of a row that does not round to zero.
- **Linear systems** (`LinearSystem.py`). A `LinearSystem` keeps an augmented matrix and its row echelon form, computed once. `num_solutions` classifies the system as having 0, 1 or infinitely many solutions. `solution` recovers the unique solution by back-substitution from the last row up.
- **Maths helpers** (`maths.py`). Prime factorisation, a tokenizer that splits a string into digit runs and single characters, and `product`.
- **List helpers** (`utils.py`). `unpack` flattens one level, and `sorted` is an insertion sort by a key.

## How the model is built

- Matrix cells are exact `real` numbers, so floating point is not modelled.
- The two near-zero tests of the source are stated on reals in `tolerance.dfy`. `round(x, places) == 0` is `RoundsToZero`: Python rounds half to even, so a tie rounds to zero. `round2(x, places) == 0` is `Round2IsZero`. Both accept 0, so a pivot that passes either test is non-zero, and the divisions by pivots are defined.
- `Matrix` is a class whose `contents` field the row operations reassign. Each method is proved equal to a function on the grid: `Replaced`, `Interchanged`, `Scaled`, `RefOf`, `RrefOf`. Everything else about the operations is proved about those functions in `matrix_facts.dfy`.
- Row and column numbers are 1-based, as in the source. `scale` does no index check, so row 0 reaches the last row through Python's negative indexing. The model does the same.
- `ref` and `rref` keep the source's behaviour:
  - `ref` on the block from (2, 2) calls `ref()` without its own accuracy, so the recursion runs with the default accuracy 2.
  - When the first column is all negligible, `ref` still recurses from (2, 2), not (1, 2). For example, `[[0, 1], [0, 2]]` comes back unchanged (`MatrixFacts.RefSkipsNegligibleColumn`). So only the one-step elimination facts hold in general, and they are what is proved.
  - `rref` ignores its accuracy argument.
- `LinearSystem` computes its echelon form with `ref`'s default accuracy, not with its own `decimal_places`. It uses `decimal_places` only in `num_solutions` and in the pivot search of `solution`.
- A `KeyError` raised during back-substitution is the outcome `MissingKey(k)`. A row without a pivot makes `solution` sum over `list(enumerate(row))[None:-1]`, which is every coefficient. It stops with a `KeyError` at the first unknown not yet set. If every key is present, the division by `row[None - 1]` raises a `TypeError`, which is the outcome `NoPivot`. A system in row echelon form that is upper triangular gets exactly one solution from `solution`, and that solution satisfies every equation (`LinearSystemFacts.TriangularSolved`). Because of the `ref` behaviour above, an inconsistent system can still be classified as having one solution:
  - `[[0, 1, 1], [0, 2, 3]]` is its own echelon form;
  - it has no solution (`LinearSystemFacts.ZeroColumnUnsolvable`);
  - `num_solutions` returns 1;
  - `solution` stops with a `KeyError` on key 1 (`LinearSystemFacts.ZeroColumnMissesKey`).
- A consistent system with more equations than unknowns fails in the same way. For example, x = 1, y = 1, x + y = 2 has echelon form `[[1, 0, 1], [0, 1, 1], [0, 0, 0]]` (`LinearSystemFacts.RefOfOverdetermined`):
  - `num_solutions` returns 1 and (1, 1) satisfies every equation;
  - the zero bottom row is handled first and has no pivot;
  - `solution` stops with a `KeyError` on key 1 (`LinearSystemFacts.OverdeterminedMissesKey`).
- Python lists of mixed items are modelled as follows:
  - `get_math_tokens_from_string` returns `Token`s: `Num(n)` for a digit run and `Text(c)` for any other character;
  - `unpack` works on `Item`s: a plain value, or a collection of a given kind (`list`, `tuple`, ...);
  - the key of `sorted` returns an integer.

## Model

| member | source | states |
|---|---|---|
| Tolerance.ZeroIsNegligible | Matrix.py:200 | an exact zero rounds to zero under both tests, so an entry that does not is non-zero |
| Matrices.Submatrix | Matrix.py:45-71 | the number of rows is that of the clipped row slice; row i is the clipped column slice of row start_row-1+i; cell (i, j) is cell (start_row-1+i, start_col-1+j); rectangular stays rectangular |
| Matrices.Insert | Matrix.py:72-115 | same dimensions as the target; cell (i, j) comes from `other` at (i-r+1, j-c+1) when that lies inside `other`, otherwise from the target |
| Matrices.Replaced | Matrix.py:116-132 | the mutated row gains `scale` times the mutator row, cell by cell; every other row is unchanged; an empty row has nothing to change |
| Matrices.Interchanged | Matrix.py:133-155 | rows a and b trade places and every other row is unchanged; a == b changes nothing |
| Matrices.Scaled | Matrix.py:156-177 | every cell of the chosen row (row 0 and below count from the back) is multiplied by `scale`; other rows are unchanged |
| Matrices.PivotFrom | Matrix.py:242-245 | the position returned is of an entry that does not round to zero, and every entry before it rounds to zero; with no position, every entry rounds to zero |
| Matrices.GetPivotPosition | Matrix.py:242-245 | the search loop returns the 1-based index of the first entry that does not round to zero, or None when there is none |
| Matrices.Max | Matrix.py:202 | Python's `max`: an element of the list that no element exceeds |
| Matrices.Min | Matrix.py:203 | Python's `min`: an element of the list that no element is below |
| Matrices.IndexOf | Matrix.py:204-206 | Python's `list.index`: the first position holding the value |
| Matrices.PivotRow | Matrix.py:199-206 | the chosen row has a first entry of largest absolute value; on a tie between x and -x the negative one is chosen; it is the first row holding that value |
| Matrices.EliminateRows | Matrix.py:209-210 | after the calls of `replace` for rows 2 to k, those rows have 0 in column 1, row 1 and the rows below k are unchanged |
| Matrices.EliminateBelow | Matrix.py:208-210 | step 2 of `ref` leaves the pivot row unchanged and every entry below it in column 1 exactly 0 |
| Matrices.RefStep | Matrix.py:199-210 | steps 1 and 2 of `ref` keep the dimensions |
| Matrices.RefOf | Matrix.py:183-212 | `ref` keeps the dimensions and returns the matrix unchanged when it has fewer than 2 rows |
| Matrices.NormalizeRow | Matrix.py:229-233 | a row with a pivot is divided by its pivot entry, which becomes exactly 1; a row without one is unchanged |
| Matrices.NormalizeRows | Matrix.py:229-233 | step 1 of `rref` normalises the first k rows and leaves the others unchanged |
| Matrices.ClearAbove | Matrix.py:238-239 | the calls of `replace` make every row above row i have 0 in the pivot column; row i and the rows below are unchanged |
| Matrices.EliminateAbove | Matrix.py:234-239 | for a row with a pivot, every row above it gets 0 in the pivot column; a row without one changes nothing |
| Matrices.BackEliminate | Matrix.py:234-239 | step 2 of `rref` over the first k rows leaves the rows from k on unchanged |
| Matrices.RrefOf | Matrix.py:213-240 | `rref` keeps the dimensions and is `ref` itself for fewer than 2 rows |
| Matrices.Matrix.constructor | Matrix.py:8-16 | the matrix holds the given contents |
| Matrices.Matrix.Copy | Matrix.py:178-182 | a new matrix with the same cells |
| Matrices.Matrix.Replace | Matrix.py:116-132 | the loop over the columns leaves the contents equal to `Replaced` of the old contents |
| Matrices.Matrix.Interchange | Matrix.py:133-155 | the contents become `Interchanged` of the old contents |
| Matrices.Matrix.Scale | Matrix.py:156-177 | the contents become `Scaled` of the old contents |
| Matrices.Matrix.EliminateBelowPivot | Matrix.py:208-210 | the loop of `replace` calls leaves the contents equal to `EliminateBelow` of the old contents |
| Matrices.Matrix.ClearAbovePivot | Matrix.py:238-239 | the inner loop of step 2 of `rref` leaves the contents equal to `ClearAbove` |
| Matrices.Matrix.PivotFirstColumn | Matrix.py:199-210 | the interchange and the elimination leave the contents equal to `RefStep` of the old contents |
| Matrices.Matrix.Ref | Matrix.py:183-212 | `ref` returns a new matrix whose contents are `RefOf` of this one; this one is not changed |
| Matrices.Matrix.NormalizePivots | Matrix.py:229-233 | the scaling loop leaves the contents equal to `NormalizeRows` of the old contents |
| Matrices.Matrix.ClearAbovePivots | Matrix.py:234-239 | the clearing loop leaves the contents equal to `BackEliminate` of the old contents |
| Matrices.Matrix.Rref | Matrix.py:213-240 | `rref` returns a new matrix whose contents are `RrefOf` of this one |
| MatrixFacts.InterchangeInvolution | Matrix.py:133-155 | interchanging the same two rows twice restores the matrix, and the order of the two row numbers does not matter |
| MatrixFacts.ReplaceUndo | Matrix.py:116-132 | `replace` with `-scale` undoes `replace` with `scale` when the rows differ |
| MatrixFacts.ReplaceByZero | Matrix.py:116-132 | `replace` with scale 0 changes nothing |
| MatrixFacts.ScaleUndo | Matrix.py:156-177 | scaling a row by s and then by 1/s restores the matrix |
| MatrixFacts.ScaleRowZeroIsLast | Matrix.py:175-177 | `scale(0, s)` scales the last row |
| MatrixFacts.SubmatrixOfInsert | Matrix.py:45-115 | extracting the block just inserted gives back the block, when it fits |
| MatrixFacts.InsertOwnBlock | Matrix.py:72-115 | inserting a matrix's own block from (r, c) back at (r, c) gives the matrix |
| MatrixFacts.InsertEmpty | Matrix.py:101-102 | inserting an empty matrix gives an equal copy |
| MatrixFacts.EliminateRowsCells | Matrix.py:209-210 | each row below the pivot becomes itself minus (its first entry / pivot) times the pivot row |
| MatrixFacts.EliminateBelowSwapped | Matrix.py:207-210 | after the interchange and the elimination, the pivot row is on top and every other row, including the former top row, is eliminated against it |
| MatrixFacts.RefStepPivots | Matrix.py:199-210 | when column 1 is not all negligible, the top row is the pivot row, its first entry is non-zero and largest in absolute value, every entry below it in column 1 is 0, and every other row is eliminated against it |
| MatrixFacts.RefStepSkips | Matrix.py:200 | when column 1 is all negligible, steps 1 and 2 change nothing |
| MatrixFacts.RefKeepsFirstStep | Matrix.py:212 | the recursion of `ref` keeps row 1 and column 1 as steps 1 and 2 left them |
| MatrixFacts.RefFirstColumn | Matrix.py:196-212 | `ref` puts a pivot of largest absolute value on top with zeros below it, or leaves column 1 as it was when it is all negligible |
| MatrixFacts.RefSkipsNegligibleColumn | Matrix.py:200-212 | `[[0, 1], [0, 2]]` comes back from `ref` unchanged, though both rows have their pivot in column 2 |
| MatrixFacts.RefExample | Matrix.py:187-190 | `ref` of `[[1, 3, 4, 7], [3, 9, 7, 6]]` is `[[3, 9, 7, 6], [0, 0, 5/3, 5]]` |
| MatrixFacts.NormalizeKeepsPivot | Matrix.py:229-233 | scaling a row whose entries before the pivot are exactly 0 keeps the pivot where it was and makes it 1 |
| MatrixFacts.ClearAboveKeepsColumn | Matrix.py:238-239 | clearing above a pivot leaves every column alone in which the pivot row has 0 |
| MatrixFacts.BackEliminateClears | Matrix.py:234-239 | on an exact echelon form, step 2 leaves each pivot in place and 0 above it |
| MatrixFacts.NormalizeRowsEchelon | Matrix.py:229-233 | step 1 keeps an exact echelon form and its pivot positions, and makes every pivot 1 |
| MatrixFacts.NormalizeAndClear | Matrix.py:229-239 | steps 1 and 2 together leave each pivot 1 with 0 above it, on an exact echelon form |
| MatrixFacts.RrefPivots | Matrix.py:213-240 | when `ref` gives an exact echelon form, `rref` has 1 at each pivot and 0 above it |
| MatrixFacts.RrefPivotCanMove | Matrix.py:229-236 | the pivot is searched again after scaling: `[0.004, 0.5]` has its pivot in column 2, and in column 1 once scaled |
| MatrixFacts.RrefExampleScaling | Matrix.py:229-233 | step 1 of `rref` on the first doctest's echelon form |
| MatrixFacts.RrefExampleClearing | Matrix.py:234-239 | step 2 of `rref` on the result of step 1 |
| MatrixFacts.RrefExample | Matrix.py:217-220 | `rref` of `[[1, 3, 4, 7], [3, 9, 7, 6]]` is `[[1, 3, 0, -5], [0, 0, 1, 3]]` |
| LinearSystems.CountTautologies | LinearSystem.py:59-62 | the number of all-negligible rows is at most the number of rows |
| LinearSystems.Classify | LinearSystem.py:36-65 | 0 exactly when some row reads 0 = c with c not negligible; otherwise infinitely many exactly when there are more unknowns than rows that are not all negligible; 1 otherwise, and for an empty matrix |
| LinearSystems.SumFrom | LinearSystem.py:82-85 | the sum fails only on a key that is missing, the first one, and succeeds only when every key it needs is present |
| LinearSystems.Collect | LinearSystem.py:87 | the tuple holds `sols[1]`, ..., `sols[n]` in order, or the first missing key |
| LinearSystems.BackSubstituteFails | LinearSystem.py:78-86 | a `KeyError` on one row ends the whole loop with that key |
| LinearSystems.SumFromFails | LinearSystem.py:82-85 | a `KeyError` in the first terms of the sum ends the sum |
| LinearSystems.CollectFails | LinearSystem.py:87 | a `KeyError` while collecting the first values ends the collection |
| LinearSystems.SolveRow | LinearSystem.py:79-86 | one pass fails only with a `KeyError` or for want of a pivot; it fails for want of a pivot exactly when the row has none and every key of the sum over all its coefficients is present |
| LinearSystems.SubstituteRow | LinearSystem.py:79-86 | the pass's search and summation loops compute `SolveRow`: the value at the row's pivot from the constant, the later unknowns and the pivot entry; without a pivot, the first missing key of the whole row, or the failure for want of a pivot |
| LinearSystems.CollectValues | LinearSystem.py:87 | the collection loop computes `Collect` |
| LinearSystems.Substitute | LinearSystem.py:78-87 | the loop over the rows from the last up, then the collection, compute `Substitution` |
| LinearSystems.LinearSystem.constructor | LinearSystem.py:8-23 | the system keeps its matrix and its decimal places, and its echelon form is `ref` with the default accuracy |
| LinearSystems.LinearSystem.NumSolutions | LinearSystem.py:36-65 | 0 exactly when a row of the stored echelon form reads 0 = c with c not negligible at `decimal_places`; infinitely many exactly when no row does and there are more unknowns than rows that are not all negligible; 1 exactly when no row does and there are not |
| LinearSystems.LinearSystem.Solution | LinearSystem.py:66-87 | `None` unless `num_solutions` is 1; otherwise the back-substitution outcome |
| LinearSystemFacts.SumFromIsDot | LinearSystem.py:82-85 | with every needed key present, the sum in the loop is the dot product of the row with the values |
| LinearSystemFacts.SolveRowSucceeds | LinearSystem.py:79-86 | on a row whose pivot is on the diagonal, with the later unknowns known, the loop sets that unknown |
| LinearSystemFacts.SolvedRowHolds | LinearSystem.py:83-86 | the value set for a row's pivot makes that row's equation hold |
| LinearSystemFacts.TriangularBackSubstitute | LinearSystem.py:78-86 | on an echelon form whose row `i` has its pivot in column `i`, the loop never fails, fills exactly the keys 1 to n, and every row's equation holds for the values it found (each pass keeps this for the rows handled so far) |
| LinearSystemFacts.BackSubstituteStep | LinearSystem.py:79-86 | one pass over row k of such a form, after the rows below are solved, adds key k + 1 and keeps every handled row's equation true |
| LinearSystemFacts.NoTautologies | LinearSystem.py:59-62 | with no all-negligible row the count of tautologies is 0 |
| LinearSystemFacts.TriangularClassifiedOne | LinearSystem.py:36-65 | an upper triangular echelon form with non-negligible diagonal is classified as one solution |
| LinearSystemFacts.TriangularSolved | LinearSystem.py:66-87 | on such a form `solution` returns a tuple with one value per unknown, and it satisfies every equation |
| LinearSystemFacts.AgreeFrom | LinearSystem.py:78-87 | two solutions of an upper triangular system agree on every unknown from k on |
| LinearSystemFacts.UpperTriangularUnique | LinearSystem.py:78-87 | an upper triangular system with non-zero diagonal has at most one solution |
| LinearSystemFacts.TriangularSolutionUnique | LinearSystem.py:66-87 | on such a form, any tuple satisfying every equation is exactly what `solution` returns |
| LinearSystemFacts.RefOfDependentRows | Matrix.py:183-212 | `ref` of `[[1, 1, 1], [2, 2, 2], [3, 3, 3]]` is `[[3, 3, 3], [0, 0, 0], [0, 0, 0]]` |
| LinearSystemFacts.NumSolutionsDependent | LinearSystem.py:43-44 | that system has infinitely many solutions |
| LinearSystemFacts.RefOfInconsistent | Matrix.py:183-212 | `ref` of `[[2, 1, 1], [4, 2, 1.25]]` is `[[4, 2, 1.25], [0, 0, 0.375]]` |
| LinearSystemFacts.NumSolutionsInconsistent | LinearSystem.py:45-46 | that system has no solution |
| LinearSystemFacts.RefOfIndependent | Matrix.py:183-212 | `ref` of `[[1, 1, 1], [2, 1, 2]]` is `[[2, 1, 2], [0, 0.5, 0]]` |
| LinearSystemFacts.NumSolutionsIndependent | LinearSystem.py:47-48 | that system has one solution |
| LinearSystemFacts.RefOfTwoByTwo | Matrix.py:183-212 | `ref` of `[[1, 1, 2], [1, 2, 3]]` is `[[1, 1, 2], [0, 1, 1]]` |
| LinearSystemFacts.SolutionTwoByTwo | LinearSystem.py:71-72 | `solution` of that system is (1, 1) |
| LinearSystemFacts.RefOfThreeByThree | Matrix.py:183-212 | `ref` of `[[1, 1, 0, 3], [2, 1, 1, 7], [1, -1, 3, 8]]` is `[[2, 1, 1, 7], [0, -1.5, 2.5, 4.5], [0, 0, 1/3, 1]]` |
| LinearSystemFacts.SolutionThreeByThree | LinearSystem.py:73-74 | `solution` of that system is (1, 2, 3) |
| LinearSystemFacts.ZeroColumnUnsolvable | LinearSystem.py:36-65 | `[[0, 1, 1], [0, 2, 3]]` has no solution |
| LinearSystemFacts.ZeroColumnClassified | LinearSystem.py:50-65 | yet `num_solutions` classifies it as one solution, both rows having their pivot in column 2 |
| LinearSystemFacts.ZeroColumnMissesKey | LinearSystem.py:66-87 | that matrix is its own echelon form, and `solution` stops with a `KeyError` on key 1 |
| LinearSystemFacts.BottomRowWithoutPivot | LinearSystem.py:78-86 | when the last row has no pivot, `solution`'s loop stops at once: with a `KeyError` on key 1 when the row has a coefficient, for want of a pivot when it has only the constant |
| LinearSystemFacts.RefOfOverdetermined | Matrix.py:183-212 | `ref` of `[[1, 0, 1], [0, 1, 1], [1, 1, 2]]` is `[[1, 0, 1], [0, 1, 1], [0, 0, 0]]` |
| LinearSystemFacts.OverdeterminedMissesKey | LinearSystem.py:36-87 | that form is classified as one solution and (1, 1) satisfies it, yet `solution` stops with a `KeyError` on key 1 |
| Maths.SmallestDivisorFrom | maths.py:15-21 | the loop stops at the least divisor of n from i on, or at n when there is none below n |
| Maths.GetPrimeFactors | maths.py:3-22 | the recursion and the divisor-search loop compute `PrimeFactors` |
| Maths.SmallestDivisorIsPrime | maths.py:18-20 | the first divisor the loop finds is prime |
| Maths.FactorsArePrime | maths.py:3-22 | for n >= 2, every factor returned is prime |
| Maths.FactorsInOrder | maths.py:3-22 | for n >= 2, the factors are in nondecreasing order, all at least the smallest divisor |
| Maths.FactorsMultiplyBack | maths.py:3-22 | for every integer n, the product of the factors returned is n |
| Maths.FactorsSpecialCases | maths.py:15-17 | 0 gives [0], 1 gives [1], and a negative n gives -1 followed by the factors of -n, which are prime and in order |
| Maths.FactorsOfSix | maths.py:8-9 | the factors of 6 are [2, 3] |
| Maths.FactorsOfMinusEight | maths.py:10-11 | the factors of -8 are [-1, 2, 2, 2] |
| Maths.FactorsOfTwoFortyTwo | maths.py:12-13 | the factors of 242 are [2, 11, 11] |
| Maths.TokensConcat | maths.py:36-48 | tokenizing splits at any point after a non-digit: the tokens of x + y are those of x followed by those of y |
| Maths.RunTokens | maths.py:46-47 | a run of digits alone becomes one number token |
| Maths.FlushStep | maths.py:41-45 | at a non-digit, the pending digit run is flushed as a number and the character becomes a text token |
| Maths.GetMathTokens | maths.py:24-48 | the loop returns `Tokens` of the string: each maximal digit run as one number and each other character as one text token, in order |
| Maths.TextsAreNonDigits | maths.py:41-45 | the text tokens are exactly the non-digit characters of the input, in order, and as many |
| Maths.NumbersNeverAdjacent | maths.py:36-48 | two number tokens are never next to each other |
| Maths.TokensExamples | maths.py:29-34 | "123ab", "g4" and "6xy" give [123, 'a', 'b'], ['g', 4] and [6, 'x', 'y'] |
| Maths.ProductAsWritten | maths.py:50-55 | the accumulator loop as written returns 1 plus the sum of the items |
| Maths.ProductAsWrittenIsNotProduct | maths.py:50-55 | on [2, 2] the loop as written returns 5 where the product is 4 |
| Maths.ProductConcat | maths.py:50-51 | the product of no items is 1, and the product of a concatenation is the product of the products |
| Maths.Product | maths.py:50-55 | the corrected accumulator loop returns the product of the items |
| Utils.Unpack | utils.py:1-19 | the loop returns `Unpacked`: the elements of each item of the given type, and each other item itself, in order |
| Utils.UnpackedConcat | utils.py:13-19 | unpacking a concatenation concatenates the unpacked parts, so order is kept |
| Utils.UnpackedLengthIs | utils.py:15-18 | the result's length is the number of items kept plus the sizes of the items spliced |
| Utils.UnpackedKeepsOthers | utils.py:17-18 | with no item of the given type, the list comes back unchanged |
| Utils.UnpackedOneLevel | utils.py:15-18 | an item is in the result exactly when some input item contributes it, as itself or as one of its elements, whatever type that element has |
| Utils.UnpackedAround | utils.py:13-19 | around one item, the items of other types are kept as they are |
| Utils.UnpackListExample | utils.py:6-7 | `[1, 2, 3, [4, 5, 6], 7, 8]` unpacked by `list` gives `[1, ..., 8]` |
| Utils.UnpackTupleAtEndExample | utils.py:8-9 | `[1, 2, (3, 4)]` unpacked by `tuple` gives `[1, 2, 3, 4]` |
| Utils.UnpackTupleAtStartExample | utils.py:10-11 | `((0, 1), 2, 3)` unpacked by `tuple` gives `[0, 1, 2, 3]` |
| Utils.UnpackOneLevelExample | utils.py:15-16 | a list inside a spliced list stays a list |
| Utils.InsertionIndex | utils.py:26-28 | the inner loop stops at the first item whose key is not smaller than the new item's, or at the end |
| Utils.IndexIsFirstNotSmaller | utils.py:26-28 | that first position is unique |
| Utils.Sorted | utils.py:20-30 | the two loops compute `SortedBy`: each item inserted at the insertion index of the list built so far |
| Utils.InsertKeepsSorted | utils.py:26-29 | inserting at the insertion index keeps a list in nondecreasing key order |
| Utils.SortedIsSorted | utils.py:20-30 | the result is in nondecreasing order of the key |
| Utils.InsertAddsItem | utils.py:29 | `out.insert(i, item)` adds exactly one copy of the item and keeps every item already there |
| Utils.SortedIsPermutation | utils.py:24-30 | the result holds the same items, as many times each, as the input |
| Utils.InsertGoesFirst | utils.py:27-29 | a new item goes before every item already there with the same key |
| Utils.EqualKeysReversed | utils.py:27-29 | items with equal keys come out in the reverse of their input order |
| Utils.SortedExample | utils.py:20-30 | by tens digit, [11, 5, 12] sorts to [5, 12, 11]: 11 and 12 come out reversed |

## Left out

- Interactive construction through `input()` (Matrix.py:17-26, LinearSystem.py:14-20) is I/O. The model has only the constructors that take explicit contents.
- `__str__` of `Matrix` and `LinearSystem`, `__getitem__` and `__len__` are text layout and plain indexing. `__getitem__` and `__len__` are used directly on the grid.
- `formatting.py` (`round2`, `roundall`) is not part of this model. The near-zero test `round2(x, p) == 0` is stated on reals as `Round2IsZero`, and the rounding the doctests apply to displayed values is left out.
- Floating point: cells are exact reals. The doctests' decimals, such as 1.67, are display rounding. A float computation can round to values that the exact model does not produce.
- RationalExpression.py is not part of this model.
- `decimal_places` and `accuracy` are natural numbers. Python also accepts negative numbers of places, and those are not modelled.
- Matrices.RefOf, Matrices.Matrix.Ref: require at most one more row than columns. The recursion of `ref` reaches rows with no first entry on taller matrices and fails there with an `IndexError`; that failure is not modelled.
- Matrices.Matrix.Replace, Matrices.Matrix.Interchange, Matrices.Matrix.Scale: require the row numbers to be in range. The source fails there with an `AssertionError` or an `IndexError`, and that failure is not modelled.
- Matrices.Insert: requires a rectangular target and block. `insert` takes the column count from row 1. A later row that is shorter fails with an `IndexError`. A later row that is longer is silently cut to the length of row 1. Neither ragged case is modelled.
- Matrices.Matrix.Replace: the source's rows are Python lists shared with the caller, so `replace` also changes a list the caller still holds. The model's rows are values, and the sharing is not modelled.
- Matrices.Submatrix: requires a non-empty matrix or an end column. Without `end_col`, `submatrix` on an empty matrix evaluates `len(0)` and raises a `TypeError`, which is not modelled. MatrixFacts.InsertOwnBlock requires a non-empty matrix for the same reason.
- LinearSystems.LinearSystem.Solution: the `TypeError` raised by a row without a pivot is the outcome `NoPivot`, with no further detail of the exception.
- LinearSystems.LinearSystem.NumSolutions: requires a rectangular echelon form with non-empty rows, since `row[-1]` fails on an empty row.
- Maths.IsDigit: only ASCII '0' to '9' count as digits. Python's `str.isdigit` also accepts other Unicode digits.
- Utils.Unpack: `type_` is one kind, and a kind matches only itself. Python's `isinstance` also matches subclasses, and it accepts a tuple of classes as `type_`, matching an item of any of them. Neither is modelled.
- Utils.Sorted: the key returns an integer. Python's key may return any ordered value.

## Findings

| source | as written | input that shows it | evidently intended | confidence | as-written member | corrected member |
|---|---|---|---|---|---|---|
| maths.py:50-55 | `product` starts at 1 and adds each item, so it returns 1 plus the sum | [2, 2] gives 5 | the product of the items, 4, as the docstring says | not executed | Maths.ProductAsWritten, Maths.ProductAsWrittenIsNotProduct | Maths.Product, Maths.ProductConcat |
