/** Three places where linalg/Sources behaves differently from what it evidently means:
    the two flat-array initialisers accept a negative column or row count, and
    `determinant()` traps on a 1-by-1 matrix. Each is modelled as written, shown on a
    concrete input, and related to the corrected definition the rest of the model uses. */
module Findings {
  import opened Storage
  import opened Cramer

  // ---------------------------------------------------------------------------
  // Swift integer division
  // ---------------------------------------------------------------------------

  function Abs(a: int): nat {
    if a < 0 then -a else a
  }

  /** The quotient of natural numbers, typed as one. */
  function NatDiv(a: nat, b: nat): nat
    requires b > 0
  {
    a / b
  }

  /** Swift's `a / b` on `Int`: the quotient truncated toward zero. */
  function SwiftDiv(a: int, b: int): (q: int)
    requires b != 0
    ensures Abs(q) == Abs(a) / Abs(b)
    ensures q != 0 ==> ((q > 0) <==> ((a > 0) == (b > 0)))
  {
    var q := NatDiv(Abs(a), Abs(b)) as int;
    if (a < 0) == (b < 0) then q else -q
  }

  /** Swift's `a % b` on `Int`: the remainder of the truncating division, which takes the
      sign of a and ignores the sign of b. */
  function SwiftRem(a: int, b: int): (r: int)
    requires b != 0
    ensures a == SwiftDiv(a, b) * b + r
    ensures Abs(r) == Abs(a) % Abs(b)
    ensures r != 0 ==> ((r > 0) <==> (a > 0))
  {
    var q := Abs(a) / Abs(b);
    var s := Abs(a) % Abs(b);
    assert Abs(a) == q * Abs(b) + s;
    if a < 0 then -s else s
  }

  /** Where both operands are non-negative, Swift's operators are Dafny's. */
  lemma SwiftAgreesOnNaturals(a: nat, b: int)
    requires b > 0
    ensures SwiftDiv(a, b) == a / b && SwiftRem(a, b) == a % b
  {
  }

  // ---------------------------------------------------------------------------
  // Finding 1: init(elementsColMajor:numCols:) accepts a negative column count
  // ---------------------------------------------------------------------------

  /** What an initialiser does with a count: it traps, or it stores a shape. */
  datatype Outcome = Trap | Shape(nRows: int, nCols: int)

  /** `init(elementsColMajor:numCols:)` as written, on an array of `count` elements: the
      precondition `count % numCols == 0` (which traps on its own when numCols is 0), then
      `nRows = count / numCols`. */
  function ColMajorShapeAsWritten(count: nat, numCols: int): (o: Outcome)
    ensures o.Shape? <==> numCols != 0 && count % Abs(numCols) == 0
    ensures o.Shape? ==> o.nCols == numCols && o.nRows * o.nCols == count
  {
    if numCols == 0 then Trap
    else if SwiftRem(count, numCols) != 0 then Trap
    else Shape(SwiftDiv(count, numCols), numCols)
  }

  /** Four elements and -2 columns pass the precondition, since 4 % -2 == 0, and give a
      matrix of -2 rows and -2 columns. */
  lemma NegativeColumnCountAccepted()
    ensures ColMajorShapeAsWritten(4, -2) == Shape(-2, -2)
  {
    assert SwiftDiv(4, -2) == -2;
  }

  /** For a positive column count the initialiser as written and the corrected
      FromColumnMajor agree: the same inputs are accepted, with the same shape. */
  lemma ColMajorCorrected<T>(elems: seq<T>, numCols: int)
    requires numCols > 0
    ensures ColMajorShapeAsWritten(|elems|, numCols).Shape? <==> |elems| % numCols == 0
    ensures |elems| % numCols == 0 ==>
              var m := FromColumnMajor(elems, numCols);
              ColMajorShapeAsWritten(|elems|, numCols) == Shape(m.nRows, m.nCols)
  {
    SwiftAgreesOnNaturals(|elems|, numCols);
  }

  // ---------------------------------------------------------------------------
  // Finding 2: init(elementsRowMajor:numRows:) accepts a negative row count
  // ---------------------------------------------------------------------------

  /** `init(elementsRowMajor:numRows:)` as written, on an array of `count` elements: the
      precondition, then `nCols = count / numRows`, then the reordering loops, whose ranges
      `0..<nCols` and (inside) `0..<nRows` trap when their upper end is negative. */
  function RowMajorShapeAsWritten(count: nat, numRows: int): (o: Outcome)
    ensures o.Shape? ==> numRows != 0 && count % Abs(numRows) == 0
    ensures o.Shape? ==> o.nRows == numRows && o.nRows * o.nCols == count
    ensures o.Shape? && o.nRows < 0 ==> o.nCols == 0 && count == 0
    ensures numRows > 0 && count % numRows == 0 ==> o.Shape?
  {
    if numRows == 0 then Trap
    else if SwiftRem(count, numRows) != 0 then Trap
    else
      var nCols := SwiftDiv(count, numRows);
      if nCols < 0 then Trap                        // the outer range 0..<nCols
      else if nCols > 0 && numRows < 0 then Trap    // the inner range 0..<nRows
      else Shape(numRows, nCols)
  }

  /** No elements and -3 rows pass the precondition, since 0 % -3 == 0; both loops are
      skipped, and the matrix has -3 rows. */
  lemma NegativeRowCountAccepted()
    ensures RowMajorShapeAsWritten(0, -3) == Shape(-3, 0)
  {
  }

  /** For a positive row count the initialiser as written and the corrected FromRowMajor
      agree. */
  lemma RowMajorCorrected<T>(elems: seq<T>, numRows: int)
    requires numRows > 0
    ensures RowMajorShapeAsWritten(|elems|, numRows).Shape? <==> |elems| % numRows == 0
    ensures |elems| % numRows == 0 ==>
              var m := FromRowMajor(elems, numRows);
              RowMajorShapeAsWritten(|elems|, numRows) == Shape(m.nRows, m.nCols)
  {
    SwiftAgreesOnNaturals(|elems|, numRows);
  }

  // ---------------------------------------------------------------------------
  // Finding 3: determinant() traps on a 1-by-1 matrix
  // ---------------------------------------------------------------------------

  /** The shape `minorMatrix` asks `init(elementsColMajor:numCols:)` for when it removes a
      row and a column of an n-by-n matrix: (n-1)(n-1) elements in n-1 columns. For n == 1
      that is no elements in 0 columns, and `0 % 0` traps. */
  lemma MinorShapeAsWritten(n: nat)
    requires n >= 1
    ensures n == 1 ==> ColMajorShapeAsWritten(Times(n - 1, n - 1), n - 1) == Trap
    ensures n >= 2 ==> ColMajorShapeAsWritten(Times(n - 1, n - 1), n - 1) == Shape(n - 1, n - 1)
  {
    if n >= 2 {
      BlocksDivide(n - 1, n - 1);
      SwiftAgreesOnNaturals(Times(n - 1, n - 1), n - 1);
    }
  }

  /** How a call of `determinant()` ends: it traps, or returns a value. */
  datatype Evaluation = Crash | Value(v: real)

  /** `determinant()` as written on a square matrix. A 1-by-1 matrix is not the 2-by-2 case,
      so the expansion loop builds its first minor and traps (MinorShapeAsWritten); every
      other size returns Det. */
  function DeterminantAsWritten(m: Matrix<real>): (e: Evaluation)
    requires Valid(m) && m.nRows == m.nCols
    ensures e.Value? ==> DetDomain(m, 0) && e.v == Det(m, 0)
    ensures e.Crash? ==> m.nRows >= 1 && ColMajorShapeAsWritten(Times(m.nRows - 1, m.nCols - 1), m.nCols - 1) == Trap
  {
    if m.nRows == 1 then
      MinorShapeAsWritten(1);
      Crash
    else Value(Det(m, 0))
  }

  /** The 1-by-1 matrix [5] has no determinant as written. */
  lemma OneByOneDeterminantCrashes()
    ensures DeterminantAsWritten(FromColumnVector([5.0])) == Crash
  {
  }

  /** The corrected determinant: the element itself for a 1-by-1 matrix, Det otherwise. */
  function Determinant(m: Matrix<real>): (d: real)
    requires Valid(m) && m.nRows == m.nCols
    ensures m.nRows != 1 ==> DeterminantAsWritten(m) == Value(d)
  {
    if m.nRows == 1 then Get(m, 0, 0) else Det(m, 0)
  }

  /** With the 1-by-1 case defined, the 2-by-2 rule is the cofactor expansion along row 0
      that the general branch performs, with 1-by-1 minors: the expansion holds at every
      size from 2 up. */
  lemma TwoByTwoIsExpansion(m: Matrix<real>)
    requires Valid(m) && m.nRows == m.nCols == 2
    ensures Determinant(m) == Mul(Get(m, 0, 0), Determinant(Minor(m, 0, 0))) - Mul(Get(m, 0, 1), Determinant(Minor(m, 0, 1)))
  {
    var m00, m01 := Minor(m, 0, 0), Minor(m, 0, 1);
    assert Get(m00, 0, 0) == Get(m, 1, 1);
    assert Get(m01, 0, 0) == Get(m, 1, 0);
  }

  /** Cramer's rule with the corrected determinant solves a 1-by-1 system a x = b whenever
      a is not zero: replacing the only column by b gives determinant b. */
  lemma OneByOneCramer(a: Matrix<real>, b: seq<real>)
    requires Valid(a) && a.nRows == a.nCols == 1 && |b| == 1 && Determinant(a) != 0.0
    ensures Determinant(WithColumnReplaced(a, 0, b)) == b[0]
    ensures Mul(Get(a, 0, 0), Determinant(WithColumnReplaced(a, 0, b)) / Determinant(a)) == b[0]
  {
    var ai := WithColumnReplaced(a, 0, b);
    assert Get(ai, 0, 0) == b[0];
  }
}
