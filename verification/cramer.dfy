/** Minors, cofactor-expansion determinant, column replacement and Cramer's rule
    (linalg/Sources/Matrix+Cramer.swift). Elements are exact reals. */
module Cramer {
  import opened Storage

  // ---------------------------------------------------------------------------
  // Minor matrix
  // ---------------------------------------------------------------------------

  /** The index in the original matrix of index i of the minor, when `skip` was removed. */
  function Skipping(i: int, skip: int): int {
    if i >= skip then i + 1 else i
  }

  /** How many of the indices 0 .. k-1 survive when `skip` is removed. */
  function KeptBefore(k: int, skip: int): int {
    if k <= skip then k else k - 1
  }

  /** Column j of the minor: column Skipping(j, skipCol) of m without row skipRow. */
  function MinorColumn(m: Matrix<real>, skipRow: int, skipCol: int, j: int): (col: seq<real>)
    requires Valid(m) && 0 <= skipRow < m.nRows && 0 <= skipCol < m.nCols && 0 <= j < m.nCols - 1
    ensures |col| == m.nRows - 1
    ensures forall i {:trigger col[i]} :: 0 <= i < m.nRows - 1 ==>
              col[i] == Get(m, Skipping(i, skipRow), Skipping(j, skipCol))
  {
    seq(m.nRows - 1, i requires 0 <= i < m.nRows - 1 => Get(m, Skipping(i, skipRow), Skipping(j, skipCol)))
  }

  /** The columns of the minor, whose concatenation the loops of `minorMatrix` collect. */
  function MinorColumns(m: Matrix<real>, skipRow: int, skipCol: int): (cols: seq<seq<real>>)
    requires Valid(m) && 0 <= skipRow < m.nRows && 0 <= skipCol < m.nCols
    ensures |cols| == m.nCols - 1
    ensures forall j {:trigger cols[j]} :: 0 <= j < m.nCols - 1 ==> cols[j] == MinorColumn(m, skipRow, skipCol, j)
  {
    seq(m.nCols - 1, j requires 0 <= j < m.nCols - 1 => MinorColumn(m, skipRow, skipCol, j))
  }

  /** `minorMatrix(skipRow:skipCol:)`: the matrix without row skipRow and column skipCol,
      every other element keeping its relative position. */
  function Minor(m: Matrix<real>, skipRow: int, skipCol: int): (r: Matrix<real>)
    requires Valid(m) && m.nCols >= 2
    requires 0 <= skipRow < m.nRows && 0 <= skipCol < m.nCols
    ensures Valid(r) && r.nRows == m.nRows - 1 && r.nCols == m.nCols - 1
    ensures forall i, j {:trigger Get(r, i, j)} :: 0 <= i < r.nRows && 0 <= j < r.nCols ==>
              Get(r, i, j) == Get(m, Skipping(i, skipRow), Skipping(j, skipCol))
  {
    var h := m.nRows - 1;
    var cols := MinorColumns(m, skipRow, skipCol);
    ConcatLength(cols, h);
    forall i, j | 0 <= i < h && 0 <= j < m.nCols - 1
      ensures Concat(cols)[ColMajorIndex(h, m.nCols - 1, i, j)] == Get(m, Skipping(i, skipRow), Skipping(j, skipCol))
    {
      ConcatAt(cols, h, j, i);
    }
    Matrix(Concat(cols), h, m.nCols - 1)
  }

  /** The loops of `minorMatrix`, as the Swift code writes them. */
  method ComputeMinor(m: Matrix<real>, skipRow: int, skipCol: int) returns (r: Matrix<real>)
    requires Valid(m) && m.nCols >= 2
    requires 0 <= skipRow < m.nRows && 0 <= skipCol < m.nCols
    ensures r == Minor(m, skipRow, skipCol)
  {
    var newElems := CollectMinorElements(m, skipRow, skipCol);
    BlocksDivide(m.nCols - 1, m.nRows - 1);
    r := FromColumnMajor(newElems, m.nCols - 1);
  }

  /** The nested loop of `minorMatrix`: columns outer, rows inner, skipping row skipRow
      and column skipCol, appending every other element. */
  method CollectMinorElements(m: Matrix<real>, skipRow: int, skipCol: int) returns (newElems: seq<real>)
    requires Valid(m) && m.nCols >= 2
    requires 0 <= skipRow < m.nRows && 0 <= skipCol < m.nCols
    ensures newElems == Concat(MinorColumns(m, skipRow, skipCol))
    ensures |newElems| == Times(m.nCols - 1, m.nRows - 1)
  {
    newElems := [];
    ghost var h := m.nRows - 1;
    ghost var cols := MinorColumns(m, skipRow, skipCol);
    ghost var spec := Concat(cols);
    ConcatLength(cols, h);
    for col := 0 to m.nCols
      invariant |newElems| == Times(KeptBefore(col, skipCol), h) <= |spec|
      invariant newElems == spec[..|newElems|]
    {
      for row := 0 to m.nRows
        invariant |newElems| ==
                  Times(KeptBefore(col, skipCol), h) + (if col == skipCol then 0 else KeptBefore(row, skipRow))
        invariant |newElems| <= |spec| && newElems == spec[..|newElems|]
      {
        if col == skipCol || row == skipRow {
          continue;
        }
        ghost var n := |newElems|;
        StepMinor(m, skipRow, skipCol, row, col);
        assert n < |spec| && spec[n] == Get(m, row, col);
        PrefixExtend(spec, n);
        newElems := newElems + [Get(m, row, col)];
        assert newElems == spec[..n + 1];
      }
      TimesMonotone(KeptBefore(col + 1, skipCol), m.nCols - 1, h);
    }
  }

  /** One step of the loops of `minorMatrix`: the element at (row, col) is the minor's
      element (KeptBefore(row), KeptBefore(col)). */
  lemma StepMinor(m: Matrix<real>, skipRow: int, skipCol: int, row: int, col: int)
    requires Valid(m) && m.nCols >= 2
    requires 0 <= skipRow < m.nRows && 0 <= skipCol < m.nCols
    requires 0 <= row < m.nRows && 0 <= col < m.nCols && row != skipRow && col != skipCol
    ensures var idx := Times(KeptBefore(col, skipCol), m.nRows - 1) + KeptBefore(row, skipRow);
            idx < |Concat(MinorColumns(m, skipRow, skipCol))| &&
            Concat(MinorColumns(m, skipRow, skipCol))[idx] == Get(m, row, col)
  {
    var k, i := KeptBefore(col, skipCol), KeptBefore(row, skipRow);
    var cols := MinorColumns(m, skipRow, skipCol);
    ConcatAt(cols, m.nRows - 1, k, i);
    assert cols[k][i] == Get(m, Skipping(i, skipRow), Skipping(k, skipCol));
  }

  // ---------------------------------------------------------------------------
  // Determinant by cofactor expansion
  // ---------------------------------------------------------------------------

  /** Where `determinant(rowNr:)` returns normally: a square matrix, not 1-by-1 (that
      reaches a column-major initialiser with zero columns and traps on `% 0`), and, when
      the expansion loop runs, an in-range expansion row. */
  predicate DetDomain(m: Matrix<real>, rowNr: int) {
    Valid(m) && m.nRows == m.nCols && m.nRows != 1 && (m.nRows >= 3 ==> 0 <= rowNr < m.nRows)
  }

  /** Real multiplication under a name of its own. Cofactor terms are written with it, so
      that proofs relate two such terms through their factors instead of through nonlinear
      arithmetic; the algebra it needs is proved once, on plain variables, in DetTheory. */
  function Mul(a: real, b: real): real {
    a * b
  }

  /** `determinant(rowNr:)`. */
  function Det(m: Matrix<real>, rowNr: int): real
    requires DetDomain(m, rowNr)
    decreases m.nRows, 2
  {
    if m.nRows == 2 then
      Mul(Get(m, 0, 0), Get(m, 1, 1)) - Mul(Get(m, 0, 1), Get(m, 1, 0))
    else if m.nRows == 0 then
      0.0  // the expansion loop runs zero times
    else
      CofactorSum(m, rowNr, m.nCols)
  }

  /** The unsigned cofactor term of the expansion: element (rowNr, col) times the
      determinant of its minor. The expansion loop adds or subtracts it. */
  function Cofactor(m: Matrix<real>, rowNr: int, col: int): real
    requires Valid(m) && m.nRows == m.nCols && m.nRows >= 3
    requires 0 <= rowNr < m.nRows && 0 <= col < m.nCols
    decreases m.nRows, 0, 0
  {
    Mul(Get(m, rowNr, col), Det(Minor(m, rowNr, col), 0))
  }

  /** The determinant accumulated by the expansion loop after columns 0 .. k-1:
      cofactors with (rowNr + col) even are added, the others subtracted. */
  function CofactorSum(m: Matrix<real>, rowNr: int, k: int): real
    requires Valid(m) && m.nRows == m.nCols && m.nRows >= 3
    requires 0 <= rowNr < m.nRows && 0 <= k <= m.nCols
    decreases m.nRows, 1, k
  {
    if k == 0 then 0.0
    else if (rowNr + k - 1) % 2 == 0 then CofactorSum(m, rowNr, k - 1) + Cofactor(m, rowNr, k - 1)
    else CofactorSum(m, rowNr, k - 1) - Cofactor(m, rowNr, k - 1)
  }

  /** One iteration of the expansion loop, for the running sum d and the minor's determinant subDet. */
  lemma CofactorSumStep(m: Matrix<real>, rowNr: int, col: int, d: real, subDet: real)
    requires Valid(m) && m.nRows == m.nCols && m.nRows >= 3
    requires 0 <= rowNr < m.nRows && 0 <= col < m.nCols
    requires d == CofactorSum(m, rowNr, col) && subDet == Det(Minor(m, rowNr, col), 0)
    ensures CofactorSum(m, rowNr, col + 1) ==
              if (rowNr + col) % 2 == 0 then d + Mul(Get(m, rowNr, col), subDet)
              else d - Mul(Get(m, rowNr, col), subDet)
  {
  }

  /** The recursion of `determinant(rowNr:)`, as the Swift code writes it. */
  method ComputeDeterminant(m: Matrix<real>, rowNr: int) returns (d: real)
    requires DetDomain(m, rowNr)
    ensures d == Det(m, rowNr)
    decreases m.nRows, 1
  {
    if m.nRows == 2 {
      return Mul(Get(m, 0, 0), Get(m, 1, 1)) - Mul(Get(m, 0, 1), Get(m, 1, 0));
    }
    if m.nRows == 0 {
      return 0.0;
    }
    d := ExpandAlongRow(m, rowNr);
  }

  /** The expansion loop of `determinant(rowNr:)` over all columns. */
  method ExpandAlongRow(m: Matrix<real>, rowNr: int) returns (d: real)
    requires Valid(m) && m.nRows == m.nCols && m.nRows >= 3 && 0 <= rowNr < m.nRows
    ensures d == CofactorSum(m, rowNr, m.nCols)
    decreases m.nRows, 0, 1
  {
    d := 0.0;
    for col := 0 to m.nCols
      invariant d == CofactorSum(m, rowNr, col)
    {
      d := AddCofactor(m, rowNr, col, d);
    }
  }

  /** One iteration of the expansion loop: the minor, its determinant, and the signed update. */
  method AddCofactor(m: Matrix<real>, rowNr: int, col: int, d: real) returns (next: real)
    requires Valid(m) && m.nRows == m.nCols && m.nRows >= 3
    requires 0 <= rowNr < m.nRows && 0 <= col < m.nCols
    requires d == CofactorSum(m, rowNr, col)
    ensures next == CofactorSum(m, rowNr, col + 1)
    decreases m.nRows, 0, 0
  {
    var subMatrix := ComputeMinor(m, rowNr, col);
    var subDet := ComputeDeterminant(subMatrix, 0);
    CofactorSumStep(m, rowNr, col, d, subDet);
    var term := Mul(Get(m, rowNr, col), subDet);
    if (rowNr + col) % 2 == 0 {
      next := d + term;
    } else {
      next := d - term;
    }
  }

  // ---------------------------------------------------------------------------
  // Column replacement
  // ---------------------------------------------------------------------------

  /** Column col of m, top to bottom. */
  function Column(m: Matrix<real>, col: int): (v: seq<real>)
    requires Valid(m) && 0 <= col < m.nCols
    ensures |v| == m.nRows
    ensures forall i {:trigger v[i]} :: 0 <= i < m.nRows ==> v[i] == Get(m, i, col)
  {
    seq(m.nRows, i requires 0 <= i < m.nRows => Get(m, i, col))
  }

  /** The loop of `setColumn` after rows 0 .. k-1 have been assigned. */
  function SetRowsBelow(m: Matrix<real>, col: int, newValue: seq<real>, k: int): (r: Matrix<real>)
    requires Valid(m) && |newValue| == m.nRows && 0 <= col < m.nCols && 0 <= k <= m.nRows
    ensures Valid(r) && r.nRows == m.nRows && r.nCols == m.nCols
    ensures forall i, j {:trigger Get(r, i, j)} :: 0 <= i < m.nRows && 0 <= j < m.nCols ==>
              Get(r, i, j) == if j == col && i < k then newValue[i] else Get(m, i, j)
    decreases k
  {
    if k == 0 then m
    else Set(SetRowsBelow(m, col, newValue, k - 1), k - 1, col, newValue[k - 1])
  }

  /** `setColumn(col:newValue:)`: column col becomes newValue, everything else stays.
      The Swift loop `0...newValue.count-1` traps on an empty column, hence nRows >= 1. */
  function SetColumn(m: Matrix<real>, col: int, newValue: seq<real>): (r: Matrix<real>)
    requires Valid(m) && |newValue| == m.nRows && m.nRows >= 1 && 0 <= col < m.nCols
    ensures Valid(r) && r.nRows == m.nRows && r.nCols == m.nCols
    ensures forall i, j {:trigger Get(r, i, j)} :: 0 <= i < m.nRows && 0 <= j < m.nCols ==>
              Get(r, i, j) == if j == col then newValue[i] else Get(m, i, j)
  {
    SetRowsBelow(m, col, newValue, |newValue|)
  }

  /** `withColumnReplaced(col:newValue:)`: a copy whose column col is newValue and whose
      other columns are those of m; m itself is a value and is not changed. */
  function WithColumnReplaced(m: Matrix<real>, col: int, newValue: seq<real>): (r: Matrix<real>)
    requires Valid(m) && |newValue| == m.nRows && m.nRows >= 1 && 0 <= col < m.nCols
    ensures Valid(r) && r.nRows == m.nRows && r.nCols == m.nCols
    ensures Column(r, col) == newValue
    ensures forall j {:trigger Column(r, j)} :: 0 <= j < m.nCols && j != col ==> Column(r, j) == Column(m, j)
  {
    var r := SetColumn(m, col, newValue);
    assert Column(r, col) == newValue;
    r
  }

  // ---------------------------------------------------------------------------
  // Cramer's rule
  // ---------------------------------------------------------------------------

  /** Where `solveWithCramer(b:)` is modelled: a square system the determinant is defined
      for, a right-hand side of matching length, and a nonzero determinant (exact division). */
  predicate SolvableSystem(a: Matrix<real>, b: seq<real>) {
    DetDomain(a, 0) && a.nRows >= 2 && |b| == a.nRows && Det(a, 0) != 0.0
  }

  /** x[i] = det(A with column i replaced by b) / det(A). */
  function CramerSolution(a: Matrix<real>, b: seq<real>): (x: seq<real>)
    requires SolvableSystem(a, b)
    ensures |x| == a.nCols
  {
    seq(a.nCols, i requires 0 <= i < a.nCols => Det(WithColumnReplaced(a, i, b), 0) / Det(a, 0))
  }

  /** The loop of `solveWithCramer(b:)`, as the Swift code writes it. */
  method SolveWithCramer(a: Matrix<real>, b: seq<real>) returns (x: seq<real>)
    requires SolvableSystem(a, b)
    ensures x == CramerSolution(a, b)
  {
    x := [];
    var detA := ComputeDeterminant(a, 0);
    for i := 0 to a.nCols
      invariant x == CramerSolution(a, b)[..i]
    {
      var ai := WithColumnReplaced(a, i, b);
      var detAi := ComputeDeterminant(ai, 0);
      x := x + [detAi / detA];
    }
  }
}
