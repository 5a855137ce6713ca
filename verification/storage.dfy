/** Dense matrices stored as one flat sequence in column-major order
    (linalg/Sources/Matrix.swift): the five initialisers, the linear and
    two-dimensional subscripts, and the two index maps. */
module Storage {

  /** A matrix value: `elements` holds column 0 top to bottom, then column 1, ... */
  datatype Matrix<T> = Matrix(elements: seq<T>, nRows: nat, nCols: nat)

  /** The representation invariant every initialiser establishes: nCols columns of nRows
      elements each, that is nRows * nCols elements (see TimesIsProduct). */
  predicate Valid<T>(m: Matrix<T>) {
    |m.elements| == Times(m.nCols, m.nRows)
  }

  // ---------------------------------------------------------------------------
  // Block arithmetic: k blocks of len elements
  // ---------------------------------------------------------------------------

  /** The size of k blocks of len elements, by repeated addition. Sizes and offsets are
      written with it, which keeps the arithmetic about them linear; TimesIsProduct says
      it is the product k * len. */
  function Times(k: nat, len: nat): nat {
    if k == 0 then 0 else Times(k - 1, len) + len
  }

  lemma {:induction false} TimesIsProduct(k: nat, len: nat)
    ensures Times(k, len) == k * len
  {
    if k > 0 {
      TimesIsProduct(k - 1, len);
    }
  }

  lemma TimesCommutes(a: nat, b: nat)
    ensures Times(a, b) == Times(b, a)
  {
    TimesIsProduct(a, b);
    TimesIsProduct(b, a);
  }

  lemma {:induction false} TimesOne(k: nat)
    ensures Times(k, 1) == k
  {
    if k > 0 {
      TimesOne(k - 1);
    }
  }

  lemma {:induction false} TimesMonotone(a: nat, b: nat, len: nat)
    requires a <= b
    ensures Times(a, len) <= Times(b, len)
  {
    if a < b {
      TimesMonotone(a, b - 1, len);
    }
  }

  /** Offset i of block k, for k < n, lies inside the first n blocks. */
  lemma BlockOffsetInRange(n: nat, len: nat, k: nat, i: nat)
    requires k < n && i < len
    ensures Times(k, len) + i < Times(n, len)
  {
    TimesMonotone(k + 1, n, len);
  }

  /** A position determines its block and its offset inside the block. */
  lemma BlockOffsetUnique(len: nat, k1: nat, i1: nat, k2: nat, i2: nat)
    requires i1 < len && i2 < len
    ensures Times(k1, len) + i1 == Times(k2, len) + i2 <==> k1 == k2 && i1 == i2
  {
    if k1 < k2 {
      TimesMonotone(k1 + 1, k2, len);
    } else if k2 < k1 {
      TimesMonotone(k2 + 1, k1, len);
    }
  }

  /** Every position inside n blocks is an offset inside one of them. */
  lemma {:induction false} BlockOf(n: nat, len: nat, idx: nat) returns (k: nat, i: nat)
    requires idx < Times(n, len)
    ensures k < n && i < len && idx == Times(k, len) + i
  {
    if idx < Times(n - 1, len) {
      k, i := BlockOf(n - 1, len, idx);
    } else {
      k, i := n - 1, idx - Times(n - 1, len);
    }
  }

  /** Quotient and remainder are determined by any decomposition x == q*d + r with 0 <= r < d. */
  lemma DivModUnique(x: nat, d: nat, q: nat, r: nat)
    requires 0 < d && r < d && x == q * d + r
    ensures x / d == q && x % d == r
  {
    TimesIsProduct(q, d);
    TimesIsProduct(x / d, d);
    BlockOffsetUnique(d, q, r, x / d, x % d);
  }

  /** A count divisible by d > 0 is d blocks of count / d elements, and count / d blocks of d. */
  lemma ExactDivision(count: nat, d: nat)
    requires d > 0 && count % d == 0
    ensures Times(d, count / d) == count && Times(count / d, d) == count
  {
    TimesIsProduct(d, count / d);
    TimesIsProduct(count / d, d);
  }

  /** k > 0 blocks of len elements divide by k exactly, giving len. */
  lemma BlocksDivide(k: nat, len: nat)
    requires k > 0
    ensures Times(k, len) % k == 0 && Times(k, len) / k == len
  {
    TimesIsProduct(k, len);
    DivModUnique(Times(k, len), k, len, 0);
  }

  // ---------------------------------------------------------------------------
  // Index maps (rowColToColMajorIdx, rowColToRowMajorIdx)
  // ---------------------------------------------------------------------------

  /** `rowColToColMajorIdx`: offset row inside column block col. */
  function ColMajorIndex(nRows: nat, nCols: nat, row: int, col: int): (idx: nat)
    requires 0 <= row < nRows && 0 <= col < nCols
    ensures idx < Times(nCols, nRows)
  {
    BlockOffsetInRange(nCols, nRows, col, row);
    Times(col, nRows) + row
  }

  /** `rowColToRowMajorIdx`: offset col inside row block row. */
  function RowMajorIndex(nRows: nat, nCols: nat, row: int, col: int): (idx: nat)
    requires 0 <= row < nRows && 0 <= col < nCols
    ensures idx < Times(nRows, nCols)
  {
    BlockOffsetInRange(nRows, nCols, row, col);
    Times(row, nCols) + col
  }

  /** The two index maps are the Swift formulas col * nRows + row and row * nCols + col. */
  lemma IndexFormulas(nRows: nat, nCols: nat, row: int, col: int)
    requires 0 <= row < nRows && 0 <= col < nCols
    ensures ColMajorIndex(nRows, nCols, row, col) == col * nRows + row
    ensures RowMajorIndex(nRows, nCols, row, col) == row * nCols + col
  {
    TimesIsProduct(col, nRows);
    TimesIsProduct(row, nCols);
  }

  /** Distinct cells occupy distinct storage slots. */
  lemma ColMajorIndexInjective(nRows: nat, nCols: nat, r1: int, c1: int, r2: int, c2: int)
    requires 0 <= r1 < nRows && 0 <= c1 < nCols
    requires 0 <= r2 < nRows && 0 <= c2 < nCols
    ensures ColMajorIndex(nRows, nCols, r1, c1) == ColMajorIndex(nRows, nCols, r2, c2)
            <==> r1 == r2 && c1 == c2
  {
    BlockOffsetUnique(nRows, c1, r1, c2, r2);
  }

  /** Every storage slot is the column-major position of an in-range cell: the one at
      row idx % nRows and column idx / nRows. */
  lemma ColMajorIndexSurjective(nRows: nat, nCols: nat, idx: int)
    requires 0 <= idx < Times(nCols, nRows)
    ensures nRows > 0
    ensures 0 <= idx % nRows < nRows && 0 <= idx / nRows < nCols
    ensures ColMajorIndex(nRows, nCols, idx % nRows, idx / nRows) == idx
  {
    var col, row := BlockOf(nCols, nRows, idx);
    TimesIsProduct(col, nRows);
    DivModUnique(idx, nRows, col, row);
  }

  /** Distinct cells occupy distinct row-major positions too. */
  lemma RowMajorIndexInjective(nRows: nat, nCols: nat, r1: int, c1: int, r2: int, c2: int)
    requires 0 <= r1 < nRows && 0 <= c1 < nCols
    requires 0 <= r2 < nRows && 0 <= c2 < nCols
    ensures RowMajorIndex(nRows, nCols, r1, c1) == RowMajorIndex(nRows, nCols, r2, c2)
            <==> r1 == r2 && c1 == c2
  {
    BlockOffsetUnique(nCols, r1, c1, r2, c2);
  }

  // ---------------------------------------------------------------------------
  // Subscripts
  // ---------------------------------------------------------------------------

  /** `self[row, col]` (getter). */
  function Get<T>(m: Matrix<T>, row: int, col: int): T
    requires Valid(m)
    requires 0 <= row < m.nRows && 0 <= col < m.nCols
  {
    m.elements[ColMajorIndex(m.nRows, m.nCols, row, col)]
  }

  /** `self[idx]` (getter): the idx-th element in column-major order. */
  function At<T>(m: Matrix<T>, idx: int): T
    requires 0 <= idx < |m.elements|
  {
    m.elements[idx]
  }

  /** `self[idx] = v`: only slot idx changes. */
  function SetAt<T>(m: Matrix<T>, idx: int, v: T): (r: Matrix<T>)
    requires 0 <= idx < |m.elements|
    ensures r.nRows == m.nRows && r.nCols == m.nCols
    ensures Valid(m) ==> Valid(r)
    ensures |r.elements| == |m.elements| && At(r, idx) == v
    ensures forall j {:trigger At(r, j)} :: 0 <= j < |m.elements| && j != idx ==> At(r, j) == At(m, j)
  {
    m.(elements := m.elements[idx := v])
  }

  /** `self[row, col] = v`: cell (row, col) becomes v, every other cell and the shape are unchanged. */
  function Set<T>(m: Matrix<T>, row: int, col: int, v: T): (r: Matrix<T>)
    requires Valid(m)
    requires 0 <= row < m.nRows && 0 <= col < m.nCols
    ensures Valid(r) && r.nRows == m.nRows && r.nCols == m.nCols
    ensures forall i, j {:trigger Get(r, i, j)} :: 0 <= i < m.nRows && 0 <= j < m.nCols ==>
              Get(r, i, j) == if i == row && j == col then v else Get(m, i, j)
  {
    var r := m.(elements := m.elements[ColMajorIndex(m.nRows, m.nCols, row, col) := v]);
    forall i, j | 0 <= i < m.nRows && 0 <= j < m.nCols
      ensures Get(r, i, j) == if i == row && j == col then v else Get(m, i, j)
    {
      ColMajorIndexInjective(m.nRows, m.nCols, i, j, row, col);
    }
    r
  }

  /** The linear subscript walks the grid down column 0 first, then column 1, ... */
  lemma LinearAndGridSubscriptsAgree<T>(m: Matrix<T>, idx: int)
    requires Valid(m) && 0 <= idx < |m.elements|
    ensures m.nRows > 0
    ensures 0 <= idx % m.nRows < m.nRows && 0 <= idx / m.nRows < m.nCols
    ensures At(m, idx) == Get(m, idx % m.nRows, idx / m.nRows)
  {
    ColMajorIndexSurjective(m.nRows, m.nCols, idx);
  }

  /** Two valid matrices of one shape that agree on every cell are the same matrix. */
  lemma Extensionality<T>(a: Matrix<T>, b: Matrix<T>)
    requires Valid(a) && Valid(b) && a.nRows == b.nRows && a.nCols == b.nCols
    requires forall i, j :: 0 <= i < a.nRows && 0 <= j < a.nCols ==> Get(a, i, j) == Get(b, i, j)
    ensures a == b
  {
    forall idx | 0 <= idx < |a.elements|
      ensures a.elements[idx] == b.elements[idx]
    {
      var col, row := BlockOf(a.nCols, a.nRows, idx);
      assert Get(a, row, col) == Get(b, row, col);
    }
  }

  // ---------------------------------------------------------------------------
  // Initialisers
  // ---------------------------------------------------------------------------

  /** `init(columnVector:)`: an n-by-1 matrix; an empty input gives a 0-by-1 matrix. */
  function FromColumnVector<T>(values: seq<T>): (m: Matrix<T>)
    ensures Valid(m) && m.nRows == |values| && m.nCols == 1
    ensures forall i {:trigger Get(m, i, 0)} :: 0 <= i < |values| ==> Get(m, i, 0) == values[i]
  {
    Matrix(values, |values|, 1)
  }

  /** All rows have the length of the first one. */
  predicate SameLengths<T>(s: seq<seq<T>>) {
    forall i :: 0 <= i < |s| ==> |s[i]| == |s[0]|
  }

  /** The blocks of s one after the other: what `append(contentsOf:)` in a loop builds. */
  function Concat<T>(s: seq<seq<T>>): seq<T> {
    if |s| == 0 then [] else Concat(s[..|s| - 1]) + s[|s| - 1]
  }

  lemma {:induction false} ConcatLength<T>(s: seq<seq<T>>, len: nat)
    requires forall k :: 0 <= k < |s| ==> |s[k]| == len
    ensures |Concat(s)| == Times(|s|, len)
  {
    if |s| > 0 {
      ConcatLength(s[..|s| - 1], len);
    }
  }

  /** Offset i of block k of the concatenation is element i of s[k]. */
  lemma {:induction false} ConcatAt<T>(s: seq<seq<T>>, len: nat, k: nat, i: nat)
    requires forall j :: 0 <= j < |s| ==> |s[j]| == len
    requires k < |s| && i < len
    ensures Times(k, len) + i < |Concat(s)|
    ensures Concat(s)[Times(k, len) + i] == s[k][i]
  {
    ConcatLength(s, len);
    BlockOffsetInRange(|s|, len, k, i);
    var last := |s| - 1;
    ConcatLength(s[..last], len);
    if k < last {
      ConcatAt(s[..last], len, k, i);
    }
  }

  /** A single block is its own concatenation. */
  lemma ConcatSingle<T>(s: seq<seq<T>>)
    ensures |s| == 1 ==> Concat(s) == s[0]
  {
    if |s| == 1 {
      assert Concat(s) == Concat(s[..0]) + s[0];
      assert Concat(s[..0]) == [];
    }
  }

  /** A prefix one longer is the prefix followed by the next element. */
  lemma PrefixExtend<T>(s: seq<T>, n: nat)
    requires n < |s|
    ensures s[..n + 1] == s[..n] + [s[n]]
  {
  }

  /** The columns of a rectangular sequence of rows. */
  function Transpose<T>(rows: seq<seq<T>>): (cols: seq<seq<T>>)
    requires |rows| > 0 && SameLengths(rows)
    ensures |cols| == |rows[0]|
    ensures forall c :: 0 <= c < |cols| ==> |cols[c]| == |rows|
    ensures forall c, r {:trigger cols[c][r]} :: 0 <= c < |cols| && 0 <= r < |rows| ==> cols[c][r] == rows[r][c]
  {
    seq(|rows[0]|, c requires 0 <= c < |rows[0]| => seq(|rows|, r requires 0 <= r < |rows| => rows[r][c]))
  }

  /** `init(rows:)`: a single row is taken as it is; otherwise the loops append rows[row][col]
      with col outer and row inner, that is the concatenated columns. Cell (r, c) is rows[r][c]. */
  function FromRows<T>(rows: seq<seq<T>>): (m: Matrix<T>)
    requires |rows| > 0 && |rows[0]| > 0
    requires SameLengths(rows)
    ensures Valid(m) && m.nRows == |rows| && m.nCols == |rows[0]|
    ensures forall r, c {:trigger Get(m, r, c)} :: 0 <= r < m.nRows && 0 <= c < m.nCols ==> Get(m, r, c) == rows[r][c]
  {
    var nRows, nCols := |rows|, |rows[0]|;
    var m := if nRows == 1 then Matrix(rows[0], 1, nCols)
             else Matrix(Concat(Transpose(rows)), nRows, nCols);
    TimesOne(nCols);
    ConcatLength(Transpose(rows), nRows);
    forall r, c | 0 <= r < nRows && 0 <= c < nCols
      ensures Get(m, r, c) == rows[r][c]
    {
      ConcatAt(Transpose(rows), nRows, c, r);
      TimesOne(c);
    }
    m
  }

  /** `init(columns:)`: the columns are stored one after the other. */
  function FromColumns<T>(columns: seq<seq<T>>): (m: Matrix<T>)
    requires |columns| > 0 && |columns[0]| > 0
    requires SameLengths(columns)
    ensures m.nRows == |columns[0]| && m.nCols == |columns|
    ensures Valid(m)
    ensures m.elements == Concat(columns)
  {
    var nRows := |columns[0]|;
    ConcatLength(columns, nRows);
    ConcatSingle(columns);
    if |columns| == 1 then Matrix(columns[0], nRows, 1)
    else Matrix(Concat(columns), nRows, |columns|)
  }

  /** Cell (r, c) of `init(columns:)` is columns[c][r]. */
  lemma FromColumnsCells<T>(columns: seq<seq<T>>)
    requires |columns| > 0 && |columns[0]| > 0
    requires SameLengths(columns)
    ensures forall r, c {:trigger Get(FromColumns(columns), r, c)} :: 0 <= r < |columns[0]| && 0 <= c < |columns| ==>
              Get(FromColumns(columns), r, c) == columns[c][r]
  {
    var m := FromColumns(columns);
    forall r, c | 0 <= r < |columns[0]| && 0 <= c < |columns|
      ensures Get(m, r, c) == columns[c][r]
    {
      ConcatAt(columns, |columns[0]|, c, r);
    }
  }

  /** `init(elementsColMajor:numCols:)`: the input is kept as it is and nRows = count / numCols.
      A non-positive column count is excluded; README.md's findings say what the Swift guard
      admits instead. */
  function FromColumnMajor<T>(elems: seq<T>, numCols: int): (m: Matrix<T>)
    requires numCols > 0 && |elems| % numCols == 0
    ensures Valid(m) && m.nCols == numCols && m.nRows == |elems| / numCols
    ensures m.elements == elems
  {
    ExactDivision(|elems|, numCols);
    Matrix(elems, |elems| / numCols, numCols)
  }

  /** Column c of the matrix whose row-major elements are elems. */
  function RowMajorColumn<T>(elems: seq<T>, nRows: nat, nCols: nat, c: int): (col: seq<T>)
    requires |elems| == Times(nRows, nCols) && 0 <= c < nCols
    ensures |col| == nRows
    ensures forall r {:trigger col[r]} :: 0 <= r < nRows ==> col[r] == elems[RowMajorIndex(nRows, nCols, r, c)]
  {
    seq(nRows, r requires 0 <= r < nRows => elems[RowMajorIndex(nRows, nCols, r, c)])
  }

  /** The columns of the matrix whose row-major elements are elems. */
  function RowMajorColumns<T>(elems: seq<T>, nRows: nat, nCols: nat): (cols: seq<seq<T>>)
    requires |elems| == Times(nRows, nCols)
    ensures |cols| == nCols
    ensures forall c {:trigger cols[c]} :: 0 <= c < nCols ==> cols[c] == RowMajorColumn(elems, nRows, nCols, c)
  {
    seq(nCols, c requires 0 <= c < nCols => RowMajorColumn(elems, nRows, nCols, c))
  }

  /** `init(elementsRowMajor:numRows:)`: nCols = count / numRows, and the loops append the
      input's element rowColToRowMajorIdx(row, col) with col outer and row inner. Cell (r, c)
      is the input's element r*nCols + c. */
  function FromRowMajor<T>(elems: seq<T>, numRows: int): (m: Matrix<T>)
    requires numRows > 0 && |elems| % numRows == 0
    ensures Valid(m) && m.nRows == numRows && m.nCols == |elems| / numRows
    ensures |elems| == Times(m.nRows, m.nCols)
    ensures forall r, c {:trigger Get(m, r, c)} :: 0 <= r < m.nRows && 0 <= c < m.nCols ==>
              Get(m, r, c) == elems[RowMajorIndex(m.nRows, m.nCols, r, c)]
  {
    var nRows, nCols := numRows, |elems| / numRows;
    ExactDivision(|elems|, numRows);
    RowMajorColumnsCells(elems, nRows, nCols);
    Matrix(Concat(RowMajorColumns(elems, nRows, nCols)), nRows, nCols)
  }

  /** The columns of a row-major sequence, laid end to end, form a valid matrix holding the
      sequence's element (r, c) at (r, c). */
  lemma RowMajorColumnsCells<T>(elems: seq<T>, nRows: nat, nCols: nat)
    requires |elems| == Times(nRows, nCols)
    ensures var m := Matrix(Concat(RowMajorColumns(elems, nRows, nCols)), nRows, nCols);
      Valid(m) &&
      forall r, c {:trigger Get(m, r, c)} :: 0 <= r < nRows && 0 <= c < nCols ==>
        Get(m, r, c) == elems[RowMajorIndex(nRows, nCols, r, c)]
  {
    var cols := RowMajorColumns(elems, nRows, nCols);
    ConcatLength(cols, nRows);
    var m := Matrix(Concat(cols), nRows, nCols);
    forall r, c | 0 <= r < nRows && 0 <= c < nCols
      ensures Get(m, r, c) == elems[RowMajorIndex(nRows, nCols, r, c)]
    {
      ConcatAt(cols, nRows, c, r);
    }
  }

  /** The nested loop of `init(elementsRowMajor:numRows:)`, as the Swift code writes it. */
  method InitRowMajor<T>(elems: seq<T>, numRows: int) returns (m: Matrix<T>)
    requires numRows > 0 && |elems| % numRows == 0
    ensures m == FromRowMajor(elems, numRows)
  {
    var nRows, nCols := numRows, |elems| / numRows;
    ExactDivision(|elems|, numRows);
    var out := ReorderRowMajor(elems, nRows, nCols);
    m := Matrix(out, nRows, nCols);
  }

  /** The loops of `init(elementsRowMajor:numRows:)`: columns outer, rows inner, each step
      appending the input's element at rowColToRowMajorIdx(row, col). */
  method ReorderRowMajor<T>(elems: seq<T>, nRows: nat, nCols: nat) returns (out: seq<T>)
    requires |elems| == Times(nRows, nCols)
    ensures out == Concat(RowMajorColumns(elems, nRows, nCols))
  {
    out := [];
    ghost var cols := RowMajorColumns(elems, nRows, nCols);
    ghost var spec := Concat(cols);
    ConcatLength(cols, nRows);
    for col := 0 to nCols
      invariant |out| == Times(col, nRows) <= |spec|
      invariant out == spec[..|out|]
    {
      for row := 0 to nRows
        invariant |out| == Times(col, nRows) + row <= |spec|
        invariant out == spec[..|out|]
      {
        var idx := RowMajorIndex(nRows, nCols, row, col);
        ConcatAt(cols, nRows, col, row);
        out := out + [elems[idx]];
      }
      TimesMonotone(col + 1, nCols, nRows);
    }
  }

  // ---------------------------------------------------------------------------
  // How the initialisers relate to each other
  // ---------------------------------------------------------------------------

  /** Row r of m, left to right. */
  function Row<T>(m: Matrix<T>, r: int): (row: seq<T>)
    requires Valid(m) && 0 <= r < m.nRows
    ensures |row| == m.nCols
    ensures forall c {:trigger row[c]} :: 0 <= c < m.nCols ==> row[c] == Get(m, r, c)
  {
    seq(m.nCols, c requires 0 <= c < m.nCols => Get(m, r, c))
  }

  /** The elements read back in row-major order: the rows one after the other. */
  function ToRowMajor<T>(m: Matrix<T>): (e: seq<T>)
    requires Valid(m)
    ensures |e| == Times(m.nRows, m.nCols)
    ensures forall r, c {:trigger e[RowMajorIndex(m.nRows, m.nCols, r, c)]} :: 0 <= r < m.nRows && 0 <= c < m.nCols ==>
              e[RowMajorIndex(m.nRows, m.nCols, r, c)] == Get(m, r, c)
  {
    var rows := seq(m.nRows, r requires 0 <= r < m.nRows => Row(m, r));
    ConcatLength(rows, m.nCols);
    forall r, c | 0 <= r < m.nRows && 0 <= c < m.nCols
      ensures Concat(rows)[RowMajorIndex(m.nRows, m.nCols, r, c)] == Get(m, r, c)
    {
      ConcatAt(rows, m.nCols, r, c);
    }
    Concat(rows)
  }

  /** Reading back a row-major-initialised matrix in row-major order gives the input. */
  lemma RowMajorRoundTrip<T>(elems: seq<T>, numRows: int)
    requires numRows > 0 && |elems| % numRows == 0
    ensures ToRowMajor(FromRowMajor(elems, numRows)) == elems
  {
    var m := FromRowMajor(elems, numRows);
    var e := ToRowMajor(m);
    forall idx | 0 <= idx < |elems|
      ensures e[idx] == elems[idx]
    {
      var r, c := BlockOf(m.nRows, m.nCols, idx);
      assert RowMajorIndex(m.nRows, m.nCols, r, c) == idx;
    }
  }

  /** Re-initialising from a matrix's row-major read-out gives the matrix back. */
  lemma RowMajorRoundTripBack<T>(m: Matrix<T>)
    requires Valid(m) && m.nRows > 0
    ensures |ToRowMajor(m)| % m.nRows == 0
    ensures FromRowMajor(ToRowMajor(m), m.nRows) == m
  {
    BlocksDivide(m.nRows, m.nCols);
    Extensionality(FromRowMajor(ToRowMajor(m), m.nRows), m);
  }

  /** Row r of a row-major sequence of nRows rows, each nCols long. */
  function Chunk<T>(elems: seq<T>, nRows: nat, nCols: nat, r: int): (row: seq<T>)
    requires |elems| == Times(nRows, nCols) && 0 <= r < nRows
    ensures |row| == nCols
    ensures forall c {:trigger row[c]} :: 0 <= c < nCols ==> row[c] == elems[RowMajorIndex(nRows, nCols, r, c)]
  {
    TimesMonotone(r + 1, nRows, nCols);
    elems[Times(r, nCols) .. Times(r, nCols) + nCols]
  }

  /** The rows of a row-major sequence of nRows rows, each nCols long. */
  function Chunks<T>(elems: seq<T>, nRows: nat, nCols: nat): (rows: seq<seq<T>>)
    requires |elems| == Times(nRows, nCols)
    ensures |rows| == nRows
    ensures forall r {:trigger rows[r]} :: 0 <= r < nRows ==> rows[r] == Chunk(elems, nRows, nCols, r)
  {
    seq(nRows, r requires 0 <= r < nRows => Chunk(elems, nRows, nCols, r))
  }

  /** `init(elementsRowMajor:numRows:)` builds the same matrix as `init(rows:)` on the rows of the input. */
  lemma RowMajorMatchesRows<T>(elems: seq<T>, numRows: int)
    requires numRows > 0 && |elems| > 0 && |elems| % numRows == 0
    ensures var nCols := |elems| / numRows;
            nCols > 0 && |elems| == Times(numRows, nCols) &&
            var rows := Chunks(elems, numRows, nCols);
            |rows[0]| > 0 && SameLengths(rows) &&
            FromRowMajor(elems, numRows) == FromRows(rows)
  {
    var nCols := |elems| / numRows;
    ExactDivision(|elems|, numRows);
    var rows := Chunks(elems, numRows, nCols);
    Extensionality(FromRowMajor(elems, numRows), FromRows(rows));
  }

  /** `init(rows:)` and `init(columns:)` agree on transposed input. */
  lemma RowsAreTransposedColumns<T>(rows: seq<seq<T>>)
    requires |rows| > 0 && |rows[0]| > 0 && SameLengths(rows)
    ensures |Transpose(rows)| > 0 && |Transpose(rows)[0]| > 0 && SameLengths(Transpose(rows))
    ensures FromRows(rows) == FromColumns(Transpose(rows))
  {
    var cols := Transpose(rows);
    FromColumnsCells(cols);
    Extensionality(FromRows(rows), FromColumns(cols));
  }

  /** `init(columns:)` equals `init(elementsColMajor:numCols:)` on the concatenated columns. */
  lemma ColumnsMatchColumnMajor<T>(columns: seq<seq<T>>)
    requires |columns| > 0 && |columns[0]| > 0 && SameLengths(columns)
    ensures |Concat(columns)| % |columns| == 0
    ensures FromColumns(columns) == FromColumnMajor(Concat(columns), |columns|)
  {
    ConcatLength(columns, |columns[0]|);
    BlocksDivide(|columns|, |columns[0]|);
  }
}
