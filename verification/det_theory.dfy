/** What makes Cramer's rule work for the cofactor expansion of `determinant()` along
    row 0 (linalg/Sources/Matrix+Cramer.swift): swapping two adjacent columns negates the
    determinant, two equal columns make it zero, and it is linear in each column. From
    these, `solveWithCramer` returns x whenever the right-hand side is A*x. */
module DetTheory {
  import opened Storage
  import opened Cramer

  // ---------------------------------------------------------------------------
  // Algebra of Mul, on plain variables
  // ---------------------------------------------------------------------------

  lemma MulNegRight(a: real, x: real)
    ensures Mul(a, -x) == -Mul(a, x)
  {
  }

  lemma MulAddRight(a: real, x: real, y: real)
    ensures Mul(a, x + y) == Mul(a, x) + Mul(a, y)
  {
  }

  lemma MulCommutes(a: real, b: real)
    ensures Mul(a, b) == Mul(b, a)
  {
  }

  lemma MulZeroRight(a: real)
    ensures Mul(a, 0.0) == 0.0
  {
  }

  lemma MulOneLeft(x: real)
    ensures Mul(1.0, x) == x
  {
  }

  lemma MulDivCancel(x: real, d: real)
    requires d != 0.0
    ensures Mul(x, d) / d == x
  {
  }

  // ---------------------------------------------------------------------------
  // The expansion along row 0 as a total of signed terms
  // ---------------------------------------------------------------------------

  /** A square matrix of size at least 2: `determinant()` returns normally for it. */
  predicate Square(m: Matrix<real>) {
    Valid(m) && m.nRows == m.nCols && m.nRows >= 2
  }

  /** A square matrix of size at least 3, where `determinant()` runs the expansion loop. */
  predicate Expanding(m: Matrix<real>) {
    Square(m) && m.nRows >= 3
  }

  /** The term the expansion loop adds for column c: the cofactor, negated for odd c. */
  function Signed(m: Matrix<real>, c: int): real
    requires Expanding(m) && 0 <= c < m.nCols
  {
    if c % 2 == 0 then Cofactor(m, 0, c) else -Cofactor(m, 0, c)
  }

  /** The signed terms of the expansion along row 0, one per column. */
  function Terms(m: Matrix<real>): (t: seq<real>)
    requires Expanding(m)
    ensures |t| == m.nCols
    ensures forall c {:trigger t[c]} :: 0 <= c < m.nCols ==> t[c] == Signed(m, c)
  {
    seq(m.nCols, c requires 0 <= c < m.nCols => Signed(m, c))
  }

  /** The sum of the first k entries of t. */
  function Total(t: seq<real>, k: int): real
    requires 0 <= k <= |t|
  {
    if k == 0 then 0.0 else Total(t, k - 1) + t[k - 1]
  }

  /** One iteration of the expansion loop adds the next signed term. */
  lemma TermStep(m: Matrix<real>, k: int)
    requires Expanding(m) && 0 <= k < m.nCols
    ensures CofactorSum(m, 0, k + 1) == CofactorSum(m, 0, k) + Terms(m)[k]
  {
  }

  lemma SumIsTotal(m: Matrix<real>, k: int)
    requires Expanding(m) && 0 <= k <= m.nCols
    ensures CofactorSum(m, 0, k) == Total(Terms(m), k)
  {
    var t := Terms(m);
    var j := 0;
    while j < k
      invariant 0 <= j <= k && CofactorSum(m, 0, j) == Total(t, j)
    {
      TermStep(m, j);
      j := j + 1;
    }
  }

  /** Where the loop runs, the determinant is the total of the signed terms. */
  lemma DetIsTotal(m: Matrix<real>)
    requires Expanding(m)
    ensures Det(m, 0) == Total(Terms(m), m.nCols)
  {
    SumIsTotal(m, m.nCols);
  }

  /** If u's entries on [lo, hi) are t's negated, the negation of the running total carries over. */
  lemma {:induction false} NegatedRange(t: seq<real>, u: seq<real>, lo: int, hi: int)
    requires |t| == |u| && 0 <= lo <= hi <= |t|
    requires Total(u, lo) == -Total(t, lo)
    requires forall c {:trigger u[c]} :: lo <= c < hi ==> u[c] == -t[c]
    ensures Total(u, hi) == -Total(t, hi)
    decreases hi - lo
  {
    if lo < hi {
      NegatedRange(t, u, lo, hi - 1);
    }
  }

  /** u is t with entries k and k + 1 exchanged and every entry negated: its total is t's negated. */
  lemma SwappedTotal(t: seq<real>, u: seq<real>, k: int)
    requires |t| == |u| && 0 <= k && k + 1 < |t|
    requires u[k] == -t[k + 1] && u[k + 1] == -t[k]
    requires forall c {:trigger u[c]} :: 0 <= c < |t| && c != k && c != k + 1 ==> u[c] == -t[c]
    ensures Total(u, |u|) == -Total(t, |t|)
  {
    NegatedRange(t, u, 0, k);
    assert Total(u, k + 2) == -Total(t, k + 2);
    NegatedRange(t, u, k + 2, |t|);
  }

  /** If every entry of w is u's entry plus s times v's, so is the total. */
  lemma {:induction false} CombinedTotal(u: seq<real>, v: seq<real>, w: seq<real>, s: real, k: int)
    requires |u| == |v| == |w| && 0 <= k <= |u|
    requires forall c {:trigger w[c]} :: 0 <= c < |u| ==> w[c] == u[c] + Mul(s, v[c])
    ensures Total(w, k) == Total(u, k) + Mul(s, Total(v, k))
  {
    if k == 0 {
      MulZeroRight(s);
    } else {
      CombinedTotal(u, v, w, s, k - 1);
      MulAddRight(s, Total(v, k - 1), v[k - 1]);
    }
  }

  // ---------------------------------------------------------------------------
  // Swapping two adjacent columns
  // ---------------------------------------------------------------------------

  /** Where column j of a matrix with columns k and k + 1 exchanged comes from. */
  function SwapIndex(j: int, k: int): int {
    if j == k then k + 1 else if j == k + 1 then k else j
  }

  /** b is a with columns k and k + 1 exchanged. */
  predicate ColumnsSwapped(a: Matrix<real>, b: Matrix<real>, k: int) {
    Valid(a) && Valid(b) && a.nRows == b.nRows && a.nCols == b.nCols && 0 <= k && k + 1 < a.nCols &&
    forall i, j {:trigger Get(b, i, j)} :: 0 <= i < a.nRows && 0 <= j < a.nCols ==>
      Get(b, i, j) == Get(a, i, SwapIndex(j, k))
  }

  /** m with columns k and k + 1 exchanged, by two `setColumn` calls. */
  function SwapAdjacent(m: Matrix<real>, k: int): (r: Matrix<real>)
    requires Valid(m) && m.nRows >= 1 && 0 <= k && k + 1 < m.nCols
    ensures ColumnsSwapped(m, r, k)
  {
    SetColumn(SetColumn(m, k, Column(m, k + 1)), k + 1, Column(m, k))
  }

  /** Away from the swapped pair, the minors are swapped too, at the shifted index. */
  lemma MinorSwappedOutside(a: Matrix<real>, b: Matrix<real>, k: int, c: int)
    requires Expanding(a) && ColumnsSwapped(a, b, k)
    requires 0 <= c < a.nCols && c != k && c != k + 1
    ensures ColumnsSwapped(Minor(a, 0, c), Minor(b, 0, c), if c < k then k - 1 else k)
  {
    var k' := if c < k then k - 1 else k;
    var ma, mb := Minor(a, 0, c), Minor(b, 0, c);
    forall i, j | 0 <= i < ma.nRows && 0 <= j < ma.nCols
      ensures Get(mb, i, j) == Get(ma, i, SwapIndex(j, k'))
    {
      assert SwapIndex(Skipping(j, c), k) == Skipping(SwapIndex(j, k'), c);
    }
  }

  /** At the swapped pair, the minors trade places: column c of b is column c' of a. */
  lemma MinorSwappedAt(a: Matrix<real>, b: Matrix<real>, k: int, c: int, c': int)
    requires Expanding(a) && ColumnsSwapped(a, b, k)
    requires (c == k && c' == k + 1) || (c == k + 1 && c' == k)
    ensures Minor(b, 0, c) == Minor(a, 0, c')
  {
    var mb, ma := Minor(b, 0, c), Minor(a, 0, c');
    forall i, j | 0 <= i < ma.nRows && 0 <= j < ma.nCols
      ensures Get(mb, i, j) == Get(ma, i, j)
    {
      assert SwapIndex(Skipping(j, c), k) == Skipping(j, c');
    }
    Extensionality(mb, ma);
  }

  /** Away from the swapped pair, each term of b is a's negated. */
  lemma SwapTermOutside(a: Matrix<real>, b: Matrix<real>, k: int, c: int)
    requires Expanding(a) && ColumnsSwapped(a, b, k)
    requires 0 <= c < a.nCols && c != k && c != k + 1
    ensures Expanding(b) && Signed(b, c) == -Signed(a, c)
    decreases a.nRows, 0
  {
    var k' := if c < k then k - 1 else k;
    MinorSwappedOutside(a, b, k, c);
    SwapNegates(Minor(a, 0, c), Minor(b, 0, c), k');
    assert Get(b, 0, c) == Get(a, 0, c);
    MulNegRight(Get(a, 0, c), Det(Minor(a, 0, c), 0));
  }

  /** At the swapped pair, the two terms trade places with opposite signs. */
  lemma SwapTermsAt(a: Matrix<real>, b: Matrix<real>, k: int)
    requires Expanding(a) && ColumnsSwapped(a, b, k)
    ensures Expanding(b)
    ensures Signed(b, k) == -Signed(a, k + 1) && Signed(b, k + 1) == -Signed(a, k)
  {
    MinorSwappedAt(a, b, k, k, k + 1);
    MinorSwappedAt(a, b, k, k + 1, k);
    assert Get(b, 0, k) == Get(a, 0, k + 1) && Get(b, 0, k + 1) == Get(a, 0, k);
  }

  /** Exchanging two adjacent columns negates the determinant. */
  lemma {:induction false} SwapNegates(a: Matrix<real>, b: Matrix<real>, k: int)
    requires Square(a) && ColumnsSwapped(a, b, k)
    ensures Square(b) && Det(b, 0) == -Det(a, 0)
    decreases a.nRows, 1
  {
    var n := a.nRows;
    if n == 2 {
      assert Get(b, 0, 0) == Get(a, 0, 1) && Get(b, 1, 0) == Get(a, 1, 1);
      assert Get(b, 0, 1) == Get(a, 0, 0) && Get(b, 1, 1) == Get(a, 1, 0);
    } else {
      SwapTermsAt(a, b, k);
      var ta, tb := Terms(a), Terms(b);
      forall c | 0 <= c < n && c != k && c != k + 1
        ensures tb[c] == -ta[c]
      {
        SwapTermOutside(a, b, k, c);
      }
      SwappedTotal(ta, tb, k);
      DetIsTotal(a);
      DetIsTotal(b);
    }
  }

  // ---------------------------------------------------------------------------
  // Two equal columns
  // ---------------------------------------------------------------------------

  /** Columns p and q of m hold the same values. */
  predicate ColumnsEqual(m: Matrix<real>, p: int, q: int)
    requires Valid(m) && 0 <= p < m.nCols && 0 <= q < m.nCols
  {
    forall i {:trigger Get(m, i, q)} :: 0 <= i < m.nRows ==> Get(m, i, p) == Get(m, i, q)
  }

  /** A matrix with two equal columns has determinant zero. */
  lemma {:induction false} EqualColumnsVanish(a: Matrix<real>, p: int, q: int)
    requires Square(a) && 0 <= p < q < a.nCols && ColumnsEqual(a, p, q)
    ensures Det(a, 0) == 0.0
    decreases q - p
  {
    if q == p + 1 {
      forall i, j | 0 <= i < a.nRows && 0 <= j < a.nCols
        ensures Get(a, i, j) == Get(a, i, SwapIndex(j, p))
      {
        if j == p || j == q {
          assert Get(a, i, q) == Get(a, i, p);
        }
      }
      SwapNegates(a, a, p);
    } else {
      var b := SwapAdjacent(a, q - 1);
      forall i | 0 <= i < b.nRows
        ensures Get(b, i, p) == Get(b, i, q - 1)
      {
        assert Get(b, i, q - 1) == Get(a, i, q);
      }
      EqualColumnsVanish(b, p, q - 1);
      SwapNegates(a, b, q - 1);
    }
  }

  // ---------------------------------------------------------------------------
  // Linearity in one column
  // ---------------------------------------------------------------------------

  /** a, b and c agree outside column col, where c's column is a's plus s times b's. */
  predicate ColumnCombined(a: Matrix<real>, b: Matrix<real>, c: Matrix<real>, col: int, s: real) {
    Valid(a) && Valid(b) && Valid(c) && 0 <= col < a.nCols &&
    a.nRows == b.nRows == c.nRows && a.nCols == b.nCols == c.nCols &&
    (forall i, j {:trigger Get(b, i, j)} :: 0 <= i < a.nRows && 0 <= j < a.nCols && j != col ==>
       Get(b, i, j) == Get(a, i, j)) &&
    (forall i, j {:trigger Get(c, i, j)} :: 0 <= i < a.nRows && 0 <= j < a.nCols ==>
       Get(c, i, j) == if j == col then Get(a, i, j) + Mul(s, Get(b, i, j)) else Get(a, i, j))
  }

  /** The 2-by-2 determinant is linear in its first column. */
  lemma Det2LinearFirst(a0: real, a1: real, b0: real, b1: real, p0: real, p1: real, s: real)
    ensures Mul(a0 + Mul(s, b0), p1) - Mul(p0, a1 + Mul(s, b1)) ==
            (Mul(a0, p1) - Mul(p0, a1)) + Mul(s, Mul(b0, p1) - Mul(p0, b1))
  {
  }

  /** The 2-by-2 determinant is linear in its second column. */
  lemma Det2LinearSecond(a0: real, a1: real, b0: real, b1: real, p0: real, p1: real, s: real)
    ensures Mul(p0, a1 + Mul(s, b1)) - Mul(a0 + Mul(s, b0), p1) ==
            (Mul(p0, a1) - Mul(a0, p1)) + Mul(s, Mul(p0, b1) - Mul(b0, p1))
  {
  }

  /** A cofactor, with either sign, whose subdeterminant is da + s * db. */
  lemma DistributeTerm(g: real, da: real, db: real, s: real)
    ensures Mul(g, da + Mul(s, db)) == Mul(g, da) + Mul(s, Mul(g, db))
    ensures -Mul(g, da + Mul(s, db)) == -Mul(g, da) + Mul(s, -Mul(g, db))
  {
  }

  /** A cofactor, with either sign, whose element is ga + s * gb. */
  lemma DistributeFactor(ga: real, gb: real, d: real, s: real)
    ensures Mul(ga + Mul(s, gb), d) == Mul(ga, d) + Mul(s, Mul(gb, d))
    ensures -Mul(ga + Mul(s, gb), d) == -Mul(ga, d) + Mul(s, -Mul(gb, d))
  {
  }

  /** Away from the combined column, the minors are combined too, at the shifted index. */
  lemma MinorCombinedOutside(a: Matrix<real>, b: Matrix<real>, c: Matrix<real>, col: int, s: real, d: int)
    requires Expanding(a) && ColumnCombined(a, b, c, col, s)
    requires 0 <= d < a.nCols && d != col
    ensures ColumnCombined(Minor(a, 0, d), Minor(b, 0, d), Minor(c, 0, d), KeptBefore(col, d), s)
  {
    var col' := KeptBefore(col, d);
    var ma, mb, mc := Minor(a, 0, d), Minor(b, 0, d), Minor(c, 0, d);
    forall i, j | 0 <= i < ma.nRows && 0 <= j < ma.nCols && j != col'
      ensures Get(mb, i, j) == Get(ma, i, j)
    {
      assert Skipping(j, d) != col;
    }
    forall i, j | 0 <= i < ma.nRows && 0 <= j < ma.nCols
      ensures Get(mc, i, j) == if j == col' then Get(ma, i, j) + Mul(s, Get(mb, i, j)) else Get(ma, i, j)
    {
      assert (Skipping(j, d) == col) == (j == col');
    }
  }

  /** At the combined column, the three minors coincide. */
  lemma MinorCombinedAt(a: Matrix<real>, b: Matrix<real>, c: Matrix<real>, col: int, s: real, other: Matrix<real>)
    requires Expanding(a) && ColumnCombined(a, b, c, col, s)
    requires other == b || other == c
    ensures Minor(other, 0, col) == Minor(a, 0, col)
  {
    var mo, ma := Minor(other, 0, col), Minor(a, 0, col);
    forall i, j | 0 <= i < ma.nRows && 0 <= j < ma.nCols
      ensures Get(mo, i, j) == Get(ma, i, j)
    {
      assert Skipping(j, col) != col;
    }
    Extensionality(mo, ma);
  }

  /** Away from the combined column, c's term is a's plus s times b's. */
  lemma CombinedTermOutside(a: Matrix<real>, b: Matrix<real>, c: Matrix<real>, col: int, s: real, d: int)
    requires Expanding(a) && ColumnCombined(a, b, c, col, s)
    requires 0 <= d < a.nCols && d != col
    ensures Expanding(b) && Expanding(c)
    ensures Signed(c, d) == Signed(a, d) + Mul(s, Signed(b, d))
    decreases a.nRows, 0
  {
    var ma, mb, mc := Minor(a, 0, d), Minor(b, 0, d), Minor(c, 0, d);
    MinorCombinedOutside(a, b, c, col, s, d);
    ColumnLinear(ma, mb, mc, KeptBefore(col, d), s);
    var g := Get(a, 0, d);
    assert Get(b, 0, d) == g && Get(c, 0, d) == g;
    DistributeTerm(g, Det(ma, 0), Det(mb, 0), s);
  }

  /** At the combined column, c's term is a's plus s times b's. */
  lemma CombinedTermAt(a: Matrix<real>, b: Matrix<real>, c: Matrix<real>, col: int, s: real)
    requires Expanding(a) && ColumnCombined(a, b, c, col, s)
    ensures Expanding(b) && Expanding(c)
    ensures Signed(c, col) == Signed(a, col) + Mul(s, Signed(b, col))
  {
    MinorCombinedAt(a, b, c, col, s, b);
    MinorCombinedAt(a, b, c, col, s, c);
    var ga, gb := Get(a, 0, col), Get(b, 0, col);
    assert Get(c, 0, col) == ga + Mul(s, gb);
    DistributeFactor(ga, gb, Det(Minor(a, 0, col), 0), s);
  }

  /** The determinant is linear in each column. */
  lemma {:induction false} ColumnLinear(a: Matrix<real>, b: Matrix<real>, c: Matrix<real>, col: int, s: real)
    requires Square(a) && ColumnCombined(a, b, c, col, s)
    ensures Square(b) && Square(c)
    ensures Det(c, 0) == Det(a, 0) + Mul(s, Det(b, 0))
    decreases a.nRows, 1
  {
    if a.nRows == 2 {
      assert Get(b, 0, 1 - col) == Get(a, 0, 1 - col) && Get(b, 1, 1 - col) == Get(a, 1, 1 - col);
      assert Get(c, 0, 1 - col) == Get(a, 0, 1 - col) && Get(c, 1, 1 - col) == Get(a, 1, 1 - col);
      assert Get(c, 0, col) == Get(a, 0, col) + Mul(s, Get(b, 0, col));
      assert Get(c, 1, col) == Get(a, 1, col) + Mul(s, Get(b, 1, col));
      if col == 0 {
        Det2LinearFirst(Get(a, 0, 0), Get(a, 1, 0), Get(b, 0, 0), Get(b, 1, 0), Get(a, 0, 1), Get(a, 1, 1), s);
      } else {
        Det2LinearSecond(Get(a, 0, 1), Get(a, 1, 1), Get(b, 0, 1), Get(b, 1, 1), Get(a, 0, 0), Get(a, 1, 0), s);
      }
    } else {
      CombinedTermAt(a, b, c, col, s);
      var ta, tb, tc := Terms(a), Terms(b), Terms(c);
      forall d | 0 <= d < a.nCols
        ensures tc[d] == ta[d] + Mul(s, tb[d])
      {
        if d != col {
          CombinedTermOutside(a, b, c, col, s, d);
        }
      }
      CombinedTotal(ta, tb, tc, s, a.nCols);
      DetIsTotal(a);
      DetIsTotal(b);
      DetIsTotal(c);
    }
  }

  /** A matrix with a zero column has determinant zero. */
  lemma ZeroColumnVanishes(a: Matrix<real>, col: int)
    requires Square(a) && 0 <= col < a.nCols
    requires forall i {:trigger Get(a, i, col)} :: 0 <= i < a.nRows ==> Get(a, i, col) == 0.0
    ensures Det(a, 0) == 0.0
  {
    MulZeroRight(1.0);
    assert ColumnCombined(a, a, a, col, 1.0);
    ColumnLinear(a, a, a, col, 1.0);
    MulOneLeft(Det(a, 0));
  }

  // ---------------------------------------------------------------------------
  // Cramer's rule recovers x from A * x
  // ---------------------------------------------------------------------------

  /** Row r of a times x, over the columns 0 .. k-1. */
  function RowDot(a: Matrix<real>, x: seq<real>, r: int, k: int): real
    requires Valid(a) && |x| == a.nCols && 0 <= r < a.nRows && 0 <= k <= a.nCols
  {
    if k == 0 then 0.0 else RowDot(a, x, r, k - 1) + Mul(Get(a, r, k - 1), x[k - 1])
  }

  /** The sum of the columns 0 .. k-1 of a, column j weighted by x[j]. */
  function PartialProduct(a: Matrix<real>, x: seq<real>, k: int): (v: seq<real>)
    requires Valid(a) && |x| == a.nCols && 0 <= k <= a.nCols
    ensures |v| == a.nRows
    ensures forall r {:trigger v[r]} :: 0 <= r < a.nRows ==> v[r] == RowDot(a, x, r, k)
  {
    seq(a.nRows, r requires 0 <= r < a.nRows => RowDot(a, x, r, k))
  }

  /** The matrix-vector product A * x. */
  function MatVec(a: Matrix<real>, x: seq<real>): (v: seq<real>)
    requires Valid(a) && |x| == a.nCols
    ensures |v| == a.nRows
    ensures forall r {:trigger v[r]} :: 0 <= r < a.nRows ==> v[r] == RowDot(a, x, r, a.nCols)
  {
    PartialProduct(a, x, a.nCols)
  }

  /** Putting a column back where it came from changes nothing. */
  lemma OwnColumnReplaced(a: Matrix<real>, i: int)
    requires Valid(a) && a.nRows >= 1 && 0 <= i < a.nCols
    ensures SetColumn(a, i, Column(a, i)) == a
  {
    Extensionality(SetColumn(a, i, Column(a, i)), a);
  }

  /** Adding column k, weighted by x[k], to the partial product replacing column i. */
  lemma PartialStep(a: Matrix<real>, x: seq<real>, i: int, k: int)
    requires Square(a) && |x| == a.nCols && 0 <= i < a.nCols && 0 <= k < a.nCols
    ensures ColumnCombined(SetColumn(a, i, PartialProduct(a, x, k)), SetColumn(a, i, Column(a, k)),
                           SetColumn(a, i, PartialProduct(a, x, k + 1)), i, x[k])
  {
    var p, q := PartialProduct(a, x, k), PartialProduct(a, x, k + 1);
    var ma, mb, mc := SetColumn(a, i, p), SetColumn(a, i, Column(a, k)), SetColumn(a, i, q);
    forall r, j | 0 <= r < a.nRows && 0 <= j < a.nCols
      ensures Get(mc, r, j) == if j == i then Get(ma, r, j) + Mul(x[k], Get(mb, r, j)) else Get(ma, r, j)
    {
      if j == i {
        MulCommutes(Get(a, r, k), x[k]);
      }
    }
  }

  /** Replacing column i by a copy of another column j makes the determinant zero. */
  lemma ReplacedByOtherColumn(a: Matrix<real>, i: int, j: int)
    requires Square(a) && 0 <= i < a.nCols && 0 <= j < a.nCols && i != j
    ensures Det(SetColumn(a, i, Column(a, j)), 0) == 0.0
  {
    var mj := SetColumn(a, i, Column(a, j));
    var p, q := if i < j then i else j, if i < j then j else i;
    forall r | 0 <= r < a.nRows
      ensures Get(mj, r, p) == Get(mj, r, q)
    {
    }
    EqualColumnsVanish(mj, p, q);
  }

  /** Replacing column i by the partial product over columns 0 .. k-1 gives x[i] times the
      determinant if column i is among them, and zero otherwise. */
  lemma {:induction false} ReplacedByPartial(a: Matrix<real>, x: seq<real>, i: int, k: int)
    requires Square(a) && |x| == a.nCols && 0 <= i < a.nCols && 0 <= k <= a.nCols
    ensures Det(SetColumn(a, i, PartialProduct(a, x, k)), 0) == if i < k then Mul(x[i], Det(a, 0)) else 0.0
  {
    if k == 0 {
      ZeroColumnVanishes(SetColumn(a, i, PartialProduct(a, x, 0)), i);
    } else {
      var prev := SetColumn(a, i, PartialProduct(a, x, k - 1));
      var next := SetColumn(a, i, PartialProduct(a, x, k));
      var mk := SetColumn(a, i, Column(a, k - 1));
      ReplacedByPartial(a, x, i, k - 1);
      PartialStep(a, x, i, k - 1);
      ColumnLinear(prev, mk, next, i, x[k - 1]);
      if k - 1 == i {
        OwnColumnReplaced(a, i);
      } else {
        ReplacedByOtherColumn(a, i, k - 1);
        MulZeroRight(x[k - 1]);
      }
    }
  }

  /** Cramer's rule inverts the product: for a nonzero determinant, solving A * x gives back x. */
  lemma CramerRoundTrip(a: Matrix<real>, x: seq<real>)
    requires Square(a) && |x| == a.nCols && Det(a, 0) != 0.0
    ensures SolvableSystem(a, MatVec(a, x))
    ensures CramerSolution(a, MatVec(a, x)) == x
  {
    var b := MatVec(a, x);
    var sol := CramerSolution(a, b);
    forall i | 0 <= i < a.nCols
      ensures sol[i] == x[i]
    {
      ReplacedByPartial(a, x, i, a.nCols);
      MulDivCancel(x[i], Det(a, 0));
    }
  }

  /** The real algebra behind a 2-by-2 Cramer solution: with d = p s - q r nonzero,
      x0 = (b0 s - q b1) / d and x1 = (p b1 - b0 r) / d satisfy both equations. */
  lemma SolvedTwoByTwo(p: real, q: real, r: real, s: real, b0: real, b1: real, x0: real, x1: real)
    requires p * s - q * r != 0.0
    requires x0 == (b0 * s - q * b1) / (p * s - q * r) && x1 == (p * b1 - b0 * r) / (p * s - q * r)
    ensures p * x0 + q * x1 == b0 && r * x0 + s * x1 == b1
  {
    var d := p * s - q * r;
    assert x0 * d == b0 * s - q * b1;
    assert x1 * d == p * b1 - b0 * r;
    assert (p * x0 + q * x1) * d == b0 * d;
    assert (r * x0 + s * x1) * d == b1 * d;
  }

  /** The two entries of a 2-by-2 Cramer solution, written out. */
  lemma TwoByTwoSolution(a: Matrix<real>, b: seq<real>)
    requires SolvableSystem(a, b) && a.nRows == 2
    ensures var p, q, r, s := Get(a, 0, 0), Get(a, 0, 1), Get(a, 1, 0), Get(a, 1, 1);
            && CramerSolution(a, b)[0] == (b[0] * s - q * b[1]) / (p * s - q * r)
            && CramerSolution(a, b)[1] == (p * b[1] - b[0] * r) / (p * s - q * r)
  {
    var a0, a1 := WithColumnReplaced(a, 0, b), WithColumnReplaced(a, 1, b);
    assert Get(a0, 0, 0) == b[0] && Get(a0, 1, 0) == b[1];
    assert Get(a0, 0, 1) == Get(a, 0, 1) && Get(a0, 1, 1) == Get(a, 1, 1);
    assert Get(a1, 0, 0) == Get(a, 0, 0) && Get(a1, 1, 0) == Get(a, 1, 0);
    assert Get(a1, 0, 1) == b[0] && Get(a1, 1, 1) == b[1];
  }

  /** The product of a 2-by-2 matrix and a vector, written out. */
  lemma TwoByTwoProduct(a: Matrix<real>, x: seq<real>)
    requires Valid(a) && a.nRows == a.nCols == 2 && |x| == 2
    ensures MatVec(a, x) == [Get(a, 0, 0) * x[0] + Get(a, 0, 1) * x[1],
                             Get(a, 1, 0) * x[0] + Get(a, 1, 1) * x[1]]
  {
    assert RowDot(a, x, 0, 1) == Mul(Get(a, 0, 0), x[0]);
    assert RowDot(a, x, 1, 1) == Mul(Get(a, 1, 0), x[0]);
    var v := MatVec(a, x);
    assert v[0] == Get(a, 0, 0) * x[0] + Get(a, 0, 1) * x[1];
    assert v[1] == Get(a, 1, 0) * x[0] + Get(a, 1, 1) * x[1];
  }

  /** Cramer's rule solves every 2-by-2 system with a nonzero determinant: the solution x
      satisfies A * x == b, for any right-hand side b. */
  lemma CramerSolves2x2(a: Matrix<real>, b: seq<real>)
    requires SolvableSystem(a, b) && a.nRows == 2
    ensures MatVec(a, CramerSolution(a, b)) == b
  {
    var x := CramerSolution(a, b);
    TwoByTwoSolution(a, b);
    TwoByTwoProduct(a, x);
    SolvedTwoByTwo(Get(a, 0, 0), Get(a, 0, 1), Get(a, 1, 0), Get(a, 1, 1), b[0], b[1], x[0], x[1]);
    var v := MatVec(a, x);
    assert v[0] == b[0] && v[1] == b[1];
  }
}
