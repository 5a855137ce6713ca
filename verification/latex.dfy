/** `toLaTeX()` of linalg/Sources/Matrix+LaTeX.swift: the matrix as an amsmath `bmatrix`
    environment with one row per line. Every element is shown with `show`, which stands for
    the element type's own `description` (`"\(x)"`). */
module LaTeX {
  import opened Storage
  import opened Text

  /** The line that opens the environment, without its newline. */
  const Begin: string := "\\begin{bmatrix}"

  /** The line that closes the environment, without its newline. */
  const End: string := "\\end{bmatrix}"

  /** The texts of row r, left to right. */
  function RowTexts<T>(m: Matrix<T>, show: T -> string, r: int): (texts: seq<string>)
    requires Valid(m) && 0 <= r < m.nRows
    ensures |texts| == m.nCols
    ensures forall c {:trigger texts[c]} :: 0 <= c < m.nCols ==> texts[c] == show(Get(m, r, c))
  {
    seq(m.nCols, c requires 0 <= c < m.nCols => show(Get(m, r, c)))
  }

  /** The line for row r: its texts separated by " & " and closed by the LaTeX line break
      `\\`. */
  function RowLine<T>(m: Matrix<T>, show: T -> string, r: int): string
    requires Valid(m) && 0 <= r < m.nRows
  {
    Join(RowTexts(m, show, r), " & ") + "\\\\"
  }

  /** The lines of rows 0 to k - 1, each followed by a newline. */
  function RowsText<T>(m: Matrix<T>, show: T -> string, k: int): string
    requires Valid(m) && 0 <= k <= m.nRows
  {
    if k == 0 then "" else RowsText(m, show, k - 1) + RowLine(m, show, k - 1) + "\n"
  }

  /** `toLaTeX()`: the opening line, the row lines and the closing line, each followed by a
      newline. */
  function ToLaTeX<T>(m: Matrix<T>, show: T -> string): string
    requires Valid(m)
  {
    Begin + "\n" + RowsText(m, show, m.nRows) + End + "\n"
  }

  /** The loop that converts the elements of one row to text. */
  method CollectRow<T>(m: Matrix<T>, show: T -> string, row: int) returns (rowElements: seq<string>)
    requires Valid(m) && 0 <= row < m.nRows
    ensures rowElements == RowTexts(m, show, row)
  {
    rowElements := [];
    for col := 0 to m.nCols
      invariant |rowElements| == col
      invariant forall c {:trigger rowElements[c]} :: 0 <= c < col ==> rowElements[c] == show(Get(m, row, c))
    {
      var elem := Get(m, row, col);
      rowElements := rowElements + [show(elem)];
    }
  }

  /** `toLaTeX()` as the Swift code computes it, appending to one string. */
  method RenderLaTeX<T>(m: Matrix<T>, show: T -> string) returns (latex: string)
    requires Valid(m)
    ensures latex == ToLaTeX(m, show)
  {
    latex := "\\begin{bmatrix}\n";
    for row := 0 to m.nRows
      invariant latex == Begin + "\n" + RowsText(m, show, row)
    {
      var rowElements := CollectRow(m, show, row);
      var rowRepresentation := Join(rowElements, " & ") + "\\\\";
      latex := latex + rowRepresentation + "\n";
    }
    latex := latex + "\\end{bmatrix}\n";
  }

  // ---------------------------------------------------------------------------
  // What the output looks like
  // ---------------------------------------------------------------------------

  /** No element's text contains a line break. */
  predicate SingleLineTexts<T>(m: Matrix<T>, show: T -> string)
    requires Valid(m)
  {
    forall r, c {:trigger Get(m, r, c)} :: 0 <= r < m.nRows && 0 <= c < m.nCols ==> '\n' !in show(Get(m, r, c))
  }

  /** The row lines in order. */
  function RowLines<T>(m: Matrix<T>, show: T -> string, k: int): (lines: seq<string>)
    requires Valid(m) && 0 <= k <= m.nRows
    ensures |lines| == k
    ensures forall r {:trigger lines[r]} :: 0 <= r < k ==> lines[r] == RowLine(m, show, r)
  {
    seq(k, r requires 0 <= r < k => RowLine(m, show, r))
  }

  /** The opening line and the first k row lines, as one newline-terminated block. */
  lemma {:induction false} HeadIsJoin<T>(m: Matrix<T>, show: T -> string, k: int)
    requires Valid(m) && 0 <= k <= m.nRows
    ensures Begin + "\n" + RowsText(m, show, k) == Join([Begin] + RowLines(m, show, k), "\n") + "\n"
    decreases k
  {
    if k > 0 {
      HeadIsJoin(m, show, k - 1);
      var before := [Begin] + RowLines(m, show, k - 1);
      assert [Begin] + RowLines(m, show, k) == before + [RowLine(m, show, k - 1)];
      JoinSnoc(before, "\n", RowLine(m, show, k - 1));
    }
  }

  /** A row line has no line break when its element texts have none. */
  lemma RowLineIsSingleLine<T>(m: Matrix<T>, show: T -> string, r: int)
    requires Valid(m) && 0 <= r < m.nRows && SingleLineTexts(m, show)
    ensures '\n' !in RowLine(m, show, r)
  {
    var texts := RowTexts(m, show, r);
    forall c | 0 <= c < m.nCols
      ensures '\n' !in texts[c]
    {
      assert texts[c] == show(Get(m, r, c));
    }
    JoinAvoids(texts, " & ", '\n');
  }

  /** The output is the opening line, the row lines and the closing line, each followed
      by a newline: joined by newlines with an empty last piece. */
  lemma LaTeXIsJoinedLines<T>(m: Matrix<T>, show: T -> string)
    requires Valid(m)
    ensures ToLaTeX(m, show) == Join([Begin] + RowLines(m, show, m.nRows) + [End, ""], "\n")
  {
    var head := [Begin] + RowLines(m, show, m.nRows);
    HeadIsJoin(m, show, m.nRows);
    JoinSnoc(head, "\n", End);
    JoinSnoc(head + [End], "\n", "");
    assert head + [End] + [""] == head + [End, ""];
    calc {
      ToLaTeX(m, show);
      (Begin + "\n" + RowsText(m, show, m.nRows)) + End + "\n";
      Join(head, "\n") + "\n" + End + "\n";
      Join(head + [End], "\n") + "\n" + "";
    }
  }

  /** Read back line by line, the output is the opening line, row r on line r + 1, and the
      closing line, after whose newline nothing follows. */
  lemma LaTeXLines<T>(m: Matrix<T>, show: T -> string)
    requires Valid(m) && SingleLineTexts(m, show)
    ensures Split(ToLaTeX(m, show), '\n') == [Begin] + RowLines(m, show, m.nRows) + [End, ""]
  {
    var lines := [Begin] + RowLines(m, show, m.nRows) + [End, ""];
    LaTeXIsJoinedLines(m, show);
    forall i | 0 <= i < |lines|
      ensures '\n' !in lines[i]
    {
      if 0 < i <= m.nRows {
        RowLineIsSingleLine(m, show, i - 1);
      }
    }
    SplitJoin(lines, '\n');
  }

  /** The output depends on the elements only through their texts. */
  lemma SameTextsSameLaTeX<T>(a: Matrix<T>, b: Matrix<T>, show: T -> string)
    requires Valid(a) && Valid(b) && a.nRows == b.nRows && a.nCols == b.nCols
    requires forall r, c {:trigger Get(a, r, c)} :: 0 <= r < a.nRows && 0 <= c < a.nCols ==> show(Get(a, r, c)) == show(Get(b, r, c))
    ensures ToLaTeX(a, show) == ToLaTeX(b, show)
  {
    forall r | 0 <= r < a.nRows
      ensures RowLine(a, show, r) == RowLine(b, show, r)
    {
      assert RowTexts(a, show, r) == RowTexts(b, show, r);
    }
    SameRowsSameText(a, b, show, a.nRows);
  }

  lemma {:induction false} SameRowsSameText<T>(a: Matrix<T>, b: Matrix<T>, show: T -> string, k: int)
    requires Valid(a) && Valid(b) && a.nRows == b.nRows && 0 <= k <= a.nRows
    requires forall r {:trigger RowLine(a, show, r)} :: 0 <= r < k ==> RowLine(a, show, r) == RowLine(b, show, r)
    ensures RowsText(a, show, k) == RowsText(b, show, k)
    decreases k
  {
    if k > 0 {
      SameRowsSameText(a, b, show, k - 1);
    }
  }
}
