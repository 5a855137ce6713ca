/** The `description` property of linalg/Sources/Matrix+CustomStringConvertible.swift: a
    boxed, column-aligned text picture of a matrix. Every element is shown with `show`,
    which stands for the element type's own `description` (`"\(x)"`). */
module PrettyPrint {
  import opened Storage
  import opened Text

  // ---------------------------------------------------------------------------
  // The picture, line by line
  // ---------------------------------------------------------------------------

  /** The texts of column col, top to bottom. */
  function ColumnTexts<T>(m: Matrix<T>, show: T -> string, col: int): (texts: seq<string>)
    requires Valid(m) && 0 <= col < m.nCols
    ensures |texts| == m.nRows
    ensures forall r {:trigger texts[r]} :: 0 <= r < m.nRows ==> texts[r] == show(Get(m, r, col))
  {
    seq(m.nRows, r requires 0 <= r < m.nRows => show(Get(m, r, col)))
  }

  /** The width of column col: the longest text in it (0 for a matrix without rows). */
  function ColumnWidth<T>(m: Matrix<T>, show: T -> string, col: int): nat
    requires Valid(m) && 0 <= col < m.nCols
  {
    MaxLength(ColumnTexts(m, show, col))
  }

  /** Cell (r, c) of the picture: the element's text padded to its column's width. */
  function Cell<T>(m: Matrix<T>, show: T -> string, r: int, c: int): string
    requires Valid(m) && 0 <= r < m.nRows && 0 <= c < m.nCols
  {
    PadRight(show(Get(m, r, c)), ColumnWidth(m, show, c))
  }

  /** Column col after padding: `colsWithStrings[col]`. */
  function PaddedColumn<T>(m: Matrix<T>, show: T -> string, col: int): (cells: seq<string>)
    requires Valid(m) && 0 <= col < m.nCols
    ensures |cells| == m.nRows
    ensures forall r {:trigger cells[r]} :: 0 <= r < m.nRows ==> cells[r] == Cell(m, show, r, col)
  {
    seq(m.nRows, r requires 0 <= r < m.nRows => Cell(m, show, r, col))
  }

  /** Row r after padding, left to right: `rowsWithStrings[r]`. */
  function RowCells<T>(m: Matrix<T>, show: T -> string, r: int): (cells: seq<string>)
    requires Valid(m) && 0 <= r < m.nRows
    ensures |cells| == m.nCols
    ensures forall c {:trigger cells[c]} :: 0 <= c < m.nCols ==> cells[c] == Cell(m, show, r, c)
  {
    seq(m.nCols, c requires 0 <= c < m.nCols => Cell(m, show, r, c))
  }

  /** The line for row r: the padded cells two spaces apart between "| " and " |". */
  function RowLine<T>(m: Matrix<T>, show: T -> string, r: int): (line: string)
    requires Valid(m) && 0 <= r < m.nRows
    ensures |line| >= 4
  {
    "| " + Join(RowCells(m, show, r), "  ") + " |"
  }

  /** The decorative top and bottom line for rows of the given length. */
  function Border(length: int): (line: string)
    requires length >= 4
    ensures |line| == length
  {
    "+-" + Spaces(length - 4) + "-+"
  }

  /** The lines of the picture: a border, one line per row, the same border again. The
      border takes its length from the last row line; with no rows at all the Swift code
      asks for a negative number of spaces and traps, hence at least one row. */
  function Lines<T>(m: Matrix<T>, show: T -> string): (lines: seq<string>)
    requires Valid(m) && m.nRows >= 1
  {
    var border := Border(|RowLine(m, show, m.nRows - 1)|);
    [border] + seq(m.nRows, r requires 0 <= r < m.nRows => RowLine(m, show, r)) + [border]
  }

  /** `description`: the lines joined by newlines, without a newline at the end. */
  function Description<T>(m: Matrix<T>, show: T -> string): string
    requires Valid(m) && m.nRows >= 1
  {
    Join(Lines(m, show), "\n")
  }

  // ---------------------------------------------------------------------------
  // The loops of `description`
  // ---------------------------------------------------------------------------

  /** The larger of two widths: Swift's `max`. */
  function Max(a: nat, b: nat): (c: nat)
    ensures c >= a && c >= b && (c == a || c == b)
  {
    if a < b then b else a
  }

  /** The first loop over the rows of one column: the texts and their running maximum
      length. */
  method CollectColumn<T>(m: Matrix<T>, show: T -> string, col: int) returns (colElements: seq<string>, colWidth: nat)
    requires Valid(m) && 0 <= col < m.nCols
    ensures colElements == ColumnTexts(m, show, col)
    ensures colWidth == ColumnWidth(m, show, col)
  {
    ghost var texts := ColumnTexts(m, show, col);
    colElements, colWidth := [], 0;
    for row := 0 to m.nRows
      invariant colElements == texts[..row]
      invariant colWidth == MaxLength(colElements)
    {
      var repr := show(Get(m, row, col));
      assert (colElements + [repr])[..row] == colElements;
      colElements := colElements + [repr];
      colWidth := Max(colWidth, |repr|);
    }
    assert texts[..m.nRows] == texts;
  }

  /** One pass of the outer column loop: collect the column, then pad every entry to the
      column's width. */
  method RenderColumn<T>(m: Matrix<T>, show: T -> string, col: int) returns (colElements: seq<string>)
    requires Valid(m) && 0 <= col < m.nCols
    ensures colElements == PaddedColumn(m, show, col)
  {
    var colWidth;
    colElements, colWidth := CollectColumn(m, show, col);
    for row := 0 to m.nRows
      invariant |colElements| == m.nRows
      invariant forall r {:trigger colElements[r]} :: 0 <= r < row ==> colElements[r] == Cell(m, show, r, col)
      invariant forall r {:trigger colElements[r]} :: row <= r < m.nRows ==> colElements[r] == show(Get(m, r, col))
    {
      colElements := colElements[row := PadRight(colElements[row], colWidth)];
    }
  }

  /** The inner loop of the conversion to row-major: row r read across the padded
      columns. */
  method GatherRow<T>(m: Matrix<T>, show: T -> string, colsWithStrings: seq<seq<string>>, row: int)
    returns (rowElements: seq<string>)
    requires Valid(m) && 0 <= row < m.nRows
    requires |colsWithStrings| == m.nCols
    requires forall c {:trigger colsWithStrings[c]} :: 0 <= c < m.nCols ==> colsWithStrings[c] == PaddedColumn(m, show, c)
    ensures rowElements == RowCells(m, show, row)
  {
    rowElements := [];
    for col := 0 to m.nCols
      invariant |rowElements| == col
      invariant forall c {:trigger rowElements[c]} :: 0 <= c < col ==> rowElements[c] == Cell(m, show, row, c)
    {
      rowElements := rowElements + [colsWithStrings[col][row]];
    }
  }

  /** The outer column loop: every column, padded, in order (`colsWithStrings`). */
  method PadColumns<T>(m: Matrix<T>, show: T -> string) returns (colsWithStrings: seq<seq<string>>)
    requires Valid(m)
    ensures |colsWithStrings| == m.nCols
    ensures forall c {:trigger colsWithStrings[c]} :: 0 <= c < m.nCols ==> colsWithStrings[c] == PaddedColumn(m, show, c)
  {
    colsWithStrings := [];
    for col := 0 to m.nCols
      invariant |colsWithStrings| == col
      invariant forall c {:trigger colsWithStrings[c]} :: 0 <= c < col ==> colsWithStrings[c] == PaddedColumn(m, show, c)
    {
      var colElements := RenderColumn(m, show, col);
      colsWithStrings := colsWithStrings + [colElements];
    }
  }

  /** The conversion to row-major and the joining of each row into its line, after the
      placeholder slot (`joinedRows` before the borders). */
  method JoinRows<T>(m: Matrix<T>, show: T -> string, colsWithStrings: seq<seq<string>>) returns (joinedRows: seq<string>)
    requires Valid(m)
    requires |colsWithStrings| == m.nCols
    requires forall c {:trigger colsWithStrings[c]} :: 0 <= c < m.nCols ==> colsWithStrings[c] == PaddedColumn(m, show, c)
    ensures |joinedRows| == m.nRows + 1 && joinedRows[0] == ""
    ensures forall r {:trigger joinedRows[r + 1]} :: 0 <= r < m.nRows ==> joinedRows[r + 1] == RowLine(m, show, r)
  {
    var rowsWithStrings: seq<seq<string>> := [];
    for row := 0 to m.nRows
      invariant |rowsWithStrings| == row
      invariant forall r {:trigger rowsWithStrings[r]} :: 0 <= r < row ==> rowsWithStrings[r] == RowCells(m, show, r)
    {
      var rowElements := GatherRow(m, show, colsWithStrings, row);
      rowsWithStrings := rowsWithStrings + [rowElements];
    }
    joinedRows := [""];
    for row := 0 to m.nRows
      invariant |joinedRows| == row + 1 && joinedRows[0] == ""
      invariant forall r {:trigger joinedRows[r + 1]} :: 0 <= r < row ==> joinedRows[r + 1] == RowLine(m, show, r)
    {
      joinedRows := joinedRows + ["| " + Join(rowsWithStrings[row], "  ") + " |"];
    }
  }

  /** `description` as the Swift code computes it: padded columns, converted to rows,
      each row joined into a line, then the border put in the placeholder slot and at
      the end. */
  method Describe<T>(m: Matrix<T>, show: T -> string) returns (s: string)
    requires Valid(m) && m.nRows >= 1
    ensures s == Description(m, show)
  {
    var colsWithStrings := PadColumns(m, show);
    var joinedRows := JoinRows(m, show, colsWithStrings);
    ghost var rowLines := seq(m.nRows, r requires 0 <= r < m.nRows => RowLine(m, show, r));
    assert joinedRows[1..] == rowLines;
    var rowStringLength := |joinedRows[|joinedRows| - 1]|;
    assert rowStringLength == |RowLine(m, show, m.nRows - 1)|;
    var topAndBottom := "+-" + Spaces(rowStringLength - 4) + "-+";
    joinedRows := joinedRows[0 := topAndBottom] + [topAndBottom];
    assert joinedRows == [topAndBottom] + rowLines + [topAndBottom];
    s := Join(joinedRows, "\n");
  }

  // ---------------------------------------------------------------------------
  // What the picture looks like
  // ---------------------------------------------------------------------------

  /** No element's text contains a line break. */
  predicate SingleLineTexts<T>(m: Matrix<T>, show: T -> string)
    requires Valid(m)
  {
    forall r, c {:trigger Get(m, r, c)} :: 0 <= r < m.nRows && 0 <= c < m.nCols ==> '\n' !in show(Get(m, r, c))
  }

  /** Each cell is its element's text followed by spaces, exactly as wide as the column,
      and the column is exactly as wide as its widest text: padding never cuts a text. */
  lemma CellIsPaddedText<T>(m: Matrix<T>, show: T -> string, r: int, c: int)
    requires Valid(m) && 0 <= r < m.nRows && 0 <= c < m.nCols
    ensures var text, cell := show(Get(m, r, c)), Cell(m, show, r, c);
      && |text| <= |cell| == ColumnWidth(m, show, c)
      && cell[..|text|] == text
      && (forall i {:trigger cell[i]} :: |text| <= i < |cell| ==> cell[i] == ' ')
    ensures forall r' {:trigger Get(m, r', c)} :: 0 <= r' < m.nRows ==> |show(Get(m, r', c))| <= ColumnWidth(m, show, c)
    ensures exists r' {:trigger Get(m, r', c)} :: 0 <= r' < m.nRows && |show(Get(m, r', c))| == ColumnWidth(m, show, c)
  {
    var texts := ColumnTexts(m, show, c);
    assert texts[r] == show(Get(m, r, c));
    var w := ColumnWidth(m, show, c);
    forall r' | 0 <= r' < m.nRows
      ensures |show(Get(m, r', c))| <= w
    {
      assert texts[r'] == show(Get(m, r', c));
    }
    // the width is attained: some row's text is exactly as long as the column is wide
    var r0 :| 0 <= r0 < m.nRows && |texts[r0]| == w;
    assert |show(Get(m, r0, c))| == w;
  }

  /** A row line has no line break when its element texts have none. */
  lemma RowLineIsSingleLine<T>(m: Matrix<T>, show: T -> string, r: int)
    requires Valid(m) && 0 <= r < m.nRows && SingleLineTexts(m, show)
    ensures '\n' !in RowLine(m, show, r)
  {
    var cells := RowCells(m, show, r);
    forall c | 0 <= c < m.nCols
      ensures '\n' !in cells[c]
    {
      var text := show(Get(m, r, c));
      assert '\n' !in text;
      CellIsPaddedText(m, show, r, c);
      var cell := cells[c];
      forall i | 0 <= i < |cell|
        ensures cell[i] != '\n'
      {
        if i < |text| {
          assert cell[i] == cell[..|text|][i];
        }
      }
    }
    JoinAvoids(cells, "  ", '\n');
  }

  /** All row lines are equally long, so the columns line up. */
  lemma RowLinesAligned<T>(m: Matrix<T>, show: T -> string, r1: int, r2: int)
    requires Valid(m) && 0 <= r1 < m.nRows && 0 <= r2 < m.nRows
    ensures |RowLine(m, show, r1)| == |RowLine(m, show, r2)|
  {
    var a, b := RowCells(m, show, r1), RowCells(m, show, r2);
    forall c | 0 <= c < m.nCols
      ensures |a[c]| == |b[c]|
    {
      CellIsPaddedText(m, show, r1, c);
      CellIsPaddedText(m, show, r2, c);
    }
    JoinLengthsAgree(a, b, "  ");
  }

  /** The widths of the columns from k to the last, added up. */
  function WidthsFrom<T>(m: Matrix<T>, show: T -> string, k: int): nat
    requires Valid(m) && 0 <= k <= m.nCols
    decreases m.nCols - k
  {
    if k == m.nCols then 0 else ColumnWidth(m, show, k) + WidthsFrom(m, show, k + 1)
  }

  lemma {:induction false} CellLengthsFrom<T>(m: Matrix<T>, show: T -> string, r: int, k: int)
    requires Valid(m) && 0 <= r < m.nRows && 0 <= k <= m.nCols
    ensures TotalLength(RowCells(m, show, r)[k..]) == WidthsFrom(m, show, k)
    decreases m.nCols - k
  {
    var cells := RowCells(m, show, r);
    if k < m.nCols {
      CellLengthsFrom(m, show, r, k + 1);
      CellIsPaddedText(m, show, r, k);
      assert cells[k..][1..] == cells[k + 1..];
    }
  }

  /** Every row line is 4 characters of frame, the column widths, and two spaces between
      each two neighbouring columns. */
  lemma RowLineLength<T>(m: Matrix<T>, show: T -> string, r: int)
    requires Valid(m) && 0 <= r < m.nRows
    ensures m.nCols == 0 ==> |RowLine(m, show, r)| == 4
    ensures m.nCols >= 1 ==> |RowLine(m, show, r)| == 4 + WidthsFrom(m, show, 0) + 2 * (m.nCols - 1)
  {
    var cells := RowCells(m, show, r);
    JoinLength(cells, "  ");
    CellLengthsFrom(m, show, r, 0);
    assert cells[0..] == cells;
  }

  /** Every line of the picture is free of line breaks and as long as the last row line. */
  lemma LinesAreSingleAndAligned<T>(m: Matrix<T>, show: T -> string)
    requires Valid(m) && m.nRows >= 1 && SingleLineTexts(m, show)
    ensures var lines := Lines(m, show);
      forall i {:trigger lines[i]} :: 0 <= i < |lines| ==>
        '\n' !in lines[i] && |lines[i]| == |RowLine(m, show, m.nRows - 1)|
  {
    var lines := Lines(m, show);
    forall i | 0 <= i < |lines|
      ensures '\n' !in lines[i] && |lines[i]| == |RowLine(m, show, m.nRows - 1)|
    {
      if 0 < i < |lines| - 1 {
        RowLineIsSingleLine(m, show, i - 1);
        RowLinesAligned(m, show, i - 1, m.nRows - 1);
      }
    }
  }

  /** The picture has nRows + 2 lines: the border, row r on line r + 1, and the border
      again, and every line has the border's length. */
  lemma DescriptionLines<T>(m: Matrix<T>, show: T -> string)
    requires Valid(m) && m.nRows >= 1 && SingleLineTexts(m, show)
    ensures var lines := Split(Description(m, show), '\n');
      && |lines| == m.nRows + 2 && |lines[0]| >= 4
      && lines[0] == lines[m.nRows + 1] == Border(|lines[0]|)
      && (forall r {:trigger lines[r + 1]} :: 0 <= r < m.nRows ==> lines[r + 1] == RowLine(m, show, r))
      && (forall i {:trigger lines[i]} :: 0 <= i < |lines| ==> |lines[i]| == |lines[0]|)
  {
    LinesAreSingleAndAligned(m, show);
    SplitJoin(Lines(m, show), '\n');
  }
}
