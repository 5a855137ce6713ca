/** The three cases of linalg/Tests/.../MatrixPrettyPrintTests.swift, worked out on the
    model: the 4-by-3 integer matrix and the integer column vector printed with
    `description`, and the 4-by-3 matrix printed with `toLaTeX()`. Each example is reached
    in small steps (element texts, padded cells, row lines, whole output) so that every step
    is a short computation on literals. */
module RenderingExamples {
  import opened Storage
  import opened Text
  import PrettyPrint
  import LaTeX

  // ---------------------------------------------------------------------------
  // Steps shared by the examples
  // ---------------------------------------------------------------------------

  /** The texts of a column of four integers. */
  lemma TextsOfColumn(m: Matrix<int>, c: int, a: int, b: int, d: int, e: int)
    requires Valid(m) && m.nRows == 4 && 0 <= c < m.nCols
    requires Get(m, 0, c) == a && Get(m, 1, c) == b && Get(m, 2, c) == d && Get(m, 3, c) == e
    ensures PrettyPrint.ColumnTexts(m, IntToString, c) == [IntToString(a), IntToString(b), IntToString(d), IntToString(e)]
  {
  }

  /** The cells of a column of four texts: each padded to the longest. */
  lemma CellsOfColumn<T>(m: Matrix<T>, show: T -> string, c: int, t0: string, t1: string, t2: string, t3: string,
                         w: nat, p0: string, p1: string, p2: string, p3: string)
    requires Valid(m) && m.nRows == 4 && 0 <= c < m.nCols
    requires PrettyPrint.ColumnTexts(m, show, c) == [t0, t1, t2, t3]
    requires MaxLength([t0, t1, t2, t3]) == w
    requires PadRight(t0, w) == p0 && PadRight(t1, w) == p1 && PadRight(t2, w) == p2 && PadRight(t3, w) == p3
    ensures PrettyPrint.Cell(m, show, 0, c) == p0 && PrettyPrint.Cell(m, show, 1, c) == p1
    ensures PrettyPrint.Cell(m, show, 2, c) == p2 && PrettyPrint.Cell(m, show, 3, c) == p3
  {
    var texts := PrettyPrint.ColumnTexts(m, show, c);
    assert texts[0] == t0 && texts[1] == t1 && texts[2] == t2 && texts[3] == t3;
  }

  lemma RowOfOneCell<T>(m: Matrix<T>, show: T -> string, r: int, p0: string)
    requires Valid(m) && 0 <= r < m.nRows && m.nCols == 1
    requires PrettyPrint.Cell(m, show, r, 0) == p0
    ensures PrettyPrint.RowCells(m, show, r) == [p0]
  {
  }

  lemma RowOfThreeCells<T>(m: Matrix<T>, show: T -> string, r: int, p0: string, p1: string, p2: string)
    requires Valid(m) && 0 <= r < m.nRows && m.nCols == 3
    requires PrettyPrint.Cell(m, show, r, 0) == p0 && PrettyPrint.Cell(m, show, r, 1) == p1
    requires PrettyPrint.Cell(m, show, r, 2) == p2
    ensures PrettyPrint.RowCells(m, show, r) == [p0, p1, p2]
  {
  }

  lemma RowLineFromCells<T>(m: Matrix<T>, show: T -> string, r: int, cells: seq<string>, line: string)
    requires Valid(m) && 0 <= r < m.nRows
    requires PrettyPrint.RowCells(m, show, r) == cells
    requires "| " + Join(cells, "  ") + " |" == line
    ensures PrettyPrint.RowLine(m, show, r) == line
  {
  }

  /** The lines of a four-row picture from its row lines. */
  lemma LinesOfFourRows<T>(m: Matrix<T>, show: T -> string, l0: string, l1: string, l2: string, l3: string)
    requires Valid(m) && m.nRows == 4
    requires PrettyPrint.RowLine(m, show, 0) == l0 && PrettyPrint.RowLine(m, show, 1) == l1
    requires PrettyPrint.RowLine(m, show, 2) == l2 && PrettyPrint.RowLine(m, show, 3) == l3
    ensures |l3| >= 4
    ensures PrettyPrint.Lines(m, show) == [PrettyPrint.Border(|l3|)] + [l0, l1, l2, l3] + [PrettyPrint.Border(|l3|)]
  {
    var rows := seq(m.nRows, r requires 0 <= r < m.nRows => PrettyPrint.RowLine(m, show, r));
    assert rows[0] == l0 && rows[1] == l1 && rows[2] == l2 && rows[3] == l3;
    assert rows == [l0, l1, l2, l3];
  }

  // ---------------------------------------------------------------------------
  // testPrettyPrintColumnVector
  // ---------------------------------------------------------------------------

  lemma VectorEntries(m: Matrix<int>)
    requires m == FromColumnVector([3, 65, -6989, -1])
    ensures Valid(m) && m.nRows == 4 && m.nCols == 1
    ensures Get(m, 0, 0) == 3 && Get(m, 1, 0) == 65 && Get(m, 2, 0) == -6989 && Get(m, 3, 0) == -1
  {
  }

  lemma VectorNumberTexts()
    ensures IntToString(3) == "3" && IntToString(65) == "65"
    ensures IntToString(-6989) == "-6989" && IntToString(-1) == "-1"
  {
  }

  lemma VectorPadding()
    ensures MaxLength(["3", "65", "-6989", "-1"]) == 5
    ensures PadRight("3", 5) == "3    " && PadRight("65", 5) == "65   "
    ensures PadRight("-6989", 5) == "-6989" && PadRight("-1", 5) == "-1   "
  {
  }

  lemma VectorCells(m: Matrix<int>)
    requires m == FromColumnVector([3, 65, -6989, -1])
    ensures Valid(m) && m.nRows == 4 && m.nCols == 1
    ensures PrettyPrint.RowCells(m, IntToString, 0) == ["3    "]
    ensures PrettyPrint.RowCells(m, IntToString, 1) == ["65   "]
    ensures PrettyPrint.RowCells(m, IntToString, 2) == ["-6989"]
    ensures PrettyPrint.RowCells(m, IntToString, 3) == ["-1   "]
  {
    VectorEntries(m);
    VectorNumberTexts();
    TextsOfColumn(m, 0, 3, 65, -6989, -1);
    VectorPadding();
    CellsOfColumn(m, IntToString, 0, "3", "65", "-6989", "-1", 5, "3    ", "65   ", "-6989", "-1   ");
    RowOfOneCell(m, IntToString, 0, "3    ");
    RowOfOneCell(m, IntToString, 1, "65   ");
    RowOfOneCell(m, IntToString, 2, "-6989");
    RowOfOneCell(m, IntToString, 3, "-1   ");
  }

  lemma VectorLineTexts()
    ensures "| " + Join(["3    "], "  ") + " |" == "| 3     |"
    ensures "| " + Join(["65   "], "  ") + " |" == "| 65    |"
    ensures "| " + Join(["-6989"], "  ") + " |" == "| -6989 |"
    ensures "| " + Join(["-1   "], "  ") + " |" == "| -1    |"
    ensures PrettyPrint.Border(9) == "+-     -+"
  {
  }

  lemma VectorRowLines(m: Matrix<int>)
    requires Valid(m) && m.nRows == 4 && m.nCols == 1
    requires PrettyPrint.RowCells(m, IntToString, 0) == ["3    "]
    requires PrettyPrint.RowCells(m, IntToString, 1) == ["65   "]
    requires PrettyPrint.RowCells(m, IntToString, 2) == ["-6989"]
    requires PrettyPrint.RowCells(m, IntToString, 3) == ["-1   "]
    ensures PrettyPrint.Lines(m, IntToString) ==
      ["+-     -+"] + ["| 3     |", "| 65    |", "| -6989 |", "| -1    |"] + ["+-     -+"]
  {
    VectorLineTexts();
    RowLineFromCells(m, IntToString, 0, ["3    "], "| 3     |");
    RowLineFromCells(m, IntToString, 1, ["65   "], "| 65    |");
    RowLineFromCells(m, IntToString, 2, ["-6989"], "| -6989 |");
    RowLineFromCells(m, IntToString, 3, ["-1   "], "| -1    |");
    LinesOfFourRows(m, IntToString, "| 3     |", "| 65    |", "| -6989 |", "| -1    |");
  }

  /** `Matrix<Int>(columnVector: [3, 65, -6989, -1]).description` is the picture the test
      expects, line for line. */
  lemma ColumnVectorPicture(m: Matrix<int>)
    requires m == FromColumnVector([3, 65, -6989, -1])
    ensures PrettyPrint.Description(m, IntToString) ==
      Join(["+-     -+"] + ["| 3     |", "| 65    |", "| -6989 |", "| -1    |"] + ["+-     -+"], "\n")
  {
    VectorCells(m);
    VectorRowLines(m);
  }

  // ---------------------------------------------------------------------------
  // testPrettyPrint4x3
  // ---------------------------------------------------------------------------

  const Grid: seq<seq<int>> := [[2, 3, 5], [3, 65, 32], [-6, -6989, 0], [-68, 1, 1]]

  lemma GridEntries(m: Matrix<int>)
    requires m == FromRows(Grid)
    ensures Valid(m) && m.nRows == 4 && m.nCols == 3
    ensures Get(m, 0, 0) == 2 && Get(m, 1, 0) == 3 && Get(m, 2, 0) == -6 && Get(m, 3, 0) == -68
    ensures Get(m, 0, 1) == 3 && Get(m, 1, 1) == 65 && Get(m, 2, 1) == -6989 && Get(m, 3, 1) == 1
    ensures Get(m, 0, 2) == 5 && Get(m, 1, 2) == 32 && Get(m, 2, 2) == 0 && Get(m, 3, 2) == 1
  {
  }

  lemma GridNumberTexts()
    ensures IntToString(2) == "2" && IntToString(3) == "3" && IntToString(5) == "5"
    ensures IntToString(-6) == "-6" && IntToString(-68) == "-68" && IntToString(65) == "65"
    ensures IntToString(32) == "32" && IntToString(-6989) == "-6989" && IntToString(0) == "0"
    ensures IntToString(1) == "1"
  {
  }

  lemma GridTexts(m: Matrix<int>)
    requires m == FromRows(Grid)
    ensures Valid(m) && m.nRows == 4 && m.nCols == 3
    ensures PrettyPrint.ColumnTexts(m, IntToString, 0) == ["2", "3", "-6", "-68"]
    ensures PrettyPrint.ColumnTexts(m, IntToString, 1) == ["3", "65", "-6989", "1"]
    ensures PrettyPrint.ColumnTexts(m, IntToString, 2) == ["5", "32", "0", "1"]
  {
    GridEntries(m);
    GridNumberTexts();
    TextsOfColumn(m, 0, 2, 3, -6, -68);
    TextsOfColumn(m, 1, 3, 65, -6989, 1);
    TextsOfColumn(m, 2, 5, 32, 0, 1);
  }

  lemma GridPadding0()
    ensures MaxLength(["2", "3", "-6", "-68"]) == 3
    ensures PadRight("2", 3) == "2  " && PadRight("3", 3) == "3  " && PadRight("-6", 3) == "-6 " && PadRight("-68", 3) == "-68"
  {
  }

  lemma GridPadding1()
    ensures MaxLength(["3", "65", "-6989", "1"]) == 5
    ensures PadRight("3", 5) == "3    " && PadRight("65", 5) == "65   " && PadRight("-6989", 5) == "-6989" && PadRight("1", 5) == "1    "
  {
  }

  lemma GridPadding2()
    ensures MaxLength(["5", "32", "0", "1"]) == 2
    ensures PadRight("5", 2) == "5 " && PadRight("32", 2) == "32" && PadRight("0", 2) == "0 " && PadRight("1", 2) == "1 "
  {
  }

  lemma GridColumnCells(m: Matrix<int>)
    requires Valid(m) && m.nRows == 4 && m.nCols == 3
    requires PrettyPrint.ColumnTexts(m, IntToString, 0) == ["2", "3", "-6", "-68"]
    requires PrettyPrint.ColumnTexts(m, IntToString, 1) == ["3", "65", "-6989", "1"]
    requires PrettyPrint.ColumnTexts(m, IntToString, 2) == ["5", "32", "0", "1"]
    ensures PrettyPrint.Cell(m, IntToString, 0, 0) == "2  " && PrettyPrint.Cell(m, IntToString, 1, 0) == "3  "
    ensures PrettyPrint.Cell(m, IntToString, 2, 0) == "-6 " && PrettyPrint.Cell(m, IntToString, 3, 0) == "-68"
    ensures PrettyPrint.Cell(m, IntToString, 0, 1) == "3    " && PrettyPrint.Cell(m, IntToString, 1, 1) == "65   "
    ensures PrettyPrint.Cell(m, IntToString, 2, 1) == "-6989" && PrettyPrint.Cell(m, IntToString, 3, 1) == "1    "
    ensures PrettyPrint.Cell(m, IntToString, 0, 2) == "5 " && PrettyPrint.Cell(m, IntToString, 1, 2) == "32"
    ensures PrettyPrint.Cell(m, IntToString, 2, 2) == "0 " && PrettyPrint.Cell(m, IntToString, 3, 2) == "1 "
  {
    GridPadding0();
    CellsOfColumn(m, IntToString, 0, "2", "3", "-6", "-68", 3, "2  ", "3  ", "-6 ", "-68");
    GridPadding1();
    CellsOfColumn(m, IntToString, 1, "3", "65", "-6989", "1", 5, "3    ", "65   ", "-6989", "1    ");
    GridPadding2();
    CellsOfColumn(m, IntToString, 2, "5", "32", "0", "1", 2, "5 ", "32", "0 ", "1 ");
  }

  lemma GridCells(m: Matrix<int>)
    requires Valid(m) && m.nRows == 4 && m.nCols == 3
    requires PrettyPrint.Cell(m, IntToString, 0, 0) == "2  " && PrettyPrint.Cell(m, IntToString, 1, 0) == "3  "
    requires PrettyPrint.Cell(m, IntToString, 2, 0) == "-6 " && PrettyPrint.Cell(m, IntToString, 3, 0) == "-68"
    requires PrettyPrint.Cell(m, IntToString, 0, 1) == "3    " && PrettyPrint.Cell(m, IntToString, 1, 1) == "65   "
    requires PrettyPrint.Cell(m, IntToString, 2, 1) == "-6989" && PrettyPrint.Cell(m, IntToString, 3, 1) == "1    "
    requires PrettyPrint.Cell(m, IntToString, 0, 2) == "5 " && PrettyPrint.Cell(m, IntToString, 1, 2) == "32"
    requires PrettyPrint.Cell(m, IntToString, 2, 2) == "0 " && PrettyPrint.Cell(m, IntToString, 3, 2) == "1 "
    ensures PrettyPrint.RowCells(m, IntToString, 0) == ["2  ", "3    ", "5 "]
    ensures PrettyPrint.RowCells(m, IntToString, 1) == ["3  ", "65   ", "32"]
    ensures PrettyPrint.RowCells(m, IntToString, 2) == ["-6 ", "-6989", "0 "]
    ensures PrettyPrint.RowCells(m, IntToString, 3) == ["-68", "1    ", "1 "]
  {
    RowOfThreeCells(m, IntToString, 0, "2  ", "3    ", "5 ");
    RowOfThreeCells(m, IntToString, 1, "3  ", "65   ", "32");
    RowOfThreeCells(m, IntToString, 2, "-6 ", "-6989", "0 ");
    RowOfThreeCells(m, IntToString, 3, "-68", "1    ", "1 ");
  }

  lemma GridLineText0() ensures "| " + Join(["2  ", "3    ", "5 "], "  ") + " |" == "| 2    3      5  |" {}
  lemma GridLineText1() ensures "| " + Join(["3  ", "65   ", "32"], "  ") + " |" == "| 3    65     32 |" {}
  lemma GridLineText2() ensures "| " + Join(["-6 ", "-6989", "0 "], "  ") + " |" == "| -6   -6989  0  |" {}
  lemma GridLineText3() ensures "| " + Join(["-68", "1    ", "1 "], "  ") + " |" == "| -68  1      1  |" {}
  lemma GridBorder() ensures PrettyPrint.Border(18) == "+-              -+" {}

  lemma GridRowLines(m: Matrix<int>)
    requires Valid(m) && m.nRows == 4 && m.nCols == 3
    requires PrettyPrint.RowCells(m, IntToString, 0) == ["2  ", "3    ", "5 "]
    requires PrettyPrint.RowCells(m, IntToString, 1) == ["3  ", "65   ", "32"]
    requires PrettyPrint.RowCells(m, IntToString, 2) == ["-6 ", "-6989", "0 "]
    requires PrettyPrint.RowCells(m, IntToString, 3) == ["-68", "1    ", "1 "]
    ensures PrettyPrint.RowLine(m, IntToString, 0) == "| 2    3      5  |"
    ensures PrettyPrint.RowLine(m, IntToString, 1) == "| 3    65     32 |"
    ensures PrettyPrint.RowLine(m, IntToString, 2) == "| -6   -6989  0  |"
    ensures PrettyPrint.RowLine(m, IntToString, 3) == "| -68  1      1  |"
  {
    GridLineText0();
    RowLineFromCells(m, IntToString, 0, ["2  ", "3    ", "5 "], "| 2    3      5  |");
    GridLineText1();
    RowLineFromCells(m, IntToString, 1, ["3  ", "65   ", "32"], "| 3    65     32 |");
    GridLineText2();
    RowLineFromCells(m, IntToString, 2, ["-6 ", "-6989", "0 "], "| -6   -6989  0  |");
    GridLineText3();
    RowLineFromCells(m, IntToString, 3, ["-68", "1    ", "1 "], "| -68  1      1  |");
  }

  lemma GridLines(m: Matrix<int>)
    requires Valid(m) && m.nRows == 4 && m.nCols == 3
    requires PrettyPrint.RowLine(m, IntToString, 0) == "| 2    3      5  |"
    requires PrettyPrint.RowLine(m, IntToString, 1) == "| 3    65     32 |"
    requires PrettyPrint.RowLine(m, IntToString, 2) == "| -6   -6989  0  |"
    requires PrettyPrint.RowLine(m, IntToString, 3) == "| -68  1      1  |"
    ensures PrettyPrint.Lines(m, IntToString) ==
      ["+-              -+"] + ["| 2    3      5  |", "| 3    65     32 |", "| -6   -6989  0  |", "| -68  1      1  |"] + ["+-              -+"]
  {
    GridBorder();
    LinesOfFourRows(m, IntToString, "| 2    3      5  |", "| 3    65     32 |", "| -6   -6989  0  |", "| -68  1      1  |");
  }

  /** `Matrix<Int>(rows: ...).description` for the test's 4-by-3 matrix is the picture the
      test expects, line for line: columns 3, 5 and 2 characters wide. */
  lemma GridPicture(m: Matrix<int>)
    requires m == FromRows(Grid)
    ensures PrettyPrint.Description(m, IntToString) ==
      Join(["+-              -+"] + ["| 2    3      5  |", "| 3    65     32 |", "| -6   -6989  0  |", "| -68  1      1  |"] + ["+-              -+"], "\n")
  {
    GridTexts(m);
    GridColumnCells(m);
    GridCells(m);
    GridRowLines(m);
    GridLines(m);
  }

  // ---------------------------------------------------------------------------
  // testLaTeXRendering
  // ---------------------------------------------------------------------------

  lemma LaTeXTextsOfRow(m: Matrix<int>, r: int, a: int, b: int, c: int)
    requires Valid(m) && 0 <= r < m.nRows && m.nCols == 3
    requires Get(m, r, 0) == a && Get(m, r, 1) == b && Get(m, r, 2) == c
    ensures LaTeX.RowTexts(m, IntToString, r) == [IntToString(a), IntToString(b), IntToString(c)]
  {
  }

  lemma GridRowTexts(m: Matrix<int>)
    requires m == FromRows(Grid)
    ensures Valid(m) && m.nRows == 4 && m.nCols == 3
    ensures LaTeX.RowTexts(m, IntToString, 0) == ["2", "3", "5"]
    ensures LaTeX.RowTexts(m, IntToString, 1) == ["3", "65", "32"]
    ensures LaTeX.RowTexts(m, IntToString, 2) == ["-6", "-6989", "0"]
    ensures LaTeX.RowTexts(m, IntToString, 3) == ["-68", "1", "1"]
  {
    GridEntries(m);
    GridNumberTexts();
    LaTeXTextsOfRow(m, 0, 2, 3, 5);
    LaTeXTextsOfRow(m, 1, 3, 65, 32);
    LaTeXTextsOfRow(m, 2, -6, -6989, 0);
    LaTeXTextsOfRow(m, 3, -68, 1, 1);
  }

  lemma LaTeXLineText0() ensures Join(["2", "3", "5"], " & ") + "\\\\" == "2 & 3 & 5\\\\" {}
  lemma LaTeXLineText1() ensures Join(["3", "65", "32"], " & ") + "\\\\" == "3 & 65 & 32\\\\" {}
  lemma LaTeXLineText2() ensures Join(["-6", "-6989", "0"], " & ") + "\\\\" == "-6 & -6989 & 0\\\\" {}
  lemma LaTeXLineText3() ensures Join(["-68", "1", "1"], " & ") + "\\\\" == "-68 & 1 & 1\\\\" {}

  lemma LaTeXRowLineFrom<T>(m: Matrix<T>, show: T -> string, r: int, texts: seq<string>, line: string)
    requires Valid(m) && 0 <= r < m.nRows
    requires LaTeX.RowTexts(m, show, r) == texts
    requires Join(texts, " & ") + "\\\\" == line
    ensures LaTeX.RowLine(m, show, r) == line
  {
  }

  lemma GridLaTeXRowLines(m: Matrix<int>)
    requires Valid(m) && m.nRows == 4 && m.nCols == 3
    requires LaTeX.RowTexts(m, IntToString, 0) == ["2", "3", "5"]
    requires LaTeX.RowTexts(m, IntToString, 1) == ["3", "65", "32"]
    requires LaTeX.RowTexts(m, IntToString, 2) == ["-6", "-6989", "0"]
    requires LaTeX.RowTexts(m, IntToString, 3) == ["-68", "1", "1"]
    ensures LaTeX.RowLine(m, IntToString, 0) == "2 & 3 & 5\\\\"
    ensures LaTeX.RowLine(m, IntToString, 1) == "3 & 65 & 32\\\\"
    ensures LaTeX.RowLine(m, IntToString, 2) == "-6 & -6989 & 0\\\\"
    ensures LaTeX.RowLine(m, IntToString, 3) == "-68 & 1 & 1\\\\"
  {
    LaTeXLineText0();
    LaTeXRowLineFrom(m, IntToString, 0, ["2", "3", "5"], "2 & 3 & 5\\\\");
    LaTeXLineText1();
    LaTeXRowLineFrom(m, IntToString, 1, ["3", "65", "32"], "3 & 65 & 32\\\\");
    LaTeXLineText2();
    LaTeXRowLineFrom(m, IntToString, 2, ["-6", "-6989", "0"], "-6 & -6989 & 0\\\\");
    LaTeXLineText3();
    LaTeXRowLineFrom(m, IntToString, 3, ["-68", "1", "1"], "-68 & 1 & 1\\\\");
  }

  lemma LaTeXOfFourRows<T>(m: Matrix<T>, show: T -> string, l0: string, l1: string, l2: string, l3: string)
    requires Valid(m) && m.nRows == 4
    requires LaTeX.RowLine(m, show, 0) == l0 && LaTeX.RowLine(m, show, 1) == l1
    requires LaTeX.RowLine(m, show, 2) == l2 && LaTeX.RowLine(m, show, 3) == l3
    ensures LaTeX.ToLaTeX(m, show) == Join([LaTeX.Begin] + [l0, l1, l2, l3] + [LaTeX.End, ""], "\n")
  {
    LaTeX.LaTeXIsJoinedLines(m, show);
    var rows := LaTeX.RowLines(m, show, 4);
    assert rows[0] == l0 && rows[1] == l1 && rows[2] == l2 && rows[3] == l3;
    assert rows == [l0, l1, l2, l3];
  }

  /** `toLaTeX()` of the test's 4-by-3 matrix is the expected text: each of its lines
      followed by a newline, the last one included. */
  lemma GridLaTeX(m: Matrix<int>)
    requires m == FromRows(Grid)
    ensures LaTeX.ToLaTeX(m, IntToString) ==
      Join(["\\begin{bmatrix}"] + ["2 & 3 & 5\\\\", "3 & 65 & 32\\\\", "-6 & -6989 & 0\\\\", "-68 & 1 & 1\\\\"] + ["\\end{bmatrix}", ""], "\n")
  {
    GridRowTexts(m);
    GridLaTeXRowLines(m);
    LaTeXOfFourRows(m, IntToString, "2 & 3 & 5\\\\", "3 & 65 & 32\\\\", "-6 & -6989 & 0\\\\", "-68 & 1 & 1\\\\");
  }
}
