# Dense matrices, Cramer's rule, matrix printers and a palindrome check, in Dafny

This project models the `linalg` Swift library of the tutorial-code repository, plus the
`isPalindrome` check of its Gradle example, and proves properties of the model.

- **Storage** (`storage.dfy`): a `Matrix<T>` is a flat sequence of elements in column-major order, with `nRows` and `nCols`.
  - The five initialisers are modelled: column vector, rows, columns, flat column-major and flat row-major.
  - So are the linear and the row/column subscripts, and the two index maps.
  - Every initialiser establishes `|elements| == nRows * nCols`.
- **Determinant and Cramer's rule** (`cramer.dfy`, `det_theory.dfy`): minor extraction, the recursive cofactor expansion with its 2-by-2 base case, column replacement and `solveWithCramer`.
  - Elements are exact reals.
  - On top of the model, the expansion along row 0 is shown to be multilinear in each column and alternating under adjacent column swaps.
  - Cramer's rule is shown to invert the matrix-vector product whenever the determinant is nonzero.
- **Printers** (`text.dfy`, `pretty_print.dfy`, `latex.dfy`, `rendering_examples.dfy`):
  - `description` gives the boxed, column-aligned picture.
  - `toLaTeX()` gives the `bmatrix` environment.
  - Both are modelled as functions and as the loops the Swift code runs, and proved equal.
  - The three printing tests of `MatrixPrettyPrintTests` are worked out on the model.
- **Palindromes** (`palindrome.dfy`): `isPalindrome(word)` is "the reversed word equals the word". It is proved equivalent to the mirror condition on characters.
- **Findings** (`findings.dfy`): three places where the code does something other than what it evidently means (see below).

Swift's `precondition` and `assert` both become `requires`. Converting an element to text (`"\(x)"`) is a parameter `show: T -> string`. The test matrices use `Text.IntToString`, the decimal text of an `Int`.

## Model

| member | source | states |
|---|---|---|
| Storage.ColMajorIndex | linalg/Sources/Matrix.swift:150-155 | the column-major position of an in-range cell lies inside a storage of nRows * nCols elements |
| Storage.RowMajorIndex | linalg/Sources/Matrix.swift:158-163 | the row-major position of an in-range cell lies inside a flat array of nRows * nCols elements |
| Storage.IndexFormulas | linalg/Sources/Matrix.swift:150-163 | the two index maps are col * nRows + row and row * nCols + col |
| Storage.ColMajorIndexInjective | linalg/Sources/Matrix.swift:150-155 | two in-range cells share a storage slot exactly when they are the same cell |
| Storage.ColMajorIndexSurjective | linalg/Sources/Matrix.swift:150-155 | every storage slot idx belongs to the cell (idx % nRows, idx / nRows), so the map is a bijection onto the storage |
| Storage.RowMajorIndexInjective | linalg/Sources/Matrix.swift:158-163 | two in-range cells share a row-major position exactly when they are the same cell |
| Storage.SetAt | linalg/Sources/Matrix.swift:124-128 | the linear setter puts the value at idx, leaves every other slot and the shape alone, and keeps the matrix valid |
| Storage.Set | linalg/Sources/Matrix.swift:140-146 | the row/column setter changes the element at (row, col) and no other element; shape and validity are kept |
| Storage.LinearAndGridSubscriptsAgree | linalg/Sources/Matrix.swift:118-139 | the linear getter at idx reads the same element as the row/column getter at (idx % nRows, idx / nRows) |
| Storage.Extensionality | linalg/Sources/Matrix.swift:132-139 | two valid matrices of one shape that agree at every (row, col) are the same matrix |
| Storage.FromColumnVector | linalg/Sources/Matrix.swift:14-18 | a valid n-by-1 matrix, empty input included, whose row i holds values[i] |
| Storage.FromRows | linalg/Sources/Matrix.swift:21-49 | for a non-empty array of non-empty, equally long rows: a valid matrix with rows[r][c] at (r, c) |
| Storage.FromColumns | linalg/Sources/Matrix.swift:52-74 | for non-empty, equally long columns: a valid matrix whose storage is the columns one after another |
| Storage.FromColumnsCells | linalg/Sources/Matrix.swift:52-74 | the matrix built from columns has columns[c][r] at (r, c) |
| Storage.FromColumnMajor | linalg/Sources/Matrix.swift:77-86 | with a positive column count dividing the element count: a valid matrix storing the elements unchanged, with count / numCols rows |
| Storage.FromRowMajor | linalg/Sources/Matrix.swift:89-114 | with a positive row count dividing the element count: a valid matrix with count / numRows columns, holding at (r, c) the input element at row-major position (r, c) |
| Storage.RowMajorColumnsCells | linalg/Sources/Matrix.swift:101-113 | the columns of a row-major sequence laid end to end hold the sequence's element (r, c) at (r, c) |
| Storage.ReorderRowMajor | linalg/Sources/Matrix.swift:101-113 | the nested reordering loops produce the columns of the row-major input one after another |
| Storage.InitRowMajor | linalg/Sources/Matrix.swift:89-114 | the initialiser's loops build exactly the matrix FromRowMajor describes |
| Storage.ToRowMajor | linalg/Sources/Matrix.swift:158-163 | the elements listed in row-major order: the element at (r, c) sits at row-major position (r, c) |
| Storage.RowMajorRoundTrip | linalg/Sources/Matrix.swift:89-114 | building from a row-major array and listing the matrix in row-major order gives the array back |
| Storage.RowMajorRoundTripBack | linalg/Sources/Matrix.swift:89-114 | listing a matrix with at least one row in row-major order and building it back gives the same matrix |
| Storage.RowMajorMatchesRows | linalg/Sources/Matrix.swift:89-114 | the row-major initialiser agrees with the rows initialiser fed the same elements cut into rows |
| Storage.RowsAreTransposedColumns | linalg/Sources/Matrix.swift:21-74 | the rows initialiser and the columns initialiser on the transposed array build the same matrix |
| Storage.ColumnsMatchColumnMajor | linalg/Sources/Matrix.swift:52-86 | the columns initialiser agrees with the column-major initialiser on the concatenated columns |
| Cramer.Minor | linalg/Sources/Matrix+Cramer.swift:4-21 | the minor is valid and one row and one column smaller; its (i, j) is the original's (i, j), shifted by one past the skipped row and past the skipped column |
| Cramer.StepMinor | linalg/Sources/Matrix+Cramer.swift:9-18 | every element outside the skipped row and column lands at its kept-index position of the collected minor storage |
| Cramer.CollectMinorElements | linalg/Sources/Matrix+Cramer.swift:5-18 | the loops of `minorMatrix` collect the minor's columns in order, (nRows - 1)(nCols - 1) elements |
| Cramer.ComputeMinor | linalg/Sources/Matrix+Cramer.swift:4-21 | `minorMatrix` as written returns the Minor |
| Cramer.CofactorSumStep | linalg/Sources/Matrix+Cramer.swift:35-47 | each pass of the expansion loop adds the cofactor term when rowNr + col is even and subtracts it otherwise |
| Cramer.ComputeDeterminant | linalg/Sources/Matrix+Cramer.swift:24-51 | `determinant(rowNr:)` as written, with its recursive calls, computes Det |
| Cramer.ExpandAlongRow | linalg/Sources/Matrix+Cramer.swift:32-50 | the expansion loop sums all nCols signed cofactor terms |
| Cramer.AddCofactor | linalg/Sources/Matrix+Cramer.swift:37-46 | one loop body: determinant of the minor, then the signed term added to the running sum |
| Cramer.SetRowsBelow | linalg/Sources/Matrix+Cramer.swift:59-61 | after the loop has assigned rows 0 .. k-1, those rows of column col hold newValue and every other element, rows k and up of column col included, is unchanged |
| Cramer.SetColumn | linalg/Sources/Matrix+Cramer.swift:54-64 | after `setColumn` column col holds newValue and every other element is unchanged; shape kept |
| Cramer.WithColumnReplaced | linalg/Sources/Matrix+Cramer.swift:66-75 | the copy has column col replaced by newValue and all other columns as before |
| Cramer.SolveWithCramer | linalg/Sources/Matrix+Cramer.swift:77-97 | the loop of `solveWithCramer` returns det(A with column i replaced by b) / det(A) for each i |
| DetTheory.DetIsTotal | linalg/Sources/Matrix+Cramer.swift:32-50 | for n >= 3 the determinant is the total of the signed row-0 cofactor terms |
| DetTheory.SwapNegates | linalg/Sources/Matrix+Cramer.swift:24-51 | swapping two adjacent columns negates the determinant (n >= 2) |
| DetTheory.EqualColumnsVanish | linalg/Sources/Matrix+Cramer.swift:24-51 | a matrix with two equal columns has determinant 0 |
| DetTheory.ColumnLinear | linalg/Sources/Matrix+Cramer.swift:24-51 | the determinant is linear in each column: det(a with col + s * b's col) == det(a) + s * det(b) |
| DetTheory.ZeroColumnVanishes | linalg/Sources/Matrix+Cramer.swift:24-51 | a matrix with a zero column has determinant 0 |
| DetTheory.OwnColumnReplaced | linalg/Sources/Matrix+Cramer.swift:55-64 | putting a column back in its own place changes nothing |
| DetTheory.ReplacedByOtherColumn | linalg/Sources/Matrix+Cramer.swift:66-75 | replacing column i by a copy of another column makes the determinant 0 |
| DetTheory.ReplacedByPartial | linalg/Sources/Matrix+Cramer.swift:77-97 | replacing column i by the partial product of A and x over columns below k gives x[i] * det(A) when i < k, else 0 |
| DetTheory.CramerRoundTrip | linalg/Sources/Matrix+Cramer.swift:77-97 | for a nonzero determinant, solving A x' = A x by Cramer's rule gives back x |
| DetTheory.CramerSolves2x2 | linalg/Sources/Matrix+Cramer.swift:76-97 | for a 2-by-2 system with a nonzero determinant and any right-hand side b, the Cramer solution x satisfies A x == b |
| Text.Spaces | linalg/Sources/Matrix+CustomStringConvertible.swift:53 | n characters, all spaces |
| Text.JoinSnoc | linalg/Sources/Matrix+CustomStringConvertible.swift:60 | joining one more part adds the separator and the part at the end |
| Text.JoinAvoids | linalg/Sources/Matrix+CustomStringConvertible.swift:60 | a character absent from the parts and the separator is absent from the join |
| Text.JoinLength | linalg/Sources/Matrix+CustomStringConvertible.swift:48 | a join's length is the parts' total length plus one separator between each two parts |
| Text.JoinLengthsAgree | linalg/Sources/Matrix+CustomStringConvertible.swift:48 | joins of part lists with pairwise equal lengths are equally long |
| Text.SplitJoin | linalg/Sources/Matrix+CustomStringConvertible.swift:60 | splitting at c the join of c-free parts with separator c gives the parts back |
| Text.PadRight | linalg/Sources/Matrix+CustomStringConvertible.swift:26 | the result is exactly width long: the text cut short when longer, otherwise the text followed only by spaces |
| Text.MaxLength | linalg/Sources/Matrix+CustomStringConvertible.swift:14-19 | the running maximum bounds every text length and equals one of them (0 when there are none) |
| Text.DigitsRoundTrip | linalg/Tests/MatrixPrettyPrintTests.swift:9-28 | the decimal digits of n read back as n |
| Text.IntRoundTrip | linalg/Tests/MatrixPrettyPrintTests.swift:9-28 | the decimal text of an `Int`, minus sign included, reads back as the number |
| PrettyPrint.ColumnTexts | linalg/Sources/Matrix+CustomStringConvertible.swift:16-20 | one text per row, the text of the element at (r, col) |
| PrettyPrint.PaddedColumn | linalg/Sources/Matrix+CustomStringConvertible.swift:25-30 | the stored column holds the padded cell of each row |
| PrettyPrint.RowCells | linalg/Sources/Matrix+CustomStringConvertible.swift:34-41 | row r of the transposed table holds the padded cells of row r, in column order |
| PrettyPrint.RowLine | linalg/Sources/Matrix+CustomStringConvertible.swift:48 | a row line is at least the four frame characters long |
| PrettyPrint.Border | linalg/Sources/Matrix+CustomStringConvertible.swift:52-53 | the border is exactly as long as the row line it was measured from |
| PrettyPrint.Max | linalg/Sources/Matrix+CustomStringConvertible.swift:19 | the larger of the two widths |
| PrettyPrint.CollectColumn | linalg/Sources/Matrix+CustomStringConvertible.swift:14-20 | the first row loop collects the column's texts and their maximum length |
| PrettyPrint.RenderColumn | linalg/Sources/Matrix+CustomStringConvertible.swift:12-31 | each column is stored as its cells padded to the column width |
| PrettyPrint.GatherRow | linalg/Sources/Matrix+CustomStringConvertible.swift:35-41 | the transposition loop gathers row r's cells in column order |
| PrettyPrint.PadColumns | linalg/Sources/Matrix+CustomStringConvertible.swift:11-31 | the outer column loop stores every column padded, in column order |
| PrettyPrint.JoinRows | linalg/Sources/Matrix+CustomStringConvertible.swift:34-49 | after the placeholder, line r + 1 is row r's line, for every row |
| PrettyPrint.Describe | linalg/Sources/Matrix+CustomStringConvertible.swift:9-61 | the whole `description` getter, loops and placeholder included, computes Description |
| PrettyPrint.CellIsPaddedText | linalg/Sources/Matrix+CustomStringConvertible.swift:12-30 | a cell is its text followed by spaces, as wide as its column, and the column is exactly as wide as its widest text: padding never truncates |
| PrettyPrint.RowLineIsSingleLine | linalg/Sources/Matrix+CustomStringConvertible.swift:48 | a row line has no line break when no element text has one |
| PrettyPrint.RowLinesAligned | linalg/Sources/Matrix+CustomStringConvertible.swift:26-48 | all row lines are equally long |
| PrettyPrint.RowLineLength | linalg/Sources/Matrix+CustomStringConvertible.swift:26-48 | a row line is 4 + the sum of the column widths + 2 * (nCols - 1) long |
| PrettyPrint.LinesAreSingleAndAligned | linalg/Sources/Matrix+CustomStringConvertible.swift:44-57 | every line of the picture, borders included, is free of line breaks and as long as the last row line |
| PrettyPrint.DescriptionLines | linalg/Sources/Matrix+CustomStringConvertible.swift:44-60 | read back at newlines the output is nRows + 2 lines, all equally long: the border, row r on line r + 1, the same border |
| LaTeX.RowTexts | linalg/Sources/Matrix+LaTeX.swift:12-18 | one text per column, the text of the element at (r, c) |
| LaTeX.CollectRow | linalg/Sources/Matrix+LaTeX.swift:12-18 | the inner loop collects row r's texts in column order |
| LaTeX.RenderLaTeX | linalg/Sources/Matrix+LaTeX.swift:5-31 | `toLaTeX()` as written, appending to one string, computes ToLaTeX |
| LaTeX.RowLines | linalg/Sources/Matrix+LaTeX.swift:10-25 | one line per row, in row order |
| LaTeX.HeadIsJoin | linalg/Sources/Matrix+LaTeX.swift:8-25 | after k rows the text is the opening line and the first k row lines, each ended by a newline |
| LaTeX.RowLineIsSingleLine | linalg/Sources/Matrix+LaTeX.swift:21 | a row line has no line break when no element text has one |
| LaTeX.LaTeXIsJoinedLines | linalg/Sources/Matrix+LaTeX.swift:5-31 | the output is the opening line, the row lines and the closing line, each followed by a newline |
| LaTeX.LaTeXLines | linalg/Sources/Matrix+LaTeX.swift:5-31 | read back at newlines, the output is `\begin{bmatrix}`, row r on line r + 1, `\end{bmatrix}`, and nothing after the last newline |
| LaTeX.SameTextsSameLaTeX | linalg/Sources/Matrix+LaTeX.swift:14-17 | two matrices of one shape whose elements have the same texts render identically |
| LaTeX.SameRowsSameText | linalg/Sources/Matrix+LaTeX.swift:10-25 | equal row lines give equal accumulated text |
| RenderingExamples.GridPicture | linalg/Tests/MatrixPrettyPrintTests.swift:9-28 | the 4-by-3 test matrix prints as the expected six-line picture |
| RenderingExamples.ColumnVectorPicture | linalg/Tests/MatrixPrettyPrintTests.swift:30-44 | the test column vector prints as the expected six-line picture |
| RenderingExamples.GridLaTeX | linalg/Tests/MatrixPrettyPrintTests.swift:47-66 | the 4-by-3 test matrix renders as the expected `bmatrix` text, ending in a newline |
| Palindrome.Reverse | buildsystems/gradle/palindrome_checker/src/main/java/palindrome_checker/PalindromeChecker.java:18 | the reversal has the same length, with position i holding the input's position counted i from the end |
| Palindrome.IsPalindrome | buildsystems/gradle/palindrome_checker/src/main/java/palindrome_checker/PalindromeChecker.java:17-19 | true exactly when every character equals its mirror image counted from the other end |
| Palindrome.ReverseReverse | buildsystems/gradle/palindrome_checker/src/main/java/palindrome_checker/PalindromeChecker.java:18 | reversing twice gives the input back |
| Palindrome.ReverseConcat | buildsystems/gradle/palindrome_checker/src/main/java/palindrome_checker/PalindromeChecker.java:18 | the reversal of a + b is the reversal of b followed by the reversal of a |
| Palindrome.ReversalKeepsPalindromes | buildsystems/gradle/palindrome_checker/src/main/java/palindrome_checker/PalindromeChecker.java:17-19 | a word and its reversal are palindromes together |
| Palindrome.PalindromeByEnds | buildsystems/gradle/palindrome_checker/src/main/java/palindrome_checker/PalindromeChecker.java:17-19 | words of length 0 or 1 are palindromes; a longer word is one exactly when its ends agree and its middle is one |
| Palindrome.CheckerExamples | buildsystems/gradle/palindrome_checker/src/test/java/palindrome_checker/PalindromeCheckerTest.java:15-43 | every one-character word, "abccba" and "010010" are palindromes; "abcdef" and "110110001" are not |
| Findings.SwiftDiv | linalg/Sources/Matrix.swift:85 | Swift's `/`: the quotient's size is that of the natural quotient, with a sign that is positive exactly when the operands' signs agree |
| Findings.SwiftRem | linalg/Sources/Matrix.swift:79 | Swift's `%`: dividend == quotient * divisor + remainder, and the remainder has the dividend's sign |
| Findings.ColMajorShapeAsWritten | linalg/Sources/Matrix.swift:77-86 | the column-major initialiser as written accepts exactly the nonzero column counts, negative ones included, whose magnitude divides the count; it stores rows * cols == count |
| Findings.NegativeColumnCountAccepted | linalg/Sources/Matrix.swift:77-86 | 4 elements in -2 columns give a -2-by--2 matrix |
| Findings.ColMajorCorrected | linalg/Sources/Matrix.swift:77-86 | for positive column counts, the initialiser as written and FromColumnMajor accept the same inputs with the same shape |
| Findings.RowMajorShapeAsWritten | linalg/Sources/Matrix.swift:89-114 | the row-major initialiser as written stores rows * cols == count; a negative row count gets through only with no elements, and then 0 columns |
| Findings.NegativeRowCountAccepted | linalg/Sources/Matrix.swift:89-114 | no elements in -3 rows give a matrix with -3 rows |
| Findings.RowMajorCorrected | linalg/Sources/Matrix.swift:89-114 | for positive row counts, the initialiser as written and FromRowMajor accept the same inputs with the same shape |
| Findings.MinorShapeAsWritten | linalg/Sources/Matrix+Cramer.swift:4-21 | the minor of an n-by-n matrix is built with (n-1)(n-1) elements in n-1 columns: a trap for n == 1, an (n-1)-by-(n-1) shape otherwise |
| Findings.DeterminantAsWritten | linalg/Sources/Matrix+Cramer.swift:24-51 | `determinant()` as written returns Det for every square size but 1; for 1 the minor's construction traps |
| Findings.OneByOneDeterminantCrashes | linalg/Sources/Matrix+Cramer.swift:24-51 | the 1-by-1 matrix [5] has no determinant as written |
| Findings.Determinant | linalg/Sources/Matrix+Cramer.swift:24-51 | the corrected determinant agrees with the code wherever the code returns |
| Findings.TwoByTwoIsExpansion | linalg/Sources/Matrix+Cramer.swift:28-31 | with 1-by-1 determinants defined, the 2-by-2 rule is the cofactor expansion along row 0 |
| Findings.OneByOneCramer | linalg/Sources/Matrix+Cramer.swift:77-97 | with the corrected determinant, Cramer's rule solves every 1-by-1 system a x = b with a != 0 |

## Left out

- Floating point: `determinant` and `solveWithCramer` work on exact reals, so rounding, infinities and NaN are not modelled.
- Cramer.SolveWithCramer: requires a nonzero determinant. Exact division by zero has no value, where the Swift code would divide and produce infinities or NaN. It also requires at least two rows, because `determinant()` traps on a 1-by-1 matrix (see Findings).
- Cramer.Det: defined for square matrices other than 1-by-1. The 1-by-1 case traps in the code (see Findings). The 0-by-0 case returns 0, as the empty expansion loop does.
- Cramer.Det: expansion along a row other than 0 is modelled but not proved equal to the expansion along row 0. Every recursive call, and `solveWithCramer`, expands along row 0.
- Cramer.Minor: skip indices outside the matrix are excluded by `requires`. The public `minorMatrix` does not check them, and `determinant(rowNr:)` passes its caller's `rowNr` through unchecked (linalg/Sources/Matrix+Cramer.swift:38). For n >= 3 and an out-of-range `rowNr`, the first minor is n-by-(n-1), and its own `determinant()` then traps at `precondition(nRows == nCols)` (line 27). Cramer.DetDomain's bound 0 <= rowNr < nRows for n >= 3 stands for that trap.
- DetTheory.CramerRoundTrip: proves that solve(A, A x) == x for every size. The converse, A solve(A, b) == b for every b, is proved only for 2-by-2 systems (DetTheory.CramerSolves2x2). The general case needs expansion along rows other than 0, or the invertibility of A, and neither is part of this model.
- Cramer.SetColumn: requires at least one row. The Swift range `0...count-1` traps for an empty column.
- PrettyPrint.Description: requires at least one row. With no rows the border asks for -4 spaces and traps.
- Element texts: `"\(x)"` is the parameter `show`. Text lengths count `Character`s as sequence elements; grapheme clustering is not modelled.
- Text.PadRight: measures padding in sequence elements, standing for Swift `Character`s, as `repr.count` and `colWidth` do (linalg/Sources/Matrix+CustomStringConvertible.swift:16-19). Foundation's `padding(toLength:withPad:startingAt:)` (line 26) counts UTF-16 code units instead. So PrettyPrint.CellIsPaddedText ("never cut short") and PrettyPrint.RowLinesAligned hold in Swift only for texts where the two counts agree. An element text such as U+1F44D (thumbs up) is one `Character` but two UTF-16 units, and padding it to width 1 cuts it to a lone surrogate. The two counts agree for the ASCII texts that numeric elements produce.
- Palindrome.IsPalindrome: a Java `null` argument is not modelled; the Java method throws on it. Strings are sequences of Unicode scalar values, which is what `StringUtils.reverse` reverses.
- The palindrome program's command line (`Main.java`, `Arguments.java`) is not part of this model. It is argument parsing and console I/O.
- The CORDIC and ODE scripts, the matrix-generator script, `Multiplication.swift` and the build manifests are not part of this model. They are floating-point plotting, random test generation and configuration.
- Swift `assert` and `precondition` are not told apart: both are `requires`, though asserts vanish in release builds.
- Value semantics: `withColumnReplaced` leaves its receiver unchanged because the model is pure. `setColumn`, which mutates and returns `self`, is the function SetColumn.

## Findings

| source | as written | input that shows it | evidently intended | confidence | as-written member | corrected member |
|---|---|---|---|---|---|---|
| linalg/Sources/Matrix.swift:79-85 | `precondition(count % numCols == 0)` lets negative column counts through, because Swift's `%` ignores the divisor's sign | `Matrix(elementsColMajor: [1, 2, 3, 4], numCols: -2)` stores nRows = -2, nCols = -2 | only positive column counts are accepted | not executed; high | Findings.ColMajorShapeAsWritten, Findings.NegativeColumnCountAccepted | Storage.FromColumnMajor (with Findings.ColMajorCorrected) |
| linalg/Sources/Matrix.swift:91-98 | `precondition(count % numRows == 0)` lets a negative row count through; with no elements both loops are skipped | `Matrix(elementsRowMajor: [], numRows: -3)` stores nRows = -3 | only positive row counts are accepted | not executed; high | Findings.RowMajorShapeAsWritten, Findings.NegativeRowCountAccepted | Storage.FromRowMajor (with Findings.RowMajorCorrected) |
| linalg/Sources/Matrix+Cramer.swift:28-49 | only 2-by-2 is a base case; a 1-by-1 matrix enters the expansion loop, whose minor is built with `numCols: 0`, and `0 % 0` traps | `Matrix(columnVector: [5.0]).determinant()` | the determinant of [a] is a, so 1-by-1 systems can be solved | not executed; high | Findings.DeterminantAsWritten, Findings.OneByOneDeterminantCrashes | Findings.Determinant (with Findings.TwoByTwoIsExpansion, Findings.OneByOneCramer) |

The matrix model uses the corrected initialisers: the counts are natural numbers and must be positive. Findings.Determinant agrees with Cramer.Det on every size the code handles. The determinant theory and Cramer's rule are stated for sizes from 2 up, where the two coincide.
