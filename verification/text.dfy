/** The string operations the printers are built from, modelled on the Swift standard
    library calls they make: `String(repeating:count:)`, `joined(separator:)`,
    `padding(toLength:withPad:startingAt:)` and the decimal text of an `Int`. A string is
    a sequence of characters. */
module Text {

  /** `String(repeating: " ", count: n)`. */
  function Spaces(n: nat): (s: string)
    ensures |s| == n
    ensures forall i {:trigger s[i]} :: 0 <= i < n ==> s[i] == ' '
  {
    seq(n, _ => ' ')
  }

  // ---------------------------------------------------------------------------
  // Joining and splitting
  // ---------------------------------------------------------------------------

  /** `parts.joined(separator: sep)`: the parts in order with sep between neighbours. */
  function Join(parts: seq<string>, sep: string): string {
    if |parts| == 0 then ""
    else if |parts| == 1 then parts[0]
    else parts[0] + sep + Join(parts[1..], sep)
  }

  /** The pieces of s between the occurrences of c, in order, empty pieces included: one
      more piece than s has occurrences of c. It is the reference Join is checked against. */
  function Split(s: string, c: char): (pieces: seq<string>)
    ensures |pieces| >= 1
    ensures forall i {:trigger pieces[i]} :: 0 <= i < |pieces| ==> c !in pieces[i]
    decreases |s|
  {
    if |s| == 0 then [""]
    else
      var rest := Split(s[1..], c);
      if s[0] == c then [""] + rest else [[s[0]] + rest[0]] + rest[1..]
  }

  /** Joining one more part at the end adds the separator and that part. */
  lemma {:induction false} JoinSnoc(parts: seq<string>, sep: string, last: string)
    requires |parts| >= 1
    ensures Join(parts + [last], sep) == Join(parts, sep) + sep + last
    decreases |parts|
  {
    if |parts| == 1 {
      assert (parts + [last])[1..] == [last];
    } else {
      assert (parts + [last])[1..] == parts[1..] + [last];
      JoinSnoc(parts[1..], sep, last);
    }
  }

  /** A character that is neither in the parts nor in the separator is not in the join. */
  lemma {:induction false} JoinAvoids(parts: seq<string>, sep: string, c: char)
    requires c !in sep
    requires forall i {:trigger parts[i]} :: 0 <= i < |parts| ==> c !in parts[i]
    ensures c !in Join(parts, sep)
    decreases |parts|
  {
    if |parts| > 1 {
      JoinAvoids(parts[1..], sep, c);
    }
  }

  /** The length of a join depends only on the lengths of the parts. */
  lemma {:induction false} JoinLengthsAgree(a: seq<string>, b: seq<string>, sep: string)
    requires |a| == |b|
    requires forall i {:trigger a[i]} {:trigger b[i]} :: 0 <= i < |a| ==> |a[i]| == |b[i]|
    ensures |Join(a, sep)| == |Join(b, sep)|
    decreases |a|
  {
    if |a| > 1 {
      JoinLengthsAgree(a[1..], b[1..], sep);
    }
  }

  /** The summed lengths of the parts. */
  function TotalLength(parts: seq<string>): nat {
    if |parts| == 0 then 0 else |parts[0]| + TotalLength(parts[1..])
  }

  /** A join is as long as its parts together plus one separator between each two
      neighbours. */
  lemma {:induction false} JoinLength(parts: seq<string>, sep: string)
    ensures |parts| == 0 ==> |Join(parts, sep)| == 0
    ensures |parts| >= 1 ==> |Join(parts, sep)| == TotalLength(parts) + (|parts| - 1) * |sep|
    decreases |parts|
  {
    if |parts| > 1 {
      JoinLength(parts[1..], sep);
    }
  }

  /** Splitting a prefix free of c leaves it at the front of the first piece. */
  lemma {:induction false} SplitPrefix(p: string, t: string, c: char)
    requires c !in p
    ensures Split(p + t, c) == [p + Split(t, c)[0]] + Split(t, c)[1..]
    decreases |p|
  {
    var rest := Split(t, c);
    if |p| == 0 {
      assert p + t == t && p + rest[0] == rest[0];
      assert rest == [rest[0]] + rest[1..];
    } else {
      assert (p + t)[1..] == p[1..] + t;
      SplitPrefix(p[1..], t, c);
      assert [p[0]] + (p[1..] + Split(t, c)[0]) == p + Split(t, c)[0];
    }
  }

  /** Join and Split are inverse: joining parts free of c with c between them and splitting
      the result at c gives the parts back. */
  lemma {:induction false} SplitJoin(parts: seq<string>, c: char)
    requires |parts| >= 1
    requires forall i {:trigger parts[i]} :: 0 <= i < |parts| ==> c !in parts[i]
    ensures Split(Join(parts, [c]), c) == parts
    decreases |parts|
  {
    if |parts| == 1 {
      SplitPrefix(parts[0], "", c);
      assert parts[0] + "" == parts[0];
    } else {
      var rest := Join(parts[1..], [c]);
      SplitJoin(parts[1..], c);
      assert ([c] + rest)[1..] == rest;
      assert Split([c] + rest, c) == [""] + parts[1..];
      SplitPrefix(parts[0], [c] + rest, c);
      assert Join(parts, [c]) == parts[0] + ([c] + rest);
      assert parts[0] + "" == parts[0];
      assert [parts[0]] + parts[1..] == parts;
    }
  }

  // ---------------------------------------------------------------------------
  // Padding and widths
  // ---------------------------------------------------------------------------

  /** `s.padding(toLength: width, withPad: " ", startingAt: 0)`: exactly width characters,
      s cut short when it is longer and filled up with spaces on the right otherwise. */
  function PadRight(s: string, width: nat): (p: string)
    ensures |p| == width
    ensures width <= |s| ==> p == s[..width]
    ensures |s| <= width ==> p[..|s|] == s
    ensures forall i {:trigger p[i]} :: |s| <= i < width ==> p[i] == ' '
  {
    if width <= |s| then s[..width] else s + Spaces(width - |s|)
  }

  /** The length of the longest string in texts, scanning from the front and starting from
      0, as a running `max` does. */
  function MaxLength(texts: seq<string>): (w: nat)
    ensures forall i {:trigger texts[i]} :: 0 <= i < |texts| ==> |texts[i]| <= w
    ensures |texts| == 0 ==> w == 0
    ensures |texts| > 0 ==> exists i {:trigger texts[i]} :: 0 <= i < |texts| && |texts[i]| == w
  {
    if |texts| == 0 then 0
    else
      var before := MaxLength(texts[..|texts| - 1]);
      var last := |texts[|texts| - 1]|;
      if before < last then last else before
  }

  // ---------------------------------------------------------------------------
  // Decimal text of an integer
  // ---------------------------------------------------------------------------

  function DigitChar(d: int): char
    requires 0 <= d < 10
  {
    ('0' as int + d) as char
  }

  function DigitValue(ch: char): int {
    if '0' <= ch <= '9' then ch as int - '0' as int else 0
  }

  /** The decimal digits of n, most significant first, without leading zeros. */
  function Digits(n: nat): (s: string)
    ensures |s| >= 1
    ensures forall i {:trigger s[i]} :: 0 <= i < |s| ==> '0' <= s[i] <= '9'
    ensures n > 0 ==> s[0] != '0'
  {
    if n < 10 then [DigitChar(n)] else Digits(n / 10) + [DigitChar(n % 10)]
  }

  /** The number a string of decimal digits denotes. */
  function DecimalValue(s: string): int {
    if |s| == 0 then 0 else 10 * DecimalValue(s[..|s| - 1]) + DigitValue(s[|s| - 1])
  }

  /** Reading the digits back gives the number. */
  lemma {:induction false} DigitsRoundTrip(n: nat)
    ensures DecimalValue(Digits(n)) == n
  {
    var s := Digits(n);
    if n >= 10 {
      DigitsRoundTrip(n / 10);
      assert s[..|s| - 1] == Digits(n / 10);
      assert DigitValue(s[|s| - 1]) == n % 10;
    } else {
      assert s[..0] == [];
    }
  }

  /** `"\(i)"` for an `Int`: a minus sign for negative numbers, then the digits. */
  function IntToString(i: int): (s: string)
    ensures '\n' !in s
  {
    if i < 0 then "-" + Digits(-i) else Digits(i)
  }

  /** Reading an `Int`'s text back. */
  function ParseInt(s: string): int {
    if |s| > 0 && s[0] == '-' then -DecimalValue(s[1..]) else DecimalValue(s)
  }

  /** IntToString loses nothing: ParseInt recovers the number. */
  lemma IntRoundTrip(i: int)
    ensures ParseInt(IntToString(i)) == i
  {
    if i < 0 {
      DigitsRoundTrip(-i);
      assert ("-" + Digits(-i))[1..] == Digits(-i);
    } else {
      DigitsRoundTrip(i);
    }
  }
}
