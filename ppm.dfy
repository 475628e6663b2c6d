/** The plain PPM (P3) text of a canvas: the header, then every row's colours as numbers in
    0 .. 255, broken into lines of at most 70 characters. The output stream is modelled by the
    text written to it. */
module PortablePixmap {
  import opened CppStd
  import opened Outcomes
  import opened ValueTypes
  import opened Indices
  import opened Colors
  import opened Canvases

  /** The longest line the pixel printer writes. */
  const MaxLineWidth: nat := 70

  // ---------------------------------------------------------------------------------------
  // Numbers as text
  // ---------------------------------------------------------------------------------------

  predicate IsDigit(c: char) {
    '0' <= c <= '9'
  }

  function DigitChar(d: nat): (c: char)
    requires d < 10
    ensures IsDigit(c)
  {
    ('0' as int + d) as char
  }

  /** operator<< on an unsigned number: its decimal digits, most significant first, without
      leading zeros. */
  function Decimal(n: nat): (s: string)
    ensures |s| >= 1
    ensures forall i :: 0 <= i < |s| ==> IsDigit(s[i])
  {
    if n < 10 then [DigitChar(n)] else Decimal(n / 10) + [DigitChar(n % 10)]
  }

  function DigitValue(c: char): (d: nat)
    requires IsDigit(c)
    ensures d < 10
  {
    c as int - '0' as int
  }

  /** The number a string of decimal digits denotes. */
  function DecimalValue(s: string): nat
    requires forall i :: 0 <= i < |s| ==> IsDigit(s[i])
  {
    if s == [] then 0 else DecimalValue(s[..|s| - 1]) * 10 + DigitValue(s[|s| - 1])
  }

  /** Reading the printed digits back gives the number. */
  lemma {:induction false} DecimalRoundTrip(n: nat)
    ensures DecimalValue(Decimal(n)) == n
  {
    if n >= 10 {
      var s := Decimal(n);
      assert s[..|s| - 1] == Decimal(n / 10);
      DecimalRoundTrip(n / 10);
    }
  }

  function TenPow(k: nat): (r: nat)
    ensures r >= 1
  {
    if k == 0 then 1 else 10 * TenPow(k - 1)
  }

  /** The number of printed digits is the number of decimal digits: n lies below 10^digits, and
      at or above 10^(digits - 1) unless it is a single digit. */
  lemma {:induction false} DigitsBound(n: nat)
    ensures n < TenPow(|Decimal(n)|)
    ensures |Decimal(n)| > 1 ==> TenPow(|Decimal(n)| - 1) <= n
  {
    if n >= 10 {
      DigitsBound(n / 10);
    }
  }

  /** Numbers below 1000, as every colour value is, take one to three digits. */
  lemma {:induction false} AtMostThreeDigits(n: nat)
    requires n < 1000
    ensures 1 <= |Decimal(n)| <= 3
  {
    DigitsBound(n);
    if |Decimal(n)| > 3 {
      assert TenPow(3) == 1000;
      TenPowIsMonotonic(3, |Decimal(n)| - 1);
    }
  }

  lemma {:induction false} TenPowIsMonotonic(j: nat, k: nat)
    requires j <= k
    ensures TenPow(j) <= TenPow(k)
  {
    if j < k {
      TenPowIsMonotonic(j, k - 1);
    }
  }

  /** countDigits: the loop dividing by ten counts the digits that operator<< prints. */
  method CountDigits(value: Unsigned) returns (digits: nat)
    ensures digits == |Decimal(value)|
  {
    digits := 1;
    var remaining: nat := value / 10;
    while remaining != 0
      invariant |Decimal(value)| == digits + (if remaining == 0 then 0 else |Decimal(remaining)|)
    {
      assert remaining / 10 == 0 <==> remaining < 10;
      digits := digits + 1;
      remaining := remaining / 10;
    }
  }

  // ---------------------------------------------------------------------------------------
  // Colours as text
  // ---------------------------------------------------------------------------------------

  /** colorToUnsigned: the channel scaled to 0 .. 255, rounded half away from zero and clamped.
      A channel in [0, 1] becomes the nearest of the 256 levels; anything beyond saturates. */
  function ColorToUnsigned(value: real): (r: Unsigned)
    ensures r <= 255
    ensures value >= 1.0 ==> r == 255
    ensures value <= 0.0 ==> r == 0
    ensures 0.0 <= value <= 1.0 ==> value * 255.0 - 0.5 <= r as real <= value * 255.0 + 0.5
  {
    var rounded := Round(value * 255.0);
    if rounded < 0 then 0 else if rounded > 255 then 255 else rounded
  }

  /** Each of the 256 levels, as a channel k / 255, is printed as k. */
  lemma {:induction false} LevelRoundTrip(k: nat)
    requires k <= 255
    ensures ColorToUnsigned(k as real / 255.0) == k
  {
    assert (k as real / 255.0) * 255.0 == k as real;
  }

  /** A brighter channel never prints as a smaller number. */
  lemma {:induction false} ColorToUnsignedIsMonotonic(v: real, w: real)
    requires v <= w
    ensures ColorToUnsigned(v) <= ColorToUnsigned(w)
  {
    RoundIsMonotonic(v * 255.0, w * 255.0);
  }

  lemma {:induction false} RoundIsMonotonic(v: real, w: real)
    requires v <= w
    ensures Round(v) <= Round(w)
  {
    if 0.0 <= v {
      assert (v + 0.5).Floor <= (w + 0.5).Floor by {
        FloorIsMonotonic(v + 0.5, w + 0.5);
      }
    } else if w < 0.0 {
      assert (0.5 - w).Floor <= (0.5 - v).Floor by {
        FloorIsMonotonic(0.5 - w, 0.5 - v);
      }
    }
  }

  lemma {:induction false} FloorIsMonotonic(a: real, b: real)
    requires a <= b
    ensures a.Floor <= b.Floor
  {
    assert a.Floor as real <= a && b < b.Floor as real + 1.0;
  }

  /** The channels of the printing tests: 1.5 saturates to 255, 0.5 rounds up to 128, -0.5
      clamps to 0, and 0.8 and 0.6 are the levels 204 and 153. */
  lemma ColorToUnsignedExamples()
    ensures ColorToUnsigned(1.5) == 255 && ColorToUnsigned(0.5) == 128 && ColorToUnsigned(-0.5) == 0
    ensures ColorToUnsigned(0.8) == 204 && ColorToUnsigned(0.6) == 153
  {
    assert Round(127.5) == 128;
    assert Round(204.0) == 204 && Round(153.0) == 153;
  }

  /** printPPMColor: the three channel numbers separated by single spaces; it holds no line break
      and takes 5 to 11 characters. */
  function PPMColor(color: Color): (s: string)
    ensures '\n' !in s
    ensures 5 <= |s| <= 11
  {
    var red, green, blue := ColorToUnsigned(color.red), ColorToUnsigned(color.green), ColorToUnsigned(color.blue);
    AtMostThreeDigits(red);
    AtMostThreeDigits(green);
    AtMostThreeDigits(blue);
    Decimal(red) + " " + Decimal(green) + " " + Decimal(blue)
  }

  /** colorOutputWidth: two separators plus the digit counts of the three channels, which is the
      length of what printPPMColor writes. */
  method ColorOutputWidth(color: Color) returns (width: nat)
    ensures width == |PPMColor(color)|
    ensures 5 <= width <= 11
  {
    width := 2;
    var digits := CountDigits(ColorToUnsigned(color.red));
    width := width + digits;
    digits := CountDigits(ColorToUnsigned(color.green));
    width := width + digits;
    digits := CountDigits(ColorToUnsigned(color.blue));
    width := width + digits;
  }

  /** The printed colours of a sequence of pixels. */
  function PPMColors(colors: seq<Color>): (words: seq<string>)
    ensures |words| == |colors|
    ensures forall i :: 0 <= i < |colors| ==> words[i] == PPMColor(colors[i])
  {
    seq(|colors|, i requires 0 <= i < |colors| => PPMColor(colors[i]))
  }

  /** The saturated red of the printing test as text. */
  lemma {:induction false} SaturatedRedText()
    ensures PPMColor(Color(1.5, 0.0, 0.0)) == "255 0 0"
  {
    assert ColorToUnsigned(1.5) == 255 by {
      ColorToUnsignedExamples();
    }
    assert Decimal(255) == "255";
  }

  /** The clamped blue of the printing test as text. */
  lemma {:induction false} ClampedBlueText()
    ensures PPMColor(Color(-0.5, 0.0, 1.0)) == "0 0 255"
  {
    assert ColorToUnsigned(-0.5) == 0 by {
      ColorToUnsignedExamples();
    }
    assert Decimal(255) == "255";
  }

  /** The navajo white of the line-width test as text: eleven characters. */
  lemma {:induction false} NavajoWhiteText()
    ensures PPMColor(Color(1.0, 0.8, 0.6)) == "255 204 153"
  {
    assert ColorToUnsigned(0.8) == 204 && ColorToUnsigned(0.6) == 153 by {
      ColorToUnsignedExamples();
    }
    assert Decimal(255) == "255" && Decimal(204) == "204" && Decimal(153) == "153";
  }

  // ---------------------------------------------------------------------------------------
  // Lines
  // ---------------------------------------------------------------------------------------

  /** The length of the last line once s is written after a line of n characters. */
  function LineLengthAfter(s: string, n: nat): nat
    decreases |s|
  {
    if s == [] then n else LineLengthAfter(s[1..], if s[0] == '\n' then 0 else n + 1)
  }

  /** Written after a line of n characters, s never makes a line longer than limit. */
  predicate LinesFit(s: string, n: nat, limit: nat)
    decreases |s|
  {
    n <= limit && (s == [] || LinesFit(s[1..], if s[0] == '\n' then 0 else n + 1, limit))
  }

  /** Writing a then b fits exactly when a fits and b fits after a's last line. */
  lemma {:induction false} LinesFitAppend(a: string, b: string, n: nat, limit: nat)
    ensures LinesFit(a + b, n, limit) <==> LinesFit(a, n, limit) && LinesFit(b, LineLengthAfter(a, n), limit)
    ensures LineLengthAfter(a + b, n) == LineLengthAfter(b, LineLengthAfter(a, n))
    decreases |a|
  {
    if a != [] {
      assert (a + b)[0] == a[0] && (a + b)[1..] == a[1..] + b;
      LinesFitAppend(a[1..], b, if a[0] == '\n' then 0 else n + 1, limit);
    } else {
      assert a + b == b;
    }
  }

  /** Text that fits leaves a line no longer than the limit. */
  lemma {:induction false} LinesFitEnd(s: string, n: nat, limit: nat)
    requires LinesFit(s, n, limit)
    ensures LineLengthAfter(s, n) <= limit
    decreases |s|
  {
    if s != [] {
      LinesFitEnd(s[1..], if s[0] == '\n' then 0 else n + 1, limit);
    }
  }

  /** A line that fits, ended by a line break, after whole lines that fit: the result is whole
      lines that fit. */
  lemma {:induction false} LinesFitLineAfterLines(text: string, line: string)
    requires LinesFit(text, 0, MaxLineWidth) && LineLengthAfter(text, 0) == 0
    requires LinesFit(line, 0, MaxLineWidth)
    ensures LinesFit(text + line + "\n", 0, MaxLineWidth) && LineLengthAfter(text + line + "\n", 0) == 0
  {
    LinesFitAppend(text, line, 0, MaxLineWidth);
    LinesFitAppend(text + line, "\n", 0, MaxLineWidth);
    LinesFitEnd(line, 0, MaxLineWidth);
    LinesFitBreak(LineLengthAfter(line, 0), MaxLineWidth);
  }

  /** Text without a line break lengthens the current line by its own length. */
  lemma {:induction false} LinesFitWithoutBreak(s: string, n: nat, limit: nat)
    requires '\n' !in s
    ensures LineLengthAfter(s, n) == n + |s|
    ensures LinesFit(s, n, limit) <==> n + |s| <= limit
    decreases |s|
  {
    if s != [] {
      assert s[0] in s;
      assert forall c :: c in s[1..] ==> c in s;
      LinesFitWithoutBreak(s[1..], n + 1, limit);
    }
  }

  /** A line break ends the line. */
  lemma {:induction false} LinesFitBreak(n: nat, limit: nat)
    requires n <= limit
    ensures LinesFit("\n", n, limit) && LineLengthAfter("\n", n) == 0
  {
    assert "\n"[1..] == [];
  }

  // ---------------------------------------------------------------------------------------
  // Rows
  // ---------------------------------------------------------------------------------------

  /** What the pixel-row printer writes before a colour of the given width when n characters are
      on the line: a line break when the colour, with its space, would take the line past 70
      characters; a space within a line; nothing at the start of one. */
  function Separator(n: nat, width: nat): string {
    if n + width + (if n > 0 then 1 else 0) > MaxLineWidth then "\n" else if n > 0 then " " else ""
  }

  /** The characters on the line once that colour is written. */
  function LengthAfterColour(n: nat, width: nat): nat {
    if n + width + (if n > 0 then 1 else 0) > MaxLineWidth then width else if n > 0 then n + 1 + width else width
  }

  /** The text the pixel-row printer writes for the printed colours `words` when n characters
      are already on the line. */
  function WrapRow(words: seq<string>, n: nat): string
    decreases |words|
  {
    if words == [] then []
    else Separator(n, |words[0]|) + words[0] + WrapRow(words[1..], LengthAfterColour(n, |words[0]|))
  }

  /** Writing one more colour: the separator and the colour join the text written so far. */
  lemma {:induction false} WrapRowStep(words: seq<string>, column: nat, n: nat, text: string)
    requires column < |words|
    ensures var width := |words[column]|;
      text + WrapRow(words[column..], n)
        == (text + Separator(n, width) + words[column]) + WrapRow(words[column + 1..], LengthAfterColour(n, width))
  {
    assert words[column..][0] == words[column] && words[column..][1..] == words[column + 1..];
  }

  /** The row printer's step: after the separator and the next colour are written, what is left
      to write is the rest of the row. */
  lemma {:induction false} WrapRowAdvance(words: seq<string>, column: nat, previous: nat, before: string,
                                          text: string, n: nat)
    requires column < |words|
    requires before + WrapRow(words[column..], previous) == WrapRow(words, 0)
    requires text == before + Separator(previous, |words[column]|) + words[column]
    requires n == LengthAfterColour(previous, |words[column]|)
    ensures text + WrapRow(words[column + 1..], n) == WrapRow(words, 0)
  {
    WrapRowStep(words, column, previous, before);
  }

  /** No line of the row text is longer than 70 characters, when no colour is. */
  lemma {:induction false} RowLinesFit(words: seq<string>, n: nat)
    requires n <= MaxLineWidth
    requires forall i :: 0 <= i < |words| ==> '\n' !in words[i] && |words[i]| <= MaxLineWidth
    ensures LinesFit(WrapRow(words, n), n, MaxLineWidth)
    decreases |words|
  {
    if words != [] {
      var word, width, rest := words[0], |words[0]|, words[1..];
      var separator, next := Separator(n, width), LengthAfterColour(n, width);
      var start: nat := if separator == "\n" then 0 else if n > 0 then n + 1 else 0;
      if separator == "\n" {
        LinesFitBreak(n, MaxLineWidth);
      } else {
        LinesFitWithoutBreak(separator, n, MaxLineWidth);
      }
      assert LinesFit(separator, n, MaxLineWidth) && LineLengthAfter(separator, n) == start;
      LinesFitWithoutBreak(word, start, MaxLineWidth);
      assert next == start + width;
      RowLinesFit(rest, next);
      LinesFitAppend(word, WrapRow(rest, next), start, MaxLineWidth);
      LinesFitAppend(separator, word + WrapRow(rest, next), n, MaxLineWidth);
      assert separator + word + WrapRow(rest, next) == separator + (word + WrapRow(rest, next));
    }
  }

  /** The words, each preceded by its own separator character. */
  function Separated(words: seq<string>, separators: seq<char>): string
    requires |separators| == |words|
    decreases |words|
  {
    if words == [] then [] else [separators[0]] + words[0] + Separated(words[1..], separators[1..])
  }

  /** After the first colour of a line, every colour is preceded by exactly one separator, a space
      or a line break: the row text breaks lines only between colours, never inside one. */
  lemma {:induction false} RowKeepsColoursWhole(words: seq<string>, n: nat) returns (separators: seq<char>)
    requires n > 0
    requires forall i :: 0 <= i < |words| ==> |words[i]| >= 1
    ensures |separators| == |words|
    ensures forall i :: 0 <= i < |separators| ==> separators[i] == ' ' || separators[i] == '\n'
    ensures WrapRow(words, n) == Separated(words, separators)
    decreases |words|
  {
    if words == [] {
      separators := [];
    } else {
      var width := |words[0]|;
      var next := LengthAfterColour(n, width);
      var rest := RowKeepsColoursWhole(words[1..], next);
      separators := [Separator(n, width)[0]] + rest;
      assert separators[1..] == rest;
    }
  }

  /** A row text starts with its first colour, when no colour is longer than a line, and every
      later colour follows one space or one line break: so no line of it is empty. */
  lemma {:induction false} RowStartsWithColour(words: seq<string>) returns (separators: seq<char>)
    requires words != []
    requires forall i :: 0 <= i < |words| ==> 1 <= |words[i]| <= MaxLineWidth
    ensures |separators| == |words| - 1
    ensures forall i :: 0 <= i < |separators| ==> separators[i] == ' ' || separators[i] == '\n'
    ensures WrapRow(words, 0) == words[0] + Separated(words[1..], separators)
  {
    assert Separator(0, |words[0]|) == "";
    separators := RowKeepsColoursWhole(words[1..], |words[0]|);
  }

  /** The colours of one row of the canvas, left to right. */
  ghost function RowColours(canvas: Canvas, row: nat): (colors: seq<Color>)
    reads canvas.data
    requires canvas.Valid() && row < canvas.rows.value
    ensures |colors| == canvas.columns.value
  {
    RowIsInBuffer(row, canvas.rows.value, canvas.columns.value);
    canvas.data[row * canvas.columns.value .. row * canvas.columns.value + canvas.columns.value]
  }

  /** The colour in a column of the row is the canvas's pixel there. */
  lemma {:induction false} RowColourIsPixel(canvas: Canvas, row: Row, column: nat)
    requires canvas.Valid() && row.value < canvas.rows.value && column < canvas.columns.value
    ensures RowColours(canvas, row.value)[column] == canvas.data[canvas.ToAbsoluteOffset(CanvasIndex(ValueType(column), row))]
  {
    var start := row.value * canvas.columns.value;
    var index := CanvasIndex(ValueType(column), row);
    RowIsInBuffer(row.value, canvas.rows.value, canvas.columns.value);
    assert canvas.InBounds(index);
    assert canvas.ToAbsoluteOffset(index) == start + column;
    assert RowColours(canvas, row.value) == canvas.data[start .. start + canvas.columns.value];
  }

  /** The part of the row printer's step before a colour of width outputWidth: a line break when
      the colour would take the line past 70 characters, then a space unless the line is empty. */
  method WriteSeparator(text: string, nOfCharsInRow: nat, outputWidth: nat) returns (written: string, n: nat)
    ensures written == text + Separator(nOfCharsInRow, outputWidth)
    ensures n + outputWidth == LengthAfterColour(nOfCharsInRow, outputWidth)
  {
    written, n := text, nOfCharsInRow;
    var widthAfterOutput := nOfCharsInRow + outputWidth + (if nOfCharsInRow > 0 then 1 else 0);
    if widthAfterOutput > MaxLineWidth {
      written := written + "\n";
      n := 0;
    }
    if n > 0 {
      written := written + " ";
      n := n + 1;
    }
  }

  /** printPPMPixelRow: the row's colours, wrapped as WrapRow describes (RowLinesFit shows that
      no line of it is longer than 70 characters). Reading a row that is not on the canvas
      throws, unless it has no columns. */
  method PrintPPMPixelRow(canvas: Canvas, row: Row) returns (r: Result<string>)
    requires canvas.Valid()
    ensures r.Err? <==> row.value >= canvas.rows.value && canvas.columns.value > 0
    ensures r.Err? ==> r.error == InvalidArgument
    ensures r.Ok? && row.value < canvas.rows.value ==> r.value == WrapRow(PPMColors(RowColours(canvas, row.value)), 0)
    ensures r.Ok? && canvas.columns.value == 0 ==> r.value == []
  {
    var text: string := [];
    var nOfCharsInRow: nat := 0;
    var column: nat := 0;
    ghost var words: seq<string> := if row.value < canvas.rows.value then PPMColors(RowColours(canvas, row.value)) else [];
    while column < canvas.columns.value
      invariant column <= canvas.columns.value
      invariant column > 0 ==> row.value < canvas.rows.value
      invariant column == 0 ==> text == [] && nOfCharsInRow == 0
      invariant row.value < canvas.rows.value
        ==> text + WrapRow(words[column..], nOfCharsInRow) == WrapRow(words, 0)
    {
      var cell := canvas.At(CanvasIndex(ValueType(column), row));
      if cell.Err? {
        return Err(cell.error);
      }
      var cellColor := cell.value;
      RowColourIsPixel(canvas, row, column);
      assert words[column] == PPMColor(cellColor);
      var outputWidth := ColorOutputWidth(cellColor);
      ghost var before, previous := text, nOfCharsInRow;
      text, nOfCharsInRow := WriteSeparator(text, nOfCharsInRow, outputWidth);
      text := text + PPMColor(cellColor);
      nOfCharsInRow := nOfCharsInRow + outputWidth;
      WrapRowAdvance(words, column, previous, before, text, nOfCharsInRow);
      column := column + 1;
    }
    r := Ok(text);
  }

  /** The text of the first n rows: each row's text followed by one line break, in row order. */
  ghost function PixelsText(canvas: Canvas, n: nat): string
    reads canvas.data
    requires canvas.Valid() && n <= canvas.rows.value
  {
    if n == 0 then [] else PixelsText(canvas, n - 1) + WrapRow(PPMColors(RowColours(canvas, n - 1)), 0) + "\n"
  }

  /** printPPMPixels: every row's text followed by a line break, in row order (PixelsFit shows
      that no line of it is longer than 70 characters). */
  method PrintPPMPixels(canvas: Canvas) returns (text: string)
    requires canvas.Valid()
    ensures text == PixelsText(canvas, canvas.rows.value)
  {
    text := [];
    var row: nat := 0;
    while row < canvas.rows.value
      invariant row <= canvas.rows.value
      invariant text == PixelsText(canvas, row)
    {
      var rowText := PrintPPMPixelRow(canvas, ValueType(row));
      ghost var line := WrapRow(PPMColors(RowColours(canvas, row)), 0);
      assert rowText == Ok(line);
      assert PixelsText(canvas, row + 1) == PixelsText(canvas, row) + line + "\n";
      text := text + rowText.value + "\n";
      row := row + 1;
    }
  }

  /** No line of the pixel text is longer than 70 characters, and the text ends a line. */
  lemma {:induction false} PixelsFit(canvas: Canvas, n: nat)
    requires canvas.Valid() && n <= canvas.rows.value
    ensures LinesFit(PixelsText(canvas, n), 0, MaxLineWidth) && LineLengthAfter(PixelsText(canvas, n), 0) == 0
  {
    if n == 0 {
      assert LinesFit([], 0, MaxLineWidth);
    } else {
      PixelsFit(canvas, n - 1);
      var words := PPMColors(RowColours(canvas, n - 1));
      RowLinesFit(words, 0);
      LinesFitLineAfterLines(PixelsText(canvas, n - 1), WrapRow(words, 0));
    }
  }

  /** printPPMHeader: the magic number, the columns and rows, and the largest colour value, each
      on a line of its own. */
  function PPMHeader(columns: Column, rows: Row): (header: string)
    ensures |header| >= 10 && header[..3] == "P3\n" && header[|header| - 4..] == "255\n"
  {
    "P3\n" + Decimal(columns.value) + " " + Decimal(rows.value) + "\n" + "255\n"
  }

  /** The header's second line reads back as the canvas size. */
  lemma {:induction false} HeaderReadsBack(columns: Column, rows: Row)
    ensures var width, height := Decimal(columns.value), Decimal(rows.value);
      PPMHeader(columns, rows) == "P3\n" + width + " " + height + "\n255\n"
      && DecimalValue(width) == columns.value && DecimalValue(height) == rows.value
  {
    DecimalRoundTrip(columns.value);
    DecimalRoundTrip(rows.value);
  }

  /** A 5 x 3 canvas has the header P3, 5 3, 255. */
  lemma HeaderExample()
    ensures PPMHeader(ColumnLiteral(5), RowLiteral(3)) == "P3\n5 3\n255\n"
  {
  }

  /** printPPM: the header followed by the pixels. */
  method PrintPPM(canvas: Canvas) returns (text: string)
    requires canvas.Valid()
    ensures text == PPMHeader(canvas.columns, canvas.rows) + PixelsText(canvas, canvas.rows.value)
  {
    var pixels := PrintPPMPixels(canvas);
    text := PPMHeader(canvas.columns, canvas.rows) + pixels;
  }
}
