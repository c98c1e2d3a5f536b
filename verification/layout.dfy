/** Results that carry the source's errors as values. */
module Results {
  datatype Option<+T> = None | Some(value: T)
  datatype Result<+T, +E> = Ok(value: T) | Err(error: E) {
    predicate IsFailure() { Err? }

    function PropagateFailure<U>(): Result<U, E>
      requires Err?
    {
      Err(error)
    }

    function Extract(): T
      requires Ok?
    {
      value
    }
  }
}

/** The receipt layout shared by the ESC/POS printer, its parser and the page renderer. */
module Layout {
  import opened Bytes

  datatype ReceiptWidth = Mm58 | Mm80
  datatype Alignment = Left | Center | Right
  datatype BarcodeFormat = Code128 | Code39 | Ean13 | UpcA

  datatype ReceiptImage = ReceiptImage(width: nat, height: nat, dpi: nat, stride: nat, data: seq<byte>)

  datatype Element =
    | Text(value: Ascii, alignment: Alignment, bold: bool)
    | Row(left: Ascii, right: Ascii)
    | Divider
    | Image(image: ReceiptImage)
    | Qr(content: seq<byte>)
    | Barcode(format: BarcodeFormat, code: Ascii, heightDots: byte, humanReadable: bool)
    | Feed(lines: byte)
    | Cut

  datatype PrintLayout = PrintLayout(width: ReceiptWidth, elements: seq<Element>)

  function Columns(width: ReceiptWidth): nat {
    match width case Mm58 => 32 case Mm80 => 48
  }
}

/** Two-column rows: one padded line when both cells fit, wrapped columns otherwise. */
module Rows {
  import opened Bytes
  import opened Wrapping

  function Max(a: int, b: int): int { if a < b then b else a }

  /** Terminal width of ASCII text: every byte is one column, except that CR LF counts once. */
  function DisplayWidth(s: Ascii): (w: nat)
    ensures w <= |s|
    ensures (RETURN !in s || NEWLINE !in s) ==> w == |s|
  {
    if s == [] then 0
    else if |s| >= 2 && s[0] == RETURN && s[1] == NEWLINE then 1 + DisplayWidth(s[2..])
    else 1 + DisplayWidth(s[1..])
  }

  function LineAt(lines: seq<Ascii>, index: nat): Ascii {
    if index < |lines| then lines[index] else []
  }

  function LeftWidth(width: nat): nat { width * 3 / 5 }

  function RightWidth(width: nat): nat { Max(width - (LeftWidth(width) + 1), 0) }

  function ColumnLine(left: Ascii, right: Ascii, width: nat): Ascii {
    left + Repeat(SPACE, Max(width - (|left| + |right|), 1)) + right
  }

  function JoinColumns(lefts: seq<Ascii>, rights: seq<Ascii>, index: nat, width: nat): seq<Ascii>
    decreases Max(|lefts|, |rights|) - index
  {
    if index >= Max(|lefts|, |rights|) then []
    else [ColumnLine(LineAt(lefts, index), LineAt(rights, index), width)]
         + JoinColumns(lefts, rights, index + 1, width)
  }

  predicate FitsOneLine(left: Ascii, right: Ascii, width: nat) {
    DisplayWidth(left) + DisplayWidth(right) < width
  }

  function LaidOut(left: Ascii, right: Ascii, width: nat): seq<Ascii> {
    if FitsOneLine(left, right, width) then
      [left + Repeat(SPACE, width - DisplayWidth(left) - DisplayWidth(right)) + right]
    else
      JoinColumns(Wrapped(left, Max(LeftWidth(width), 1)), Wrapped(right, Max(RightWidth(width), 1)), 0, width)
  }

  // ---------- Reading the columns back ----------

  /** The lines up to a column, and from it on. */
  function LeftOf(lines: seq<Ascii>, column: nat): seq<Ascii> {
    if lines == [] then []
    else [if column <= |lines[0]| then lines[0][..column] else lines[0]] + LeftOf(lines[1..], column)
  }

  function RightOf(lines: seq<Ascii>, column: nat): seq<Ascii> {
    if lines == [] then []
    else [if column <= |lines[0]| then lines[0][column..] else []] + RightOf(lines[1..], column)
  }

  function From(lines: seq<Ascii>, index: nat): seq<Ascii> { if index < |lines| then lines[index..] else [] }

  ghost predicate AtMost(lines: seq<Ascii>, width: nat) { forall i :: 0 <= i < |lines| ==> |lines[i]| <= width }

  /** Every line is exactly as wide as the receipt, with a blank at the column between the cells. */
  ghost predicate Divided(lines: seq<Ascii>, width: nat) {
    forall i :: 0 <= i < |lines| ==> |lines[i]| == width && LeftWidth(width) < width && lines[i][LeftWidth(width)] == SPACE
  }

  lemma {:induction false} BlanksHaveNoInk(n: nat)
    ensures Ink(Repeat(SPACE, n)) == []
  {
    if n > 0 {
      BlanksHaveNoInk(n - 1);
      assert Repeat(SPACE, n)[1..] == Repeat(SPACE, n - 1);
    }
  }

  /** In one line the left cell stays left of the middle blank, and the right cell right of it. */
  lemma LineDivides(left: Ascii, right: Ascii, width: nat)
    requires width >= 3 && |left| <= LeftWidth(width) && |right| <= RightWidth(width)
    ensures var line, at := ColumnLine(left, right, width), LeftWidth(width);
      |line| == width && at < width && line[at] == SPACE && Ink(line[..at]) == Ink(left) && Ink(line[at..]) == Ink(right)
  {
    var line, at := ColumnLine(left, right, width), LeftWidth(width);
    var gap := width - |left| - |right|;
    assert line == left + Repeat(SPACE, gap) + right;
    assert line[..at] == left + Repeat(SPACE, at - |left|);
    assert line[at..] == Repeat(SPACE, width - at - |right|) + right;
    hide Ink, Repeat;
    InkAppends(left, Repeat(SPACE, at - |left|));
    InkAppends(Repeat(SPACE, width - at - |right|), right);
    BlanksHaveNoInk(at - |left|);
    BlanksHaveNoInk(width - at - |right|);
  }

  lemma OneMoreLine(line: Ascii, rest: seq<Ascii>, width: nat)
    requires |line| == width && LeftWidth(width) < width && line[LeftWidth(width)] == SPACE && Divided(rest, width)
    ensures Divided([line] + rest, width)
    ensures InkOf(LeftOf([line] + rest, LeftWidth(width))) == Ink(line[..LeftWidth(width)]) + InkOf(LeftOf(rest, LeftWidth(width)))
    ensures InkOf(RightOf([line] + rest, LeftWidth(width))) == Ink(line[LeftWidth(width)..]) + InkOf(RightOf(rest, LeftWidth(width)))
  {
    hide Ink;
    assert ([line] + rest)[1..] == rest;
  }

  lemma {:induction false} JoinedColumnsReadBack(lefts: seq<Ascii>, rights: seq<Ascii>, index: nat, width: nat)
    requires width >= 3 && AtMost(lefts, LeftWidth(width)) && AtMost(rights, RightWidth(width))
    ensures var lines := JoinColumns(lefts, rights, index, width);
      && |lines| == Max(Max(|lefts|, |rights|) - index, 0) && Divided(lines, width)
      && InkOf(LeftOf(lines, LeftWidth(width))) == InkOf(From(lefts, index))
      && InkOf(RightOf(lines, LeftWidth(width))) == InkOf(From(rights, index))
    decreases Max(|lefts|, |rights|) - index
  {
    if index < Max(|lefts|, |rights|) {
      hide Ink, ColumnLine, InkOf, LeftOf, RightOf, From, Divided, LeftWidth, RightWidth;
      var left, right := LineAt(lefts, index), LineAt(rights, index);
      JoinedColumnsReadBack(lefts, rights, index + 1, width);
      LineDivides(left, right, width);
      OneMoreLine(ColumnLine(left, right, width), JoinColumns(lefts, rights, index + 1, width), width);
      TakesLine(lefts, index);
      TakesLine(rights, index);
    }
  }

  lemma TakesLine(lines: seq<Ascii>, index: nat)
    ensures InkOf(From(lines, index)) == Ink(LineAt(lines, index)) + InkOf(From(lines, index + 1))
  {
    assert InkOf([]) == [] && Ink([]) == [];
    if index < |lines| {
      assert lines[index..][1..] == lines[index + 1..];
      if index + 1 == |lines| {
        assert lines[index + 1..] == [];
      }
    }
  }

  lemma WrappedAtMost(text: Ascii, width: nat)
    requires width >= 1
    ensures AtMost(Wrapped(text, width), width) && InkOf(From(Wrapped(text, width), 0)) == Ink(text)
  {
    hide Wrapped, Ink;
    WrappingConservesInk(text, width);
    forall i | 0 <= i < |Wrapped(text, width)| ensures |Wrapped(text, width)[i]| <= width {
      WrappedLinesFitAndAreStable(text, width, i);
    }
    assert Wrapped(text, width) == [] || From(Wrapped(text, width), 0) == Wrapped(text, width);
  }

  lemma {:induction false} BlanksAreWide(gap: nat, b: Ascii)
    ensures DisplayWidth(Repeat(SPACE, gap) + b) == gap + DisplayWidth(b)
  {
    if gap == 0 {
      assert Repeat(SPACE, gap) + b == b;
    } else {
      BlanksAreWide(gap - 1, b);
      assert Repeat(SPACE, gap) + b == [SPACE] + (Repeat(SPACE, gap - 1) + b);
      assert ([SPACE] + (Repeat(SPACE, gap - 1) + b))[1..] == Repeat(SPACE, gap - 1) + b;
    }
  }

  function FirstColumn(s: Ascii): (n: nat)
    requires s != []
    ensures 1 <= n <= |s|
  {
    if |s| >= 2 && s[0] == RETURN && s[1] == NEWLINE then 2 else 1
  }

  lemma FirstIsOne(s: Ascii)
    requires s != []
    ensures DisplayWidth(s) == 1 + DisplayWidth(s[FirstColumn(s)..])
  {
  }

  /** Two pieces are as wide as both, unless a CR meets an LF between them. */
  lemma {:induction false} WidthAppends(a: Ascii, b: Ascii)
    requires b != [] && b[0] != NEWLINE
    ensures DisplayWidth(a + b) == DisplayWidth(a) + DisplayWidth(b)
    decreases |a|
  {
    if a == [] {
      assert a + b == b;
    } else {
      hide DisplayWidth;
      var n := FirstColumn(a);
      assert n == FirstColumn(a + b) && (a + b)[n..] == a[n..] + b;
      FirstIsOne(a);
      FirstIsOne(a + b);
      WidthAppends(a[n..], b);
    }
  }

  lemma WidthAdds(a: Ascii, gap: nat, b: Ascii)
    requires gap >= 1
    ensures DisplayWidth(a + Repeat(SPACE, gap) + b) == DisplayWidth(a) + gap + DisplayWidth(b)
  {
    hide DisplayWidth;
    assert (Repeat(SPACE, gap) + b)[0] == SPACE;
    assert a + Repeat(SPACE, gap) + b == a + (Repeat(SPACE, gap) + b);
    WidthAppends(a, Repeat(SPACE, gap) + b);
    BlanksAreWide(gap, b);
  }

  lemma OneLineKeepsBoth(left: Ascii, right: Ascii, gap: nat)
    requires gap >= 1
    ensures Ink(left + Repeat(SPACE, gap) + right) == Ink(left) + Ink(right)
  {
    InkAppends(left + Repeat(SPACE, gap), right);
    InkAppends(left, Repeat(SPACE, gap));
    BlanksHaveNoInk(gap);
  }

  /** CR LF takes one column; with `WidthAppends` this says how wide any text is. */
  lemma CrLfIsOneColumn(a: Ascii, b: Ascii)
    ensures DisplayWidth(a + [RETURN, NEWLINE] + b) == DisplayWidth(a) + 1 + DisplayWidth(b)
  {
    var tail := [RETURN, NEWLINE] + b;
    assert a + [RETURN, NEWLINE] + b == a + tail;
    WidthAppends(a, tail);
    assert tail[2..] == b;
  }

  /** The k-th line of a wrapped row: both cells' k-th lines, set apart to the width of the receipt. */
  ghost predicate SetApart(line: Ascii, left: Ascii, right: Ascii, width: nat) {
    |left| + |right| < width && line == left + Repeat(SPACE, width - |left| - |right|) + right
  }

  function Or<T>(lines: seq<T>, k: nat, other: T): T { if k < |lines| then lines[k] else other }

  ghost predicate Columned(lines: seq<Ascii>, lefts: seq<Ascii>, rights: seq<Ascii>, width: nat) {
    && |lines| == (if |lefts| < |rights| then |rights| else |lefts|)
    && forall k :: 0 <= k < |lines| ==>
         SetApart(lines[k], Or(lefts, k, []), Or(rights, k, []), width)
  }

  lemma OneLineIsSetApart(left: Ascii, right: Ascii, width: nat)
    requires width >= 3 && |left| <= LeftWidth(width) && |right| <= RightWidth(width)
    ensures SetApart(ColumnLine(left, right, width), left, right, width)
  {
  }

  lemma {:induction false} ColumnsAreSetApart(lefts: seq<Ascii>, rights: seq<Ascii>, index: nat, width: nat)
    requires width >= 3 && AtMost(lefts, LeftWidth(width)) && AtMost(rights, RightWidth(width))
    ensures var lines := JoinColumns(lefts, rights, index, width);
      && |lines| == Max(Max(|lefts|, |rights|) - index, 0)
      && forall k :: 0 <= k < |lines| ==> SetApart(lines[k], Or(lefts, index + k, []), Or(rights, index + k, []), width)
    decreases Max(|lefts|, |rights|) - index
  {
    hide SetApart, ColumnLine, LeftWidth, RightWidth;
    if index < Max(|lefts|, |rights|) {
      ColumnsAreSetApart(lefts, rights, index + 1, width);
      OneLineIsSetApart(LineAt(lefts, index), LineAt(rights, index), width);
    }
  }

  lemma RowIsColumned(left: Ascii, right: Ascii, width: nat)
    requires width >= 3
    ensures var lefts, rights := Wrapped(left, width * 3 / 5), Wrapped(right, width - width * 3 / 5 - 1);
      Columned(JoinColumns(lefts, rights, 0, width), lefts, rights, width)
  {
    hide Wrapped, SetApart, JoinColumns, AtMost, InkOf, From, Ink;
    WrappedAtMost(left, LeftWidth(width));
    WrappedAtMost(right, RightWidth(width));
    ColumnsAreSetApart(Wrapped(left, LeftWidth(width)), Wrapped(right, RightWidth(width)), 0, width);
  }

  /**
   What a row means for its reader. Cells that fit share one line of the receipt's width. Otherwise every line is
   exactly that wide, and read downwards the part left of the middle blank holds the visible characters of the left
   cell in order, and the rest those of the right cell: nothing is lost, repeated or pushed into the other column.
   */
  lemma RowReadsBack(left: Ascii, right: Ascii, width: nat)
    ensures var lines := LaidOut(left, right, width);
      && (FitsOneLine(left, right, width) ==>
            |lines| == 1 && DisplayWidth(lines[0]) == width && left <= lines[0] && Ink(lines[0]) == Ink(left) + Ink(right))
      && (!FitsOneLine(left, right, width) && width >= 3 ==>
            && |lines| == Max(|Wrapped(left, LeftWidth(width))|, |Wrapped(right, RightWidth(width))|)
            && Divided(lines, width)
            && InkOf(LeftOf(lines, LeftWidth(width))) == Ink(left)
            && InkOf(RightOf(lines, LeftWidth(width))) == Ink(right))
  {
    hide Wrapped, Ink, DisplayWidth, InkOf, LeftOf, RightOf, JoinColumns, Divided;
    if FitsOneLine(left, right, width) {
      var gap := width - DisplayWidth(left) - DisplayWidth(right);
      WidthAdds(left, gap, right);
      OneLineKeepsBoth(left, right, gap);
    } else if width >= 3 {
      WrappedAtMost(left, LeftWidth(width));
      WrappedAtMost(right, RightWidth(width));
      JoinedColumnsReadBack(Wrapped(left, LeftWidth(width)), Wrapped(right, RightWidth(width)), 0, width);
    }
  }

  lemma CellWidths(width: nat)
    requires width >= 3
    ensures Max(LeftWidth(width), 1) == width * 3 / 5 == LeftWidth(width)
    ensures Max(RightWidth(width), 1) == width - width * 3 / 5 - 1 == RightWidth(width)
  {
  }

  /** What the lines of a row are, whatever computed them. */
  ghost predicate RowLinesAre(lines: seq<Ascii>, left: Ascii, right: Ascii, width: nat) {
    && (DisplayWidth(left) + DisplayWidth(right) < width ==>
          lines == [left + Repeat(SPACE, width - DisplayWidth(left) - DisplayWidth(right)) + right]
          && DisplayWidth(lines[0]) == width && Ink(lines[0]) == Ink(left) + Ink(right))
    && (DisplayWidth(left) + DisplayWidth(right) >= width >= 3 ==>
          && Columned(lines, Wrapped(left, width * 3 / 5), Wrapped(right, width - width * 3 / 5 - 1), width)
          && Divided(lines, width)
          && InkOf(LeftOf(lines, width * 3 / 5)) == Ink(left) && InkOf(RightOf(lines, width * 3 / 5)) == Ink(right))
  }

  lemma OneLineIs(left: Ascii, right: Ascii, width: nat)
    requires DisplayWidth(left) + DisplayWidth(right) < width
    ensures RowLinesAre(LaidOut(left, right, width), left, right, width)
  {
    RowReadsBack(left, right, width);
    hide Ink, InkOf, LeftOf, RightOf, Divided, Wrapped, Columned, DisplayWidth, JoinColumns;
  }

  lemma ColumnsAre(left: Ascii, right: Ascii, width: nat)
    requires DisplayWidth(left) + DisplayWidth(right) >= width
    ensures RowLinesAre(LaidOut(left, right, width), left, right, width)
  {
    hide Ink, InkOf, LeftOf, RightOf, Divided, Wrapped, Columned, DisplayWidth, JoinColumns, LeftWidth, RightWidth, Repeat;
    if width >= 3 {
      RowReadsBack(left, right, width);
      CellWidths(width);
      RowIsColumned(left, right, width);
    }
  }

  lemma LaidOutIs(left: Ascii, right: Ascii, width: nat)
    ensures RowLinesAre(LaidOut(left, right, width), left, right, width)
  {
    hide *;
    if DisplayWidth(left) + DisplayWidth(right) < width {
      OneLineIs(left, right, width);
    } else {
      ColumnsAre(left, right, width);
    }
  }

  method LayoutRow(left: Ascii, right: Ascii, width: nat) returns (lines: seq<Ascii>)
    ensures lines == LaidOut(left, right, width)
    ensures RowLinesAre(lines, left, right, width)
  {
    LaidOutIs(left, right, width);
    hide LeftWidth, RightWidth, RowLinesAre;
    if FitsOneLine(left, right, width) {
      return [left + Repeat(SPACE, width - DisplayWidth(left) - DisplayWidth(right)) + right];
    }
    var lefts := WrapText(left, Max(LeftWidth(width), 1));
    var rights := WrapText(right, Max(RightWidth(width), 1));
    lines := JoinColumns(lefts, rights, 0, width);
  }
}
