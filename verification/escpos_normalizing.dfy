/** Exactly when printing and interpreting a layout reaches its element-wise normal form. */
module EscPosNormalizing {
  import opened Bytes
  import opened Layout
  import opened Results
  import opened Wrapping
  import opened Rows
  import opened EscPosCommands
  import opened EscPosRender
  import opened EscPosStreams
  import opened EscPosRoundTrip

  // ---------- What a producible normal form says about its element ----------

  lemma {:induction false} InkOfFind(lines: seq<Ascii>, b: byte) returns (k: nat)
    requires b in InkOf(lines)
    ensures k < |lines| && b in Ink(lines[k])
  {
    if b in Ink(lines[0]) {
      k := 0;
    } else {
      var rest := InkOfFind(lines[1..], b);
      k := rest + 1;
    }
  }

  lemma LineNormalKeepsByte(line: Ascii, b: byte, alignment: Alignment, bold: bool, width: ReceiptWidth)
    requires Tidy(line, Columns(width)) && b in line && !IsWhitespace(b)
    requires Produced(LineNormal(line, alignment, bold, width))
    ensures IsGraphic(b)
  {
    TidyIsNoRow(line, Columns(width));
    hide SplitEmittedRow;
  }

  lemma TextNeedsLayoutText(value: Ascii, alignment: Alignment, bold: bool, width: ReceiptWidth)
    requires AllProduced(NormalForm(Text(value, alignment, bold), width))
    ensures IsLayoutText(value)
  {
    hide Wrapped, LineNormal, Produced;
    var columns := Columns(width);
    var lines := Wrapped(value, columns);
    forall i | 0 <= i < |value| ensures IsGraphic(value[i]) || IsWhitespace(value[i]) {
      if !IsWhitespace(value[i]) {
        InkMember(value, value[i]);
        WrappingConservesInk(value, columns);
        var k := InkOfFind(lines, value[i]);
        InkMember(lines[k], value[i]);
        WrappedLinesFitAndAreStable(value, columns, k);
        LineNormalKeepsByte(lines[k], value[i], alignment, bold, width);
      }
    }
  }

  /** Trimming takes whitespace only: every other byte of a line shows up in what the line reads as. */
  lemma LineKeepsByte(line: Ascii, i: nat, alignment: Alignment, bold: bool, width: ReceiptWidth)
    requires i < |line| && !IsWhitespace(line[i]) && Produced(LineNormal(line, alignment, bold, width))
    ensures IsGraphic(line[i])
  {
    hide LastSpaces, TrimEnd, TrimStart;
    var k := LastSpaces(line);
    if SplitEmittedRow(line).Some? && !(|line| == Columns(width) && AllDashes(line)) {
      var head, tail := TrimEnd(line[..k]), TrimStart(line[k + 2..]);
      if i < k {
        assert line[..k][i] == line[i];
        assert i < |head| && head[i] == line[i];
      } else {
        var j := i - k - 2;
        assert i >= k + 2 && line[k + 2..][j] == line[i];
        assert j >= |line[k + 2..]| - |tail|;
        assert tail[j - (|line[k + 2..]| - |tail|)] == line[i];
      }
    }
  }

  lemma {:induction false} JoinedAt(lefts: seq<Ascii>, rights: seq<Ascii>, index: nat, k: nat, width: nat)
    requires index <= k < Max(|lefts|, |rights|)
    ensures k - index < |JoinColumns(lefts, rights, index, width)|
    ensures JoinColumns(lefts, rights, index, width)[k - index] == ColumnLine(LineAt(lefts, k), LineAt(rights, k), width)
    decreases k - index
  {
    hide ColumnLine;
    if index < k {
      JoinedAt(lefts, rights, index + 1, k, width);
    }
  }

  lemma ColumnsHoldBoth(left: Ascii, right: Ascii, width: nat, b: byte)
    requires b in left || b in right
    ensures b in ColumnLine(left, right, width)
  {
    var gap := Repeat(SPACE, Max(width - (|left| + |right|), 1));
    if b in left {
      var i :| 0 <= i < |left| && left[i] == b;
      assert ColumnLine(left, right, width)[i] == b;
    } else {
      var i :| 0 <= i < |right| && right[i] == b;
      assert ColumnLine(left, right, width)[|left| + |gap| + i] == b;
    }
  }

  /** A visible byte of a wrapped cell is in one of the cell's lines. */
  lemma CellByteIsPrinted(cell: Ascii, width: nat, i: nat) returns (k: nat)
    requires width >= 1 && i < |cell| && !IsWhitespace(cell[i])
    ensures k < |Wrapped(cell, width)| && cell[i] in Wrapped(cell, width)[k]
  {
    hide Wrapped;
    InkMember(cell, cell[i]);
    WrappingConservesInk(cell, width);
    k := InkOfFind(Wrapped(cell, width), cell[i]);
    InkMember(Wrapped(cell, width)[k], cell[i]);
  }

  lemma JoinedLineIsGraphic(lines: seq<Ascii>, k: nat, b: byte, width: ReceiptWidth)
    requires AllProduced(LinesNormal(lines, Left, false, width)) && k < |lines| && b in lines[k] && !IsWhitespace(b)
    ensures IsGraphic(b)
  {
    hide LineNormal, Produced;
    var i :| 0 <= i < |lines[k]| && lines[k][i] == b;
    assert Produced(LinesNormal(lines, Left, false, width)[k]);
    LineKeepsByte(lines[k], i, Left, false, width);
  }

  lemma WrappedRowNeedsLayoutText(left: Ascii, right: Ascii, width: ReceiptWidth)
    requires !FitsOneLine(left, right, Columns(width)) && AllProduced(NormalForm(Row(left, right), width))
    ensures IsLayoutText(left) && IsLayoutText(right)
  {
    hide Wrapped, LineNormal, Produced, JoinColumns, ColumnLine, LinesNormal;
    var columns := Columns(width);
    var lefts, rights := Wrapped(left, LeftWidth(columns)), Wrapped(right, RightWidth(columns));
    var lines := JoinColumns(lefts, rights, 0, columns);
    forall i | 0 <= i < |left| ensures IsGraphic(left[i]) || IsWhitespace(left[i]) {
      if !IsWhitespace(left[i]) {
        var k := CellByteIsPrinted(left, LeftWidth(columns), i);
        JoinedAt(lefts, rights, 0, k, columns);
        ColumnsHoldBoth(LineAt(lefts, k), LineAt(rights, k), columns, left[i]);
        JoinedLineIsGraphic(lines, k, left[i], width);
      }
    }
    forall i | 0 <= i < |right| ensures IsGraphic(right[i]) || IsWhitespace(right[i]) {
      if !IsWhitespace(right[i]) {
        var k := CellByteIsPrinted(right, RightWidth(columns), i);
        JoinedAt(lefts, rights, 0, k, columns);
        ColumnsHoldBoth(LineAt(lefts, k), LineAt(rights, k), columns, right[i]);
        JoinedLineIsGraphic(lines, k, right[i], width);
      }
    }
  }

  predicate IsOneLineRow(e: Element, width: ReceiptWidth) {
    e.Row? && FitsOneLine(e.left, e.right, Columns(width))
  }

  lemma ProducedNormalIsInterpretable(e: Element, width: ReceiptWidth)
    requires AllProduced(NormalForm(e, width)) && !IsOneLineRow(e, width)
    ensures Interpretable(e, width)
  {
    hide IsLayoutText, LinesNormal, Wrapped, LaidOut;
    match e {
      case Text(value, alignment, bold) => TextNeedsLayoutText(value, alignment, bold, width);
      case Row(left, right) => WrappedRowNeedsLayoutText(left, right, width);
      case _ => assert Produced(NormalForm(e, width)[0]);
    }
  }

  lemma {:induction false} EachNormalProduced(elements: seq<Element>, width: ReceiptWidth)
    requires AllProduced(NormalForms(elements, width))
    ensures forall i :: 0 <= i < |elements| ==> AllProduced(NormalForm(elements[i], width))
  {
    hide Produced, NormalForm;
    if elements != [] {
      var first, rest := NormalForm(elements[0], width), NormalForms(elements[1..], width);
      assert forall i :: 0 <= i < |first| ==> (first + rest)[i] == first[i];
      assert forall i :: 0 <= i < |rest| ==> (first + rest)[|first| + i] == rest[i];
      EachNormalProduced(elements[1..], width);
      assert forall i :: 0 < i < |elements| ==> elements[i] == elements[1..][i - 1];
    }
  }

  ghost predicate Normalizes(layout: PrintLayout)
    requires Rendered(layout).Ok?
  {
    var r := Interpreted(Rendered(layout).value, layout.width);
    r.Ok? && r.value.layout.elements == NormalForms(layout.elements, layout.width)
  }

  // ---------- The first element that is not interpretable ----------

  lemma EffectGrows(p: Machine, c: Command, width: ReceiptWidth)
    ensures p.elements <= Effect(p, c, width).elements
  {
    hide LineElement;
  }

  lemma ExecuteGrows(m: Machine, c: Command, offset: nat, width: ReceiptWidth)
    ensures var r := Execute(m, c, offset, width); r.Ok? ==> m.elements <= r.value.elements
  {
    hide Effect, TroubleWith;
    EffectGrows(Prepared(m, c), c, width);
  }

  /** The parser never takes an element back. */
  lemma {:induction false} RunGrows(rest: seq<byte>, offset: nat, m: Machine, width: ReceiptWidth)
    ensures var r := Run(rest, offset, m, width); r.Ok? ==> m.elements <= r.value.elements
    decreases |rest|
  {
    hide Execute;
    if rest != [] && !m.Stopped() && Decode(rest).Complete? {
      var Complete(c, n) := Decode(rest);
      ExecuteGrows(m, c, offset, width);
      var r := Execute(m, c, offset, width);
      if r.Ok? {
        RunGrows(rest[n..], offset + n, r.value, width);
      }
    }
  }

  /** The elements an interpretation that ends in this state answers. */
  function Ending(m: Machine): seq<Element> { (if m.Stopped() then m else m.Flushed()).elements }

  lemma EndingGrows(m: Machine)
    ensures m.elements <= Ending(m)
  {
  }

  /** A one-line row as bytes. */
  lemma OneLineBytes(left: Ascii, right: Ascii, columns: nat, rest: seq<byte>)
    requires FitsOneLine(left, right, columns) && ElementBytes(Row(left, right), columns).Ok?
    ensures |LaidOut(left, right, columns)| == 1
    ensures ElementBytes(Row(left, right), columns).value + rest
         == [ESC, 97, 0] + (LaidOut(left, right, columns)[0] + ([NEWLINE] + rest))
  {
    var line := LaidOut(left, right, columns)[0];
    assert LaidOut(left, right, columns) == [line];
    assert LineBytes([line]) == line + [NEWLINE] + LineBytes([]);
  }

  /** The state in which a row's line is read. */
  lemma RowAligns(m: Machine, rest: seq<byte>, offset: nat, width: ReceiptWidth) returns (aligned: Machine)
    requires Settled(m)
    ensures Run([ESC, 97, 0] + rest, offset, m, width) == Run(rest, offset + 3, aligned, width)
    ensures Settled(aligned) && aligned.alignment == Left && aligned.elements == m.elements
  {
    hide Run;
    aligned := Apply(m, SetAlignment(0), width);
    assert Encode(SetAlignment(0)) == [ESC, 97, 0];
    RunOne(SetAlignment(0), rest, offset, m, width);
  }

  /** A soft line is read without its returns and adds one element. */
  lemma SoftLineAdds(m: Machine, line: Ascii, rest: seq<byte>, offset: nat, width: ReceiptWidth)
    requires Settled(m) && Soft(line) && |line| <= 48
    ensures var r := Run(line + ([NEWLINE] + rest), offset, m, width);
      r.Ok? ==> m.elements + [LineNormal(WithoutReturns(line), m.alignment, m.bold, width)] <= r.value.elements
  {
    hide Run, Apply, TroubleWith, LineNormal, Soft, Smooth, ApplyAll;
    var commands := Characters(line) + [NewLine];
    LineApplies(m, line, width);
    EncodeAllAppends(Characters(line), [NewLine]);
    EncodeCharacters(line);
    EncodeSingle(NewLine);
    assert EncodeAll(commands) == line + [NEWLINE];
    RunEncoded(commands, rest, offset, m, width);
    assert line + [NEWLINE] + rest == line + ([NEWLINE] + rest);
    RunGrows(rest, offset + |line| + 1, ApplyAll(m, commands, width), width);
  }

  predicate Halts(b: byte) { !IsPrintable(b) && b != RETURN && b != NEWLINE && b != ESC && b != GS }

  /** Any other control byte stops the parser, and the line it stood in is lost. */
  lemma HardLineStops(m: Machine, line: Ascii, p: nat, rest: seq<byte>, offset: nat, width: ReceiptWidth)
    requires Settled(m) && p < |line| && |line| <= MAX_TEXT_BYTES && Soft(line[..p]) && Halts(line[p])
    ensures var r := Run(line + rest, offset, m, width); r.Ok? && Ending(r.value) == m.elements
  {
    hide Run, Apply, TroubleWith, Soft, Smooth, ApplyAll;
    CharactersApply(m, line[..p], width);
    EncodeCharacters(line[..p]);
    var tail := line[p + 1..] + rest;
    assert line + rest == line[..p] + ([line[p]] + tail);
    RunEncoded(Characters(line[..p]), [line[p]] + tail, offset, m, width);
    var held := m.(text := m.text + WithoutReturns(line[..p]));
    StopsHere(held, line[p], tail, offset + p, width);
  }

  lemma StopsHere(m: Machine, b: byte, tail: seq<byte>, offset: nat, width: ReceiptWidth)
    requires !m.Stopped() && Halts(b)
    ensures var r := Run([b] + tail, offset, m, width); r.Ok? && Ending(r.value) == m.elements
  {
    var c := Unreadable(NonPrintable(b));
    assert ([b] + tail)[0] == b && ([b] + tail)[1..] == tail;
    assert Decode([b] + tail) == Complete(c, 1);
    assert Execute(m, c, offset, width) == Ok(m.StopAt(offset, NonPrintable(b)));
    StoppedStays(tail, offset + 1, m.StopAt(offset, NonPrintable(b)), width);
  }

  lemma StoppedStays(rest: seq<byte>, offset: nat, m: Machine, width: ReceiptWidth)
    requires m.Stopped()
    ensures Run(rest, offset, m, width) == Ok(m)
  {
  }

  // ---------- The theorem ----------

  /** A row on one line holds no newline, which would print it as two. */
  predicate Unbroken(e: Element, width: ReceiptWidth) {
    IsOneLineRow(e, width) ==> NEWLINE !in e.left && NEWLINE !in e.right
  }

  lemma UnbrokenLine(left: Ascii, right: Ascii, width: ReceiptWidth)
    requires FitsOneLine(left, right, Columns(width)) && NEWLINE !in left && NEWLINE !in right
    ensures |LaidOut(left, right, Columns(width))| == 1
    ensures var line := LaidOut(left, right, Columns(width))[0]; |line| == Columns(width) && NEWLINE !in line
  {
  }

  lemma {:induction false} FirstHard(line: Ascii) returns (p: nat)
    requires !Soft(line)
    ensures p < |line| && Soft(line[..p]) && !IsPrintable(line[p]) && line[p] != RETURN
    decreases |line|
  {
    var shorter := line[..|line| - 1];
    if Soft(shorter) {
      p := |line| - 1;
    } else {
      p := FirstHard(shorter);
      assert shorter[..p] == line[..p];
    }
  }

  /** What is not soft in an unbroken line whose reading is producible stops the parser. */
  lemma FirstHardByte(line: Ascii, width: ReceiptWidth) returns (p: nat)
    requires !Soft(line) && NEWLINE !in line && Produced(LineNormal(line, Left, false, width))
    ensures p < |line| && Soft(line[..p]) && Halts(line[p])
  {
    hide LineNormal, Produced;
    p := FirstHard(line);
    assert line[p] in line;
    if !IsWhitespace(line[p]) {
      LineKeepsByte(line, p, Left, false, width);
    }
  }

  /** If the interpretation of a one-line row begins with the row's normal form, the row is interpretable. */
  lemma OneLineRowIsInterpretable(e: Element, rest: seq<byte>, offset: nat, m: Machine, width: ReceiptWidth)
    requires Settled(m) && IsOneLineRow(e, width) && Unbroken(e, width)
    requires ElementBytes(e, Columns(width)).Ok? && AllProduced(NormalForm(e, width))
    requires var r := Run(ElementBytes(e, Columns(width)).value + rest, offset, m, width);
      r.Ok? && m.elements + NormalForm(e, width) <= Ending(r.value)
    ensures Interpretable(e, width)
  {
    hide Run, LineNormal, LaidOut, Soft, Ending, Produced, ElementBytes;
    var columns := Columns(width);
    UnbrokenLine(e.left, e.right, width);
    var line := LaidOut(e.left, e.right, columns)[0];
    OneLineBytes(e.left, e.right, columns, rest);
    var aligned := RowAligns(m, line + ([NEWLINE] + rest), offset, width);
    assert NormalForm(e, width) == [LineNormal(line, Left, false, width)] by {
      OneLineRow(e.left, e.right, width);
      SingleNormal(line, width);
    }
    assert Produced(NormalForm(e, width)[0]);
    var r := Run(line + ([NEWLINE] + rest), offset + 3, aligned, width);
    var at := |m.elements|;
    assert (m.elements + NormalForm(e, width))[at] == LineNormal(line, Left, false, width);
    if Soft(line) {
      SoftLineAdds(aligned, line, rest, offset + 3, width);
      EndingGrows(r.value);
      assert (m.elements + [LineNormal(WithoutReturns(line), Left, false, width)])[at]
          == LineNormal(WithoutReturns(line), Left, false, width);
    } else {
      var p := FirstHardByte(line, width);
      HardLineStops(aligned, line, p, [NEWLINE] + rest, offset + 3, width);
    }
  }

  lemma {:induction false} NormalRunIsInterpretable(elements: seq<Element>, offset: nat, m: Machine, width: ReceiptWidth)
    requires Settled(m) && ElementsBytes(elements, Columns(width)).Ok? && AllProduced(NormalForms(elements, width))
    requires forall i :: 0 <= i < |elements| ==> Unbroken(elements[i], width)
    requires var r := Run(ElementsBytes(elements, Columns(width)).value, offset, m, width);
      r.Ok? && Ending(r.value) == m.elements + NormalForms(elements, width)
    ensures AllInterpretable(elements, width)
    decreases |elements|
  {
    hide NormalForm, Interpretable, ElementBytes, ElementCommands, Run, Smooth, ApplyAll, Ending, Produced, Unbroken;
    if elements != [] {
      var e, columns := elements[0], Columns(width);
      var first, rest := NormalForm(e, width), NormalForms(elements[1..], width);
      var bytes := ElementsBytes(elements[1..], columns).value;
      assert m.elements + (first + rest) == m.elements + first + rest;
      EachNormalProduced(elements, width);
      if IsOneLineRow(e, width) {
        OneLineRowIsInterpretable(e, bytes, offset, m, width);
      } else {
        ProducedNormalIsInterpretable(e, width);
      }
      var commands := ElementCommands(e, columns);
      EncodeElement(e, columns);
      ElementPrints(m, e, width);
      RunEncoded(commands, bytes, offset, m, width);
      RestIsProduced(first, rest);
      assert forall i :: 0 <= i < |elements| - 1 ==> elements[1..][i] == elements[i + 1];
      NormalRunIsInterpretable(elements[1..], offset + |EncodeAll(commands)|, ApplyAll(m, commands, width), width);
      assert forall i :: 0 < i < |elements| ==> elements[i] == elements[1..][i - 1];
    }
  }

  lemma RestIsProduced(first: seq<Element>, rest: seq<Element>)
    requires AllProduced(first + rest)
    ensures AllProduced(rest)
  {
    hide Produced;
    assert forall i :: 0 <= i < |rest| ==> (first + rest)[|first| + i] == rest[i];
  }

  /**
   Unless a newline breaks a one-line row in two, the normal form is reached exactly for interpretable elements:
   one control character in a text or a wrapped cell, one in a one-line row other than carriage returns that do
   not matter, a zero feed, an oversized image or QR content spoils it.
   */
  lemma {:induction false} NormalizesIffInterpretable(layout: PrintLayout)
    requires Rendered(layout).Ok?
    requires forall i :: 0 <= i < |layout.elements| ==> Unbroken(layout.elements[i], layout.width)
    ensures Normalizes(layout) <==> AllInterpretable(layout.elements, layout.width)
  {
    hide Interpretable, Produced, NormalForms, NormalForm, Run, Unbroken;
    var elements, width := layout.elements, layout.width;
    if AllInterpretable(elements, width) {
      RenderedLayoutNormalizes(layout);
    } else if Normalizes(layout) {
      InterpretationIsSound(Rendered(layout).value, width);
      var body := ElementsBytes(elements, Columns(width)).value;
      InitializeRuns(body, width);
      NormalRunIsInterpretable(elements, 2, INITIAL.Counted(), width);
    }
  }

  // ---------- Why newlines are set apart ----------

  const LETTER: byte := 120
  const TAB: byte := 9

  /** A row that prints as one line, a newline and a tab, at which the parser stops. */
  const BROKEN: Element := Row([LETTER], [NEWLINE, TAB])

  lemma LetterThenSpaces(gap: nat, width: ReceiptWidth)
    requires gap >= 2
    ensures LineNormal([LETTER] + Repeat(SPACE, gap), Left, false, width) == Row([LETTER], [])
  {
    var line := [LETTER] + Repeat(SPACE, gap);
    assert line + [] == line && line[0] == LETTER;
    CleanRowSplits([LETTER], [], gap);
  }

  lemma BrokenSplits(line: Ascii, gap: nat)
    requires gap >= 2 && line == [LETTER] + Repeat(SPACE, gap) + [NEWLINE, TAB]
    ensures SplitEmittedRow(line) == Some(([LETTER], []))
  {
    var k := gap - 1;
    hide TrimEnd, TrimStart, LastSpaces, Repeat;
    assert SpacesAt(line, k);
    assert forall i :: i > k ==> !SpacesAt(line, i);
    assert LastSpaces(line) == k;
    var head := line[..k];
    assert head[0] == LETTER && forall i :: 1 <= i < |head| ==> head[i] == SPACE;
    assert TrimEnd(head) == [LETTER];
    assert line[k + 2..] == [NEWLINE, TAB];
    assert forall i :: 0 <= i < 2 ==> IsWhitespace([NEWLINE, TAB][i]);
    assert TrimStart([NEWLINE, TAB]) == [];
    SplitsThere(line, k);
  }

  lemma BrokenLine(width: ReceiptWidth) returns (gap: nat)
    ensures gap == Columns(width) - 3 && FitsOneLine([LETTER], [NEWLINE, TAB], Columns(width))
    ensures LaidOut([LETTER], [NEWLINE, TAB], Columns(width)) == [[LETTER] + Repeat(SPACE, gap) + [NEWLINE, TAB]]
    ensures NormalForm(BROKEN, width) == [Row([LETTER], [])]
    ensures !Interpretable(BROKEN, width)
  {
    hide Repeat, SplitEmittedRow;
    assert DisplayWidth([LETTER]) == 1 && DisplayWidth([NEWLINE, TAB]) == 2;
    gap := Columns(width) - 3;
    var line := [LETTER] + Repeat(SPACE, gap) + [NEWLINE, TAB];
    BrokenSplits(line, gap);
    assert line[0] == LETTER && line[|line| - 1] == TAB;
  }

  /** A line, its newline, and a tab at which the parser stops. */
  lemma LineThenStop(text: Ascii, tail: seq<byte>, offset: nat, m: Machine, width: ReceiptWidth)
    requires Settled(m) && AllPrintable(text) && |text| <= 48
    ensures var r := Run(text + ([NEWLINE] + ([TAB] + tail)), offset, m, width);
      r.Ok? && Ending(r.value) == m.elements + [LineNormal(text, m.alignment, m.bold, width)]
  {
    hide Run, LineNormal, Ending, ApplyAll, Smooth, Soft;
    PrintableIsSoft(text);
    LineApplies(m, text, width);
    var commands := Characters(text) + [NewLine];
    EncodeAllAppends(Characters(text), [NewLine]);
    EncodeCharacters(text);
    EncodeSingle(NewLine);
    assert text + ([NEWLINE] + ([TAB] + tail)) == EncodeAll(commands) + ([TAB] + tail);
    RunEncoded(commands, [TAB] + tail, offset, m, width);
    StopsHere(ApplyAll(m, commands, width), TAB, tail, offset + |EncodeAll(commands)|, width);
  }

  lemma Regroup(text: Ascii, rest: seq<byte>)
    ensures text + [NEWLINE, TAB] + ([NEWLINE] + rest) == text + ([NEWLINE] + ([TAB] + ([NEWLINE] + rest)))
  {
  }

  lemma SpacedLetter(gap: nat)
    ensures AllPrintable([LETTER] + Repeat(SPACE, gap))
  {
  }

  lemma BrokenRuns(rest: seq<byte>, offset: nat, m: Machine, width: ReceiptWidth)
    requires Settled(m) && ElementBytes(BROKEN, Columns(width)).Ok?
    ensures var r := Run(ElementBytes(BROKEN, Columns(width)).value + rest, offset, m, width);
      r.Ok? && Ending(r.value) == m.elements + [Row([LETTER], [])]
  {
    hide Run, LineNormal, LaidOut, Ending, Repeat, ElementBytes, NormalForm, FitsOneLine, Interpretable;
    var gap := BrokenLine(width);
    OneLineBytes([LETTER], [NEWLINE, TAB], Columns(width), rest);
    LetterThenSpaces(gap, width);
    var text := [LETTER] + Repeat(SPACE, gap);
    SpacedLetter(gap);
    Regroup(text, rest);
    var aligned := RowAligns(m, text + [NEWLINE, TAB] + ([NEWLINE] + rest), offset, width);
    LineThenStop(text, [NEWLINE] + rest, offset + 3, aligned, width);
  }

  lemma AloneAndFollowed(e: Element, width: ReceiptWidth)
    requires ElementBytes(e, Columns(width)).Ok?
    ensures var bytes := ElementBytes(e, Columns(width)).value;
      && Rendered(PrintLayout(width, [e])) == Ok([ESC, 64] + (bytes + []))
      && Rendered(PrintLayout(width, [e, Cut])) == Ok([ESC, 64] + (bytes + [GS, 86, 0]))
    ensures NormalForms([e], width) == NormalForm(e, width) && NormalForms([e, Cut], width) == NormalForm(e, width) + [Cut]
  {
    CutAlone(width);
    hide ElementBytes, NormalForm;
    assert [e, Cut][1..] == [Cut] && [e][1..] == [];
  }

  lemma CutAlone(width: ReceiptWidth)
    ensures ElementsBytes([Cut], Columns(width)) == Ok([GS, 86, 0]) && NormalForms([Cut], width) == [Cut]
  {
    assert [Cut][1..] == [] && [GS, 86, 0] + [] == [GS, 86, 0] && [Cut] + [] == [Cut];
  }

  lemma EndsThere(e: Element, only: Element, rest: seq<byte>, width: ReceiptWidth)
    requires ElementBytes(e, Columns(width)).Ok?
    requires var r := Run(ElementBytes(e, Columns(width)).value + rest, 2, INITIAL.Counted(), width);
      r.Ok? && Ending(r.value) == INITIAL.Counted().elements + [only]
    ensures var r := Interpreted([ESC, 64] + (ElementBytes(e, Columns(width)).value + rest), width);
      r.Ok? && r.value.layout.elements == [only]
  {
    hide Run, ElementBytes;
    InitializeRuns(ElementBytes(e, Columns(width)).value + rest, width);
  }

  /**
   With a newline no condition on the elements one by one can be exact: this row is never interpretable, and it
   reaches its normal form as the last element of a layout but not in front of a cut.
   */
  lemma {:induction false} BrokenRowsDependOnWhatFollows(width: ReceiptWidth)
    ensures var alone, followed := PrintLayout(width, [BROKEN]), PrintLayout(width, [BROKEN, Cut]);
      && !Interpretable(BROKEN, width)
      && Rendered(alone).Ok? && Normalizes(alone)
      && Rendered(followed).Ok? && !Normalizes(followed)
  {
    hide Run, ElementBytes, LaidOut, NormalForm, NormalForms, Rendered, Interpreted, Interpretable, FitsOneLine, Ending;
    var gap := BrokenLine(width);
    BrokenRenders(width);
    InitializeRuns([], width);
    BrokenRuns([], 2, INITIAL.Counted(), width);
    BrokenRuns([GS, 86, 0], 2, INITIAL.Counted(), width);
    EndsThere(BROKEN, Row([LETTER], []), [], width);
    EndsThere(BROKEN, Row([LETTER], []), [GS, 86, 0], width);
    AloneAndFollowed(BROKEN, width);
  }

  lemma BrokenRenders(width: ReceiptWidth)
    ensures ElementBytes(BROKEN, Columns(width)).Ok?
  {
    hide LaidOut;
  }
}
