/**
 Printing a layout and interpreting the bytes: the result is the element-wise
 normal form, and it is the layout itself exactly for canonical layouts.
 */
module EscPosRoundTrip {
  import opened Bytes
  import opened Layout
  import opened Results
  import opened Wrapping
  import opened Rows
  import opened EscPosCommands
  import opened EscPosRender
  import opened EscPosStreams

  // ---------- Normal forms ----------

  function LineNormal(line: Ascii, alignment: Alignment, bold: bool, width: ReceiptWidth): Element {
    if line == [] then Feed(1) else LineElement(line, alignment, bold, width)
  }

  function LinesNormal(lines: seq<Ascii>, alignment: Alignment, bold: bool, width: ReceiptWidth): (elements: seq<Element>)
    ensures |elements| == |lines|
    ensures forall i :: 0 <= i < |lines| ==> elements[i] == LineNormal(lines[i], alignment, bold, width)
  {
    if lines == [] then []
    else [LineNormal(lines[0], alignment, bold, width)] + LinesNormal(lines[1..], alignment, bold, width)
  }

  /** What one element becomes after printing and interpreting. */
  function NormalForm(e: Element, width: ReceiptWidth): seq<Element> {
    match e
    case Text(value, alignment, bold) => LinesNormal(Wrapped(value, Columns(width)), alignment, bold, width)
    case Row(left, right) => LinesNormal(LaidOut(left, right, Columns(width)), Left, false, width)
    case Image(image) => [Image(ReceiptImage(8 * image.stride, image.height, 203, image.stride, image.data))]
    case _ => [e]
  }

  function NormalForms(elements: seq<Element>, width: ReceiptWidth): seq<Element> {
    if elements == [] then [] else NormalForm(elements[0], width) + NormalForms(elements[1..], width)
  }

  /** The parser drops carriage returns. */
  function WithoutReturns(line: Ascii): Ascii {
    if line == [] then [] else (if line[0] == RETURN then [] else [line[0]]) + WithoutReturns(line[1..])
  }

  ghost predicate Soft(line: Ascii) { forall i :: 0 <= i < |line| ==> IsPrintable(line[i]) || line[i] == RETURN }

  lemma PrintableIsSoft(line: Ascii)
    requires AllPrintable(line)
    ensures Soft(line) && WithoutReturns(line) == line
  {
  }

  /** Cells that print as they are, or wrap to printable lines. */
  ghost predicate PrintableRow(left: Ascii, right: Ascii, width: ReceiptWidth) {
    if FitsOneLine(left, right, Columns(width)) then AllPrintable(left) && AllPrintable(right)
    else IsLayoutText(left) && IsLayoutText(right)
  }

  /** A row on one line is printed untrimmed: dropping its carriage returns must not change what it reads as. */
  ghost predicate InterpretableRow(left: Ascii, right: Ascii, width: ReceiptWidth) {
    if FitsOneLine(left, right, Columns(width)) then
      var line := LaidOut(left, right, Columns(width))[0];
      Soft(line) && LineNormal(WithoutReturns(line), Left, false, width) == LineNormal(line, Left, false, width)
    else IsLayoutText(left) && IsLayoutText(right)
  }

  lemma PrintableRowIsInterpretable(left: Ascii, right: Ascii, width: ReceiptWidth)
    requires PrintableRow(left, right, width)
    ensures InterpretableRow(left, right, width)
  {
    hide LineNormal, IsLayoutText;
    if FitsOneLine(left, right, Columns(width)) {
      PrintableIsSoft(LaidOut(left, right, Columns(width))[0]);
    }
  }

  /** Elements whose bytes stay inside the supported subset. */
  ghost predicate Interpretable(e: Element, width: ReceiptWidth) {
    match e
    case Text(value, _, _) => IsLayoutText(value)
    case Row(left, right) => InterpretableRow(left, right, width)
    case Image(image) => ImageFits(image)
    case Qr(content) => IsUtf8(content) && |content| <= MAX_QR_BYTES
    case Feed(lines) => lines >= 1
    case _ => true
  }

  // ---------- Printing text lines ----------

  /** Between elements the parser holds no text and prints light. */
  ghost predicate Settled(m: Machine) { m.text == [] && !m.bold && !m.Stopped() }

  /** `after` differs from `before` by the added elements and the counters only. */
  ghost predicate Adds(before: Machine, after: Machine, added: seq<Element>) {
    && after == before.(elements := before.elements + added, diagnostics := after.diagnostics)
    && after.diagnostics.unsupported == before.diagnostics.unsupported
  }

  lemma CharacterApplies(m: Machine, b: byte, width: ReceiptWidth)
    requires (IsPrintable(b) || b == RETURN) && |m.text| + 1 <= MAX_TEXT_BYTES
    ensures Writable(CharacterCommand(b)) && TroubleWith(m, CharacterCommand(b)).Fine?
    ensures Apply(m, CharacterCommand(b), width) == m.(text := m.text + WithoutReturns([b]))
  {
    assert m.text + [] == m.text;
  }

  lemma SingleWithout(b: byte)
    ensures WithoutReturns([b]) == if b == RETURN then [] else [b]
  {
    assert [b][1..] == [];
  }

  lemma FirstWithout(line: Ascii)
    requires line != []
    ensures WithoutReturns(line) == WithoutReturns([line[0]]) + WithoutReturns(line[1..]) && |WithoutReturns([line[0]])| <= 1
  {
    SingleWithout(line[0]);
  }

  lemma FirstCommand(line: Ascii)
    requires line != []
    ensures Characters(line) == [CharacterCommand(line[0])] + Characters(line[1..])
    ensures Soft(line) ==> Soft(line[1..]) && (IsPrintable(line[0]) || line[0] == RETURN)
  {
  }

  lemma NoCharacters(m: Machine, width: ReceiptWidth)
    ensures Smooth(m, Characters([]), width) && ApplyAll(m, Characters([]), width) == m
    ensures m.text + WithoutReturns([]) == m.text
  {
  }

  lemma JoinsText(text: Ascii, line: Ascii)
    requires line != []
    ensures (text + WithoutReturns([line[0]])) + WithoutReturns(line[1..]) == text + WithoutReturns(line)
    ensures |text + WithoutReturns([line[0]])| <= |text| + 1
  {
    hide WithoutReturns;
    FirstWithout(line);
  }

  lemma {:induction false} CharactersApply(m: Machine, line: Ascii, width: ReceiptWidth)
    requires Soft(line) && |m.text| + |line| <= MAX_TEXT_BYTES
    ensures Smooth(m, Characters(line), width)
    ensures ApplyAll(m, Characters(line), width) == m.(text := m.text + WithoutReturns(line))
    decreases |line|
  {
    hide *;
    if line == [] {
      NoCharacters(m, width);
    } else {
      var c, rest := CharacterCommand(line[0]), line[1..];
      FirstCommand(line);
      JoinsText(m.text, line);
      CharacterApplies(m, line[0], width);
      CharactersApply(Apply(m, c, width), rest, width);
      Then(m, c, Characters(rest), width);
    }
  }

  lemma LineApplies(m: Machine, line: Ascii, width: ReceiptWidth)
    requires Soft(line) && |line| <= 48 && m.text == []
    ensures Smooth(m, Characters(line) + [NewLine], width)
    ensures Adds(m, ApplyAll(m, Characters(line) + [NewLine], width),
                 [LineNormal(WithoutReturns(line), m.alignment, m.bold, width)])
  {
    hide LineElement;
    CharactersApply(m, line, width);
    var full := m.(text := WithoutReturns(line));
    assert m.text + WithoutReturns(line) == WithoutReturns(line);
    assert [NewLine][1..] == [];
    assert Smooth(full, [NewLine], width);
    SmoothAppends(m, Characters(line), [NewLine], width);
    assert ApplyAll(full, [NewLine], width) == full.FinishLine(width);
  }

  ghost predicate Lines48(lines: seq<Ascii>) {
    forall i :: 0 <= i < |lines| ==> AllPrintable(lines[i]) && |lines[i]| <= 48
  }

  lemma {:induction false} LinesApply(m: Machine, lines: seq<Ascii>, width: ReceiptWidth)
    requires m.text == [] && Lines48(lines)
    ensures Smooth(m, LineCommands(lines), width)
    ensures Adds(m, ApplyAll(m, LineCommands(lines), width), LinesNormal(lines, m.alignment, m.bold, width))
    decreases |lines|
  {
    hide Apply, TroubleWith, LineNormal;
    if lines != [] {
      var first := Characters(lines[0]) + [NewLine];
      var next := ApplyAll(m, first, width);
      PrintableIsSoft(lines[0]);
      LineApplies(m, lines[0], width);
      LinesApply(next, lines[1..], width);
      SmoothAppends(m, first, LineCommands(lines[1..]), width);
      AddsCompose(m, next, ApplyAll(next, LineCommands(lines[1..]), width),
        [LineNormal(lines[0], m.alignment, m.bold, width)],
        LinesNormal(lines[1..], m.alignment, m.bold, width));
    }
  }

  lemma AddsCompose(a: Machine, b: Machine, c: Machine, first: seq<Element>, second: seq<Element>)
    requires Adds(a, b, first) && Adds(b, c, second)
    ensures Adds(a, c, first + second)
  {
    assert a.elements + first + second == a.elements + (first + second);
  }

  // ---------- One element ----------

  lemma {:induction false} JoinedColumnsFit(lefts: seq<Ascii>, rights: seq<Ascii>, index: nat, width: nat)
    requires forall i :: 0 <= i < |lefts| ==> |lefts[i]| <= LeftWidth(width) && AllPrintable(lefts[i])
    requires forall i :: 0 <= i < |rights| ==> |rights[i]| <= RightWidth(width) && AllPrintable(rights[i])
    requires width >= 2
    ensures forall i :: 0 <= i < |JoinColumns(lefts, rights, index, width)| ==>
      AllPrintable(JoinColumns(lefts, rights, index, width)[i])
      && |JoinColumns(lefts, rights, index, width)[i]| == width
    decreases Max(|lefts|, |rights|) - index
  {
    if index < Max(|lefts|, |rights|) {
      JoinedColumnsFit(lefts, rights, index + 1, width);
    }
  }

  /** Every line of a laid-out row is printable and exactly one receipt wide. */
  lemma RowLinesFit(left: Ascii, right: Ascii, width: ReceiptWidth)
    requires PrintableRow(left, right, width)
    ensures forall i :: 0 <= i < |LaidOut(left, right, Columns(width))| ==>
      AllPrintable(LaidOut(left, right, Columns(width))[i])
      && |LaidOut(left, right, Columns(width))[i]| == Columns(width)
  {
    hide Wrapped, IsLayoutText;
    var columns := Columns(width);
    if !FitsOneLine(left, right, columns) {
      var lefts, rights := Wrapped(left, LeftWidth(columns)), Wrapped(right, RightWidth(columns));
      forall i | 0 <= i < |lefts| ensures |lefts[i]| <= LeftWidth(columns) && AllPrintable(lefts[i]) {
        WrappedLinesFitAndAreStable(left, LeftWidth(columns), i);
        WrappedIsPrintable(left, LeftWidth(columns), i);
      }
      forall i | 0 <= i < |rights| ensures |rights[i]| <= RightWidth(columns) && AllPrintable(rights[i]) {
        WrappedLinesFitAndAreStable(right, RightWidth(columns), i);
        WrappedIsPrintable(right, RightWidth(columns), i);
      }
      JoinedColumnsFit(lefts, rights, 0, columns);
    }
  }

  /** Printing element `e` from a settled state adds its normal form and settles again. */
  ghost predicate Prints(m: Machine, e: Element, width: ReceiptWidth) {
    var commands := ElementCommands(e, Columns(width));
    var after := ApplyAll(m, commands, width);
    && Smooth(m, commands, width)
    && Settled(after)
    && after.elements == m.elements + NormalForm(e, width)
  }

  lemma One(m: Machine, c: Command, width: ReceiptWidth)
    ensures ApplyAll(m, [c], width) == Apply(m, c, width)
    ensures Smooth(m, [c], width) <==> Writable(c) && TroubleWith(m, c).Fine?
  {
    hide Apply, TroubleWith, Writable;
    assert [c][1..] == [];
  }

  lemma Then(m: Machine, c: Command, cs: seq<Command>, width: ReceiptWidth)
    requires Writable(c) && TroubleWith(m, c).Fine? && Smooth(Apply(m, c, width), cs, width)
    ensures Smooth(m, [c] + cs, width)
    ensures ApplyAll(m, [c] + cs, width) == ApplyAll(Apply(m, c, width), cs, width)
  {
    hide Apply, TroubleWith, Writable;
    assert ([c] + cs)[1..] == cs;
  }

  lemma Styles(m: Machine, alignment: Alignment, bold: bool, width: ReceiptWidth)
    requires m.text == []
    ensures TroubleWith(m, SetAlignment(AlignmentCode(alignment))).Fine?
    ensures Apply(m, SetAlignment(AlignmentCode(alignment)), width) == m.Counted().(alignment := alignment)
    ensures TroubleWith(m, SetBold(Flag(bold))).Fine?
    ensures Apply(m, SetBold(Flag(bold)), width) == m.Counted().(bold := bold)
  {
  }

  lemma Lightens(m: Machine, width: ReceiptWidth)
    requires m.text == []
    ensures TroubleWith(m, SetBold(0)).Fine? && Apply(m, SetBold(0), width) == m.Counted().(bold := false)
  {
  }

  lemma TextPrints(m: Machine, value: Ascii, alignment: Alignment, bold: bool, width: ReceiptWidth)
    requires Settled(m) && IsLayoutText(value)
    ensures Prints(m, Text(value, alignment, bold), width)
  {
    hide Wrapped, IsLayoutText, LineCommands, LinesNormal, Apply, TroubleWith;
    var lines := Wrapped(value, Columns(width));
    forall i | 0 <= i < |lines| ensures AllPrintable(lines[i]) && |lines[i]| <= 48 {
      WrappedLinesFitAndAreStable(value, Columns(width), i);
      WrappedIsPrintable(value, Columns(width), i);
    }
    var a, b, off := SetAlignment(AlignmentCode(alignment)), SetBold(Flag(bold)), SetBold(0);
    var aligned := m.Counted().(alignment := alignment);
    var styled := aligned.Counted().(bold := bold);
    Styles(m, alignment, bold, width);
    LinesApply(styled, lines, width);
    var printed := ApplyAll(styled, LineCommands(lines), width);
    One(printed, off, width);
    Lightens(printed, width);
    SmoothAppends(styled, LineCommands(lines), [off], width);
    Styles(aligned, alignment, bold, width);
    Then(aligned, b, LineCommands(lines) + [off], width);
    Then(m, a, [b] + (LineCommands(lines) + [off]), width);
    assert [a] + ([b] + (LineCommands(lines) + [off])) == [a, b] + LineCommands(lines) + [off];
  }

  lemma SoftParts(left: Ascii, gap: Ascii, right: Ascii)
    requires Soft(left + gap + right)
    ensures NEWLINE !in left && NEWLINE !in right
  {
    var line := left + gap + right;
    assert forall i :: 0 <= i < |left| ==> line[i] == left[i];
    assert forall i :: 0 <= i < |right| ==> line[|left| + |gap| + i] == right[i];
  }

  /** A row on one line: that line, as wide as the receipt when nothing but carriage returns is unprintable in it. */
  lemma OneLineRow(left: Ascii, right: Ascii, width: ReceiptWidth)
    requires FitsOneLine(left, right, Columns(width))
    ensures |LaidOut(left, right, Columns(width))| == 1
    ensures var line := LaidOut(left, right, Columns(width))[0];
      LaidOut(left, right, Columns(width)) == [line] && (Soft(line) ==> |line| == Columns(width))
  {
    hide Soft, DisplayWidth;
    var gap := Repeat(SPACE, Columns(width) - DisplayWidth(left) - DisplayWidth(right));
    assert LaidOut(left, right, Columns(width)) == [left + gap + right];
    if Soft(left + gap + right) {
      SoftParts(left, gap, right);
    }
  }

  lemma SoftLineApplies(m: Machine, line: Ascii, width: ReceiptWidth)
    requires m.text == [] && Soft(line) && |line| <= 48
    ensures Smooth(m, LineCommands([line]), width)
    ensures Adds(m, ApplyAll(m, LineCommands([line]), width), [LineNormal(WithoutReturns(line), m.alignment, m.bold, width)])
  {
    hide LineNormal, Soft, ApplyAll, Smooth, Adds;
    LineApplies(m, line, width);
    assert LineCommands([line]) == Characters(line) + [NewLine];
  }

  lemma RowLinesApply(m: Machine, left: Ascii, right: Ascii, width: ReceiptWidth)
    requires m.text == [] && m.alignment == Left && !m.bold && InterpretableRow(left, right, width)
    ensures var lines := LaidOut(left, right, Columns(width));
      && Smooth(m, LineCommands(lines), width)
      && Adds(m, ApplyAll(m, LineCommands(lines), width), LinesNormal(lines, Left, false, width))
  {
    hide Wrapped, IsLayoutText, LineCommands, LinesNormal, LaidOut, Smooth, ApplyAll, LineNormal, Adds, Soft;
    var lines := LaidOut(left, right, Columns(width));
    if FitsOneLine(left, right, Columns(width)) {
      OneLineRow(left, right, width);
      SoftLineApplies(m, lines[0], width);
      SingleNormal(lines[0], width);
    } else {
      RowLinesFit(left, right, width);
      LinesApply(m, lines, width);
    }
  }

  lemma SingleNormal(line: Ascii, width: ReceiptWidth)
    ensures LinesNormal([line], Left, false, width) == [LineNormal(line, Left, false, width)]
  {
    hide LineNormal;
  }

  lemma RowPrints(m: Machine, left: Ascii, right: Ascii, width: ReceiptWidth)
    requires Settled(m) && Interpretable(Row(left, right), width)
    ensures Prints(m, Row(left, right), width)
  {
    hide InterpretableRow, LineCommands, LinesNormal, LaidOut;
    var lines := LaidOut(left, right, Columns(width));
    var aligned := Apply(m, SetAlignment(0), width);
    RowLinesApply(aligned, left, right, width);
    Then(m, SetAlignment(0), LineCommands(lines), width);
  }

  lemma DividerPrints(m: Machine, width: ReceiptWidth)
    requires Settled(m)
    ensures Prints(m, Divider, width)
  {
    hide LineCommands;
    var dashes := Repeat(DASH, Columns(width));
    LinesApply(m, [dashes], width);
    assert LineNormal(dashes, m.alignment, m.bold, width) == Divider;
  }

  lemma SinglePrints(m: Machine, e: Element, c: Command, width: ReceiptWidth)
    requires Settled(m) && ElementCommands(e, Columns(width)) == [c]
    requires Interpretable(e, width) && (e.Image? || e.Feed? || e.Cut?)
    ensures Prints(m, e, width)
  {
    One(m, c, width);
  }

  /** Model, size and correction level only count as commands. */
  lemma QrSettings(m: Machine, width: ReceiptWidth)
    requires m.text == []
    ensures forall payload :: payload in [[49, 65, 50, 0], [49, 67, 6], [49, 69, 49]] ==>
      Writable(QrCommand(payload)) && TroubleWith(m, QrCommand(payload)).Fine?
      && Apply(m, QrCommand(payload), width) == m.Counted()
  {
  }

  lemma QrStoreAndPrint(m: Machine, content: seq<byte>, width: ReceiptWidth)
    requires m.text == [] && IsUtf8(content) && |content| <= MAX_QR_BYTES
    ensures var d, e := QrCommand([49, 80, 48] + content), QrCommand([49, 81, 48]);
      Smooth(m, [d] + [e], width)
      && ApplyAll(m, [d] + [e], width) == Apply(m.Counted().(qr := Some(content)), e, width)
  {
    hide IsUtf8;
    var d, e := QrCommand([49, 80, 48] + content), QrCommand([49, 81, 48]);
    var stored := m.Counted().(qr := Some(content));
    assert ([49, 80, 48] + content)[3..] == content;
    assert Writable(d) && TroubleWith(m, d).Fine? && Apply(m, d, width) == stored;
    assert Writable(e) && TroubleWith(stored, e).Fine?;
    hide Apply, TroubleWith, Writable;
    One(stored, e, width);
    Then(m, d, [e], width);
  }

  lemma QrPrinted(m: Machine, content: seq<byte>, width: ReceiptWidth)
    requires Settled(m) && Interpretable(Qr(content), width)
    ensures var m3 := m.Counted().Counted().Counted();
      Apply(m3.Counted().(qr := Some(content)), QrCommand([49, 81, 48]), width)
      == m3.Counted().Counted().Push(Qr(content)).(qr := None,
           diagnostics := m3.Counted().Counted().diagnostics.(qrCodes := m.diagnostics.qrCodes + 1))
  {
    hide IsUtf8;
  }

  lemma QrChain(m: Machine, content: seq<byte>, width: ReceiptWidth)
    requires m.text == [] && IsUtf8(content) && |content| <= MAX_QR_BYTES
    ensures var cs := [QrCommand([49, 65, 50, 0]), QrCommand([49, 67, 6]), QrCommand([49, 69, 49]),
                       QrCommand([49, 80, 48] + content), QrCommand([49, 81, 48])];
      Smooth(m, cs, width)
      && ApplyAll(m, cs, width)
         == Apply(m.Counted().Counted().Counted().Counted().(qr := Some(content)), QrCommand([49, 81, 48]), width)
  {
    hide IsUtf8;
    var a, b, c := QrCommand([49, 65, 50, 0]), QrCommand([49, 67, 6]), QrCommand([49, 69, 49]);
    var d, e := QrCommand([49, 80, 48] + content), QrCommand([49, 81, 48]);
    QrSettings(m, width);
    QrSettings(m.Counted(), width);
    QrSettings(m.Counted().Counted(), width);
    hide Apply, TroubleWith, Writable, Smooth, ApplyAll;
    QrStoreAndPrint(m.Counted().Counted().Counted(), content, width);
    Then(m.Counted().Counted(), c, [d] + [e], width);
    Then(m.Counted(), b, [c] + ([d] + [e]), width);
    Then(m, a, [b] + ([c] + ([d] + [e])), width);
    assert [a] + ([b] + ([c] + ([d] + [e]))) == [a, b, c, d, e];
  }

  lemma QrPrints(m: Machine, content: seq<byte>, width: ReceiptWidth)
    requires Settled(m) && Interpretable(Qr(content), width)
    ensures Prints(m, Qr(content), width)
  {
    hide IsUtf8, Apply, TroubleWith, Smooth, ApplyAll;
    QrPrinted(m, content, width);
    QrChain(m, content, width);
  }

  lemma BarcodeApplies(m: Machine, format: BarcodeFormat, code: Ascii, width: ReceiptWidth)
    requires m.text == [] && BarcodeAccepted(format, code)
    ensures var c := BarcodeData(BarcodeKind(format), BarcodePayload(format, code));
      && Writable(c) && TroubleWith(m, c).Fine?
      && Apply(m, c, width) == ApplyBarcode(m.Counted(), BarcodeKind(format), BarcodePayload(format, code))
      && Apply(m, c, width).elements == m.elements + [Barcode(format, code, m.barHeight, m.hri)]
  {
    hide IsUtf8;
    var payload := BarcodePayload(format, code);
    assert IsAscii(code);
    AsciiIsUtf8(code);
    assert format == Code128 ==> payload[2..] == code && [123, 66] <= payload;
  }

  lemma BarcodePrints(m: Machine, format: BarcodeFormat, code: Ascii, heightDots: byte, humanReadable: bool, width: ReceiptWidth)
    requires Settled(m) && BarcodeAccepted(format, code)
    ensures Prints(m, Barcode(format, code, heightDots, humanReadable), width)
  {
    hide BarcodeAccepted, BarcodePayload, Writable;
    var a, b := SetHri(if humanReadable then 2 else 0), SetBarHeight(heightDots);
    var d := BarcodeData(BarcodeKind(format), BarcodePayload(format, code));
    var m1 := m.Counted().(hri := humanReadable);
    var m2 := m1.Counted().(barHeight := heightDots);
    Switches(m, humanReadable, heightDots, width);
    Switches(m1, humanReadable, heightDots, width);
    BarcodeApplies(m2, format, code, width);
    hide Apply, TroubleWith;
    One(m2, d, width);
    Then(m1, b, [d], width);
    Then(m, a, [b] + [d], width);
    assert [a] + ([b] + [d]) == [a, b, d];
  }

  lemma Switches(m: Machine, humanReadable: bool, heightDots: byte, width: ReceiptWidth)
    requires m.text == []
    ensures var a := SetHri(if humanReadable then 2 else 0);
      Writable(a) && TroubleWith(m, a).Fine? && Apply(m, a, width) == m.Counted().(hri := humanReadable)
    ensures var b := SetBarHeight(heightDots);
      Writable(b) && TroubleWith(m, b).Fine? && Apply(m, b, width) == m.Counted().(barHeight := heightDots)
  {
  }

  lemma ElementPrints(m: Machine, e: Element, width: ReceiptWidth)
    requires Settled(m) && Interpretable(e, width) && ElementBytes(e, Columns(width)).Ok?
    ensures Prints(m, e, width)
  {
    hide Prints, Settled;
    match e {
      case Text(value, alignment, bold) => TextPrints(m, value, alignment, bold, width);
      case Row(left, right) => RowPrints(m, left, right, width);
      case Divider => DividerPrints(m, width);
      case Image(image) => SinglePrints(m, e, Raster(image.stride, image.height, image.data), width);
      case Qr(content) => QrPrints(m, content, width);
      case Barcode(format, code, h, hri) => BarcodePrints(m, format, code, h, hri, width);
      case Feed(lines) => SinglePrints(m, e, FeedLines(lines), width);
      case Cut => SinglePrints(m, e, CutPaper(0), width);
    }
  }

  // ---------- Whole layouts ----------

  ghost predicate AllInterpretable(elements: seq<Element>, width: ReceiptWidth) {
    forall i :: 0 <= i < |elements| ==> Interpretable(elements[i], width)
  }

  lemma {:induction false} ElementsRun(elements: seq<Element>, offset: nat, m: Machine, width: ReceiptWidth)
    requires Settled(m) && AllInterpretable(elements, width)
    requires ElementsBytes(elements, Columns(width)).Ok?
    ensures var r := Run(ElementsBytes(elements, Columns(width)).value, offset, m, width);
      r.Ok? && Settled(r.value) && r.value.elements == m.elements + NormalForms(elements, width)
    decreases |elements|
  {
    hide NormalForm, Interpretable, ElementBytes, ElementCommands, Run, Smooth, ApplyAll;
    if elements == [] {
      RunNothing(offset, m, width);
      assert m.elements + [] == m.elements;
    } else {
      var e, columns := elements[0], Columns(width);
      var rest := ElementsBytes(elements[1..], columns).value;
      var commands := ElementCommands(e, columns);
      QrIsShort(e, width);
      EncodeElement(e, columns);
      ElementPrints(m, e, width);
      RunEncoded(commands, rest, offset, m, width);
      var after := ApplyAll(m, commands, width);
      ElementsRun(elements[1..], offset + |EncodeAll(commands)|, after, width);
      assert m.elements + NormalForm(e, width) + NormalForms(elements[1..], width)
          == m.elements + NormalForms(elements, width);
    }
  }

  lemma RunNothing(offset: nat, m: Machine, width: ReceiptWidth)
    ensures Run([], offset, m, width) == Ok(m)
  {
  }

  lemma QrIsShort(e: Element, width: ReceiptWidth)
    requires Interpretable(e, width)
    ensures e.Qr? ==> |e.content| <= MAX_QR_BYTES
  {
  }

  /**
   For every layout that renders and stays inside the subset, interpreting the
   rendered bytes succeeds, meets no unsupported command and yields exactly the
   concatenation of the elements' normal forms.
   */
  lemma RenderedLayoutNormalizes(layout: PrintLayout)
    requires Rendered(layout).Ok? && AllInterpretable(layout.elements, layout.width)
    ensures var r := Interpreted(Rendered(layout).value, layout.width);
      && r.Ok?
      && r.value.layout == PrintLayout(layout.width, NormalForms(layout.elements, layout.width))
      && r.value.diagnostics.unsupported == []
  {
    hide Run, Apply;
    var body := ElementsBytes(layout.elements, Columns(layout.width)).value;
    InitializeRuns(body, layout.width);
    ElementsRun(layout.elements, 2, INITIAL.Counted(), layout.width);
  }

  lemma InitializeRuns(body: seq<byte>, width: ReceiptWidth)
    ensures Run([ESC, 64] + body, 0, INITIAL, width) == Run(body, 2, INITIAL.Counted(), width)
    ensures Settled(INITIAL.Counted()) && INITIAL.Counted().elements == []
  {
    RunOne(Initialize, body, 0, INITIAL, width);
  }

  /** Interpretation is a homomorphism: printing two layouts in one stream interprets them side by side. */
  lemma InterpretationIsHomomorphic(a: PrintLayout, b: PrintLayout)
    requires a.width == b.width
    requires Rendered(a).Ok? && AllInterpretable(a.elements, a.width)
    requires Rendered(b).Ok? && AllInterpretable(b.elements, b.width)
    ensures var both := Rendered(PrintLayout(a.width, a.elements + b.elements));
      && both.Ok?
      && Interpreted(both.value, a.width).Ok?
      && Interpreted(Rendered(a).value, a.width).Ok?
      && Interpreted(Rendered(b).value, b.width).Ok?
      && Interpreted(both.value, a.width).value.layout.elements
         == Interpreted(Rendered(a).value, a.width).value.layout.elements
          + Interpreted(Rendered(b).value, b.width).value.layout.elements
  {
    hide Interpreted, NormalForms, AllInterpretable;
    var both := a.elements + b.elements;
    RendersTogether(a.elements, b.elements, Columns(a.width));
    NormalFormsAppend(a.elements, b.elements, a.width);
    InterpretableTogether(a.elements, b.elements, a.width);
    RenderedLayoutNormalizes(a);
    RenderedLayoutNormalizes(b);
    RenderedLayoutNormalizes(PrintLayout(a.width, both));
  }

  lemma InterpretableTogether(a: seq<Element>, b: seq<Element>, width: ReceiptWidth)
    requires AllInterpretable(a, width) && AllInterpretable(b, width)
    ensures AllInterpretable(a + b, width)
  {
    hide Interpretable;
  }

  lemma {:induction false} RendersTogether(a: seq<Element>, b: seq<Element>, columns: nat)
    requires ElementsBytes(a, columns).Ok? && ElementsBytes(b, columns).Ok?
    ensures ElementsBytes(a + b, columns).Ok?
  {
    hide ElementBytes;
    if a == [] {
      assert a + b == b;
    } else {
      assert (a + b)[0] == a[0] && (a + b)[1..] == a[1..] + b;
      RendersTogether(a[1..], b, columns);
    }
  }

  lemma {:induction false} NormalFormsAppend(a: seq<Element>, b: seq<Element>, width: ReceiptWidth)
    ensures NormalForms(a + b, width) == NormalForms(a, width) + NormalForms(b, width)
  {
    hide NormalForm;
    if a == [] {
      assert a + b == b;
    } else {
      assert (a + b)[0] == a[0] && (a + b)[1..] == a[1..] + b;
      NormalFormsAppend(a[1..], b, width);
      assert NormalForm(a[0], width) + NormalForms(a[1..], width) + NormalForms(b, width)
          == NormalForm(a[0], width) + (NormalForms(a[1..], width) + NormalForms(b, width));
    }
  }

  // ---------- The exact inverse ----------

  /** Elements that printing and interpreting leave alone. */
  ghost predicate Canonical(e: Element, width: ReceiptWidth) {
    match e
    case Text(value, _, _) =>
      && Tidy(value, Columns(width)) && AllPrintable(value)
      && !(|value| == Columns(width) && AllDashes(value))
    case Row(left, right) => CleanCells(left, right) && |left| + 2 + |right| <= Columns(width)
    case Image(image) => ImageFits(image) && ByteAligned(image)
    case Qr(content) => IsUtf8(content) && |content| <= MAX_QR_BYTES
    case Feed(lines) => lines >= 1
    case _ => true
  }

  ghost predicate AllCanonical(elements: seq<Element>, width: ReceiptWidth) {
    forall i :: 0 <= i < |elements| ==> Canonical(elements[i], width)
  }

  /** A tidy line holds no two adjacent spaces, so it never reads as a row. */
  lemma TidyIsNoRow(line: Ascii, width: nat)
    requires Tidy(line, width)
    ensures SplitEmittedRow(line).None?
  {
    var k := LastSpaces(line);
    assert k >= 0 ==> GapAt(line, k);
  }

  /** The last two adjacent spaces of a clean row are the end of its gap. */
  lemma CleanRowGap(line: Ascii, left: Ascii, right: Ascii, gap: nat)
    requires CleanCells(left, right) && gap >= 2 && line == left + Repeat(SPACE, gap) + right
    ensures LastSpaces(line) == |left| + gap - 2
  {
    hide TrimEnd, TrimStart, LastSpaces, Repeat;
    var k := |left| + gap - 2;
    assert SpacesAt(line, k);
    forall i | i > k ensures !SpacesAt(line, i) {
      if i + 1 < |line| {
        var j := i - |left| - gap;
        assert line[i + 1] == right[j + 1];
        if j >= 0 {
          assert line[i] == right[j] && !SpacesAt(right, j);
        }
      }
    }
  }

  lemma CleanRowHead(line: Ascii, left: Ascii, right: Ascii, gap: nat)
    requires CleanCells(left, right) && gap >= 2 && line == left + Repeat(SPACE, gap) + right
    ensures var k := |left| + gap - 2;
      k + 2 <= |line| && left != [] && TrimEnd(line[..k]) == left && line[k + 2..] == right && TrimStart(right) == right
  {
    hide TrimEnd, Repeat, SpacesAt;
    var head := line[..|left| + gap - 2];
    assert head[..|left|] == left;
    assert head[|left| - 1] == left[|left| - 1];
  }

  /** A wide enough gap between clean cells is found again. */
  lemma CleanRowSplits(left: Ascii, right: Ascii, gap: nat)
    requires CleanCells(left, right) && gap >= 2
    ensures SplitEmittedRow(left + Repeat(SPACE, gap) + right) == Some((left, right))
  {
    hide *;
    var line := left + Repeat(SPACE, gap) + right;
    CleanRowGap(line, left, right, gap);
    CleanRowHead(line, left, right, gap);
    SplitsThere(line, |left| + gap - 2);
  }

  lemma SplitsThere(line: Ascii, k: nat)
    requires LastSpaces(line) == k && k + 2 <= |line| && TrimEnd(line[..k]) != []
    ensures SplitEmittedRow(line) == Some((TrimEnd(line[..k]), TrimStart(line[k + 2..])))
  {
    hide LastSpaces, TrimEnd, TrimStart;
  }

  lemma CleanIsInterpretable(left: Ascii, right: Ascii, width: ReceiptWidth)
    requires CleanCells(left, right)
    ensures InterpretableRow(left, right, width)
  {
    hide InterpretableRow;
    PrintableRowIsInterpretable(left, right, width);
  }

  lemma CanonicalRowNormal(left: Ascii, right: Ascii, width: ReceiptWidth)
    requires Canonical(Row(left, right), width)
    ensures NormalForm(Row(left, right), width) == [Row(left, right)]
    ensures Interpretable(Row(left, right), width)
  {
    hide SplitEmittedRow, InterpretableRow;
    CleanIsInterpretable(left, right, width);
    var columns := Columns(width);
    var gap := columns - |left| - |right|;
    assert DisplayWidth(left) == |left| && DisplayWidth(right) == |right|;
    CleanRowSplits(left, right, gap);
    var line := left + Repeat(SPACE, gap) + right;
    assert line[|left|] == SPACE;
    assert LaidOut(left, right, columns) == [line];
  }

  lemma CanonicalTextNormal(value: Ascii, alignment: Alignment, bold: bool, width: ReceiptWidth)
    requires Canonical(Text(value, alignment, bold), width)
    ensures NormalForm(Text(value, alignment, bold), width) == [Text(value, alignment, bold)]
    ensures Interpretable(Text(value, alignment, bold), width)
  {
    hide Wrapped;
    EmittedIsStable(value, Columns(width));
    TidyIsNoRow(value, Columns(width));
  }

  lemma CanonicalIsFixed(e: Element, width: ReceiptWidth)
    requires Canonical(e, width)
    ensures Interpretable(e, width) && NormalForm(e, width) == [e]
  {
    hide LinesNormal, Wrapped, LaidOut;
    match e {
      case Text(value, alignment, bold) => CanonicalTextNormal(value, alignment, bold, width);
      case Row(left, right) => CanonicalRowNormal(left, right, width);
      case _ =>
    }
  }

  /** What the interpreter can produce is canonical as soon as it is its own normal form. */
  lemma FixedIsCanonical(e: Element, width: ReceiptWidth)
    requires Produced(e) && Interpretable(e, width) && NormalForm(e, width) == [e]
    ensures Canonical(e, width)
  {
    hide Wrapped, LaidOut, SplitEmittedRow;
    var columns := Columns(width);
    match e {
      case Text(value, alignment, bold) =>
        assert Wrapped(value, columns) == [Wrapped(value, columns)[0]];
        StableIffEmitted(value, columns);
      case Row(left, right) =>
        assert PrintableRow(left, right, width);
        RowLinesFit(left, right, width);
        var line := LaidOut(left, right, columns)[0];
        SplitRowIsClean(line);
      case _ =>
    }
  }

  ghost predicate Blank(e: Element) { e.Text? && Ink(e.value) == [] }

  lemma InkedText(value: Ascii)
    requires AllPrintable(value) && value != [] && value[|value| - 1] != SPACE
    ensures Ink(value) != [] && NEWLINE !in value && RETURN !in value
  {
    InkMember(value, value[|value| - 1]);
  }

  lemma InkWraps(value: Ascii, width: nat)
    requires Ink(value) != []
    ensures Wrapped(value, width) != []
  {
    hide Wrapped;
    WrappingConservesInk(value, width);
  }

  lemma PrintableHasNoNewline(value: Ascii)
    requires AllPrintable(value)
    ensures NEWLINE !in value
  {
  }

  lemma LineInk(line: Ascii, alignment: Alignment, bold: bool, width: ReceiptWidth)
    requires Ink(line) != []
    ensures !Blank(LineNormal(line, alignment, bold, width))
  {
    hide SplitEmittedRow;
  }

  lemma TidyHasInk(line: Ascii, width: nat)
    requires Tidy(line, width)
    ensures Ink(line) != []
  {
  }

  /** Text with ink prints something, and nothing it prints is blank. */
  lemma TextNormalHasInk(value: Ascii, alignment: Alignment, bold: bool, width: ReceiptWidth)
    requires AllPrintable(value) && value != []
    ensures var n := NormalForm(Text(value, alignment, bold), width);
      && (Ink(value) != [] ==> n != [])
      && forall i :: 0 <= i < |n| ==> !Blank(n[i])
  {
    hide Wrapped, LineNormal;
    var columns := Columns(width);
    if Ink(value) != [] {
      InkWraps(value, columns);
    }
    PrintableHasNoNewline(value);
    OneLineWrapsTidily(value, columns);
    forall i | 0 <= i < |Wrapped(value, columns)|
      ensures !Blank(LineNormal(Wrapped(value, columns)[i], alignment, bold, width))
    {
      TidyHasInk(Wrapped(value, columns)[i], columns);
      LineInk(Wrapped(value, columns)[i], alignment, bold, width);
    }
  }

  lemma {:induction false} JoinedColumnsInk(lefts: seq<Ascii>, rights: seq<Ascii>, index: nat, width: nat)
    requires forall i :: 0 <= i < |lefts| ==> Ink(lefts[i]) != []
    requires forall i :: |lefts| <= i < |rights| ==> Ink(rights[i]) != []
    ensures forall i :: 0 <= i < |JoinColumns(lefts, rights, index, width)| ==>
      Ink(JoinColumns(lefts, rights, index, width)[i]) != []
    decreases Max(|lefts|, |rights|) - index
  {
    if index < Max(|lefts|, |rights|) {
      var left, right := LineAt(lefts, index), LineAt(rights, index);
      var gap := Repeat(SPACE, Max(width - (|left| + |right|), 1));
      InkAppends(left + gap, right);
      InkAppends(left, gap);
      JoinedColumnsInk(lefts, rights, index + 1, width);
    }
  }

  lemma RowNormalHasInk(left: Ascii, right: Ascii, width: ReceiptWidth)
    requires CleanCells(left, right)
    ensures var n := NormalForm(Row(left, right), width);
      n != [] && forall i :: 0 <= i < |n| ==> !Blank(n[i])
  {
    hide Wrapped, LineNormal, CleanCells;
    var columns := Columns(width);
    var lines := LaidOut(left, right, columns);
    CleanLeftHasInk(left, right);
    if FitsOneLine(left, right, columns) {
      var gap := Repeat(SPACE, columns - DisplayWidth(left) - DisplayWidth(right));
      InkAppends(left + gap, right);
      InkAppends(left, gap);
    } else {
      var lefts, rights := Wrapped(left, LeftWidth(columns)), Wrapped(right, RightWidth(columns));
      InkWraps(left, LeftWidth(columns));
      CellWrapsWithInk(left, LeftWidth(columns));
      CellWrapsWithInk(right, RightWidth(columns));
      if right == [] {
        EmittedIsStable(right, RightWidth(columns));
      }
      JoinedColumnsInk(lefts, rights, 0, columns);
    }
    forall i | 0 <= i < |lines| ensures !Blank(LineNormal(lines[i], Left, false, width)) {
      LineInk(lines[i], Left, false, width);
    }
  }

  lemma CleanLeftHasInk(left: Ascii, right: Ascii)
    requires CleanCells(left, right)
    ensures Ink(left) != [] && NEWLINE !in left && NEWLINE !in right
  {
    InkedText(left);
  }

  lemma CellWrapsWithInk(cell: Ascii, width: nat)
    requires width >= 1 && NEWLINE !in cell
    ensures cell != [] ==> forall i :: 0 <= i < |Wrapped(cell, width)| ==> Ink(Wrapped(cell, width)[i]) != []
  {
    hide Wrapped;
    if cell != [] {
      OneLineWrapsTidily(cell, width);
      forall i | 0 <= i < |Wrapped(cell, width)| ensures Ink(Wrapped(cell, width)[i]) != [] {
        TidyHasInk(Wrapped(cell, width)[i], width);
      }
    }
  }

  lemma ProducedIsInterpretable(e: Element, width: ReceiptWidth)
    requires Produced(e)
    ensures Interpretable(e, width)
  {
    hide InterpretableRow, IsUtf8, CleanCells;
    if e.Row? {
      CleanIsInterpretable(e.left, e.right, width);
    }
  }

  /** Among producible elements only blank text vanishes, and none of them prints blank text. */
  lemma NormalHasInk(e: Element, width: ReceiptWidth)
    requires Produced(e)
    ensures !Blank(e) ==> NormalForm(e, width) != []
    ensures forall i :: 0 <= i < |NormalForm(e, width)| ==> !Blank(NormalForm(e, width)[i])
  {
    hide CleanCells, LinesNormal, Wrapped, LaidOut, Ink;
    match e {
      case Text(value, alignment, bold) => TextNormalHasInk(value, alignment, bold, width);
      case Row(left, right) => RowNormalHasInk(left, right, width);
      case _ =>
    }
  }

  lemma {:induction false} NormalFormsHaveInk(elements: seq<Element>, width: ReceiptWidth)
    requires AllProduced(elements)
    ensures forall i :: 0 <= i < |NormalForms(elements, width)| ==> !Blank(NormalForms(elements, width)[i])
  {
    hide NormalForm, Blank, Produced;
    if elements != [] {
      NormalHasInk(elements[0], width);
      NormalFormsHaveInk(elements[1..], width);
    }
  }

  /** With nothing vanishing, normal forms are at least as long, so equal length means one each. */
  lemma {:induction false} NormalFormsAlign(elements: seq<Element>, width: ReceiptWidth)
    requires forall i :: 0 <= i < |elements| ==> NormalForm(elements[i], width) != []
    ensures |NormalForms(elements, width)| >= |elements|
    ensures NormalForms(elements, width) == elements ==>
      forall i :: 0 <= i < |elements| ==> NormalForm(elements[i], width) == [elements[i]]
  {
    hide NormalForm;
    if elements != [] {
      var first, rest := NormalForm(elements[0], width), NormalForms(elements[1..], width);
      NormalFormsAlign(elements[1..], width);
      if NormalForms(elements, width) == elements {
        assert |first| == 1;
        assert first == elements[..1] && rest == elements[1..];
      }
    }
  }

  lemma {:induction false} CanonicalNormalForms(elements: seq<Element>, width: ReceiptWidth)
    requires AllCanonical(elements, width)
    ensures AllInterpretable(elements, width) && NormalForms(elements, width) == elements
  {
    hide Canonical, Interpretable, NormalForm;
    if elements != [] {
      CanonicalIsFixed(elements[0], width);
      CanonicalNormalForms(elements[1..], width);
      assert [elements[0]] + elements[1..] == elements;
      assert forall i :: 0 < i < |elements| ==> elements[i] == elements[1..][i - 1];
    }
  }

  lemma FixedLayoutIsCanonical(elements: seq<Element>, width: ReceiptWidth)
    requires AllProduced(elements) && NormalForms(elements, width) == elements
    ensures AllCanonical(elements, width)
  {
    hide Canonical, Interpretable, NormalForm, Produced, Blank, NormalForms;
    NormalFormsHaveInk(elements, width);
    forall i | 0 <= i < |elements| ensures NormalForm(elements[i], width) != [] {
      NormalHasInk(elements[i], width);
    }
    NormalFormsAlign(elements, width);
    forall i | 0 <= i < |elements| ensures Canonical(elements[i], width) {
      ProducedIsInterpretable(elements[i], width);
      FixedIsCanonical(elements[i], width);
    }
  }

  /** Interpreting the rendered bytes gives the layout back. */
  ghost predicate RoundTrips(layout: PrintLayout)
    requires Rendered(layout).Ok?
  {
    var r := Interpreted(Rendered(layout).value, layout.width);
    r.Ok? && r.value.layout == layout
  }

  /**
   The exact inverse: a layout that renders survives printing and interpreting
   unchanged if and only if every element is canonical. Canonical layouts meet no
   unsupported command.
   */
  lemma {:induction false} RoundTripsIffCanonical(layout: PrintLayout)
    requires Rendered(layout).Ok?
    ensures RoundTrips(layout) <==> AllCanonical(layout.elements, layout.width)
    ensures AllCanonical(layout.elements, layout.width) ==>
      Interpreted(Rendered(layout).value, layout.width).value.diagnostics.unsupported == []
  {
    hide Interpreted, Canonical, Interpretable, Produced, NormalForms;
    var elements, width := layout.elements, layout.width;
    if AllCanonical(elements, width) {
      CanonicalNormalForms(elements, width);
      RenderedLayoutNormalizes(layout);
    } else if RoundTrips(layout) {
      InterpretationIsSound(Rendered(layout).value, width);
      forall i | 0 <= i < |elements| ensures Interpretable(elements[i], width) {
        ProducedIsInterpretable(elements[i], width);
      }
      RenderedLayoutNormalizes(layout);
      FixedLayoutIsCanonical(elements, width);
      assert false;
    }
  }
}
