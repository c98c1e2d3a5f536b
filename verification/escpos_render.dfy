/** The ESC/POS printer: `RenderLayout` extends an output buffer element by element. */
module EscPosRender {
  import opened Bytes
  import opened Layout
  import opened Results
  import opened Wrapping
  import opened Rows
  import opened EscPosCommands

  datatype RenderError =
    | UnicodeRequiresRasterization
    | InvalidBarcode(format: BarcodeFormat)

  function AlignmentCode(a: Alignment): byte {
    match a case Left => 0 case Center => 1 case Right => 2
  }

  function Flag(b: bool): byte { if b then 1 else 0 }

  function RequireAscii(s: Ascii): Result<(), RenderError> {
    if IsAscii(s) then Ok(()) else Err(UnicodeRequiresRasterization)
  }

  function LineBytes(lines: seq<Ascii>): seq<byte> {
    if lines == [] then [] else lines[0] + [NEWLINE] + LineBytes(lines[1..])
  }

  function Low(n: nat): byte { (n % 256) as byte }

  function High(n: nat): byte { (n / 256 % 256) as byte }

  // Model 2, module size 6, medium error correction, print.
  const QR_MODEL: seq<byte> := [GS, 40, 107, 4, 0, 49, 65, 50, 0]
  const QR_SIZE: seq<byte> := [GS, 40, 107, 3, 0, 49, 67, 6]
  const QR_CORRECTION: seq<byte> := [GS, 40, 107, 3, 0, 49, 69, 49]
  const QR_PRINT: seq<byte> := [GS, 40, 107, 3, 0, 49, 81, 48]

  function QrStore(content: seq<byte>): seq<byte> {
    [GS, 40, 107, Low(|content| + 3), High(|content| + 3), 49, 80, 48] + content
  }

  function QrBytes(content: seq<byte>): seq<byte> {
    QR_MODEL + QR_SIZE + QR_CORRECTION + QrStore(content) + QR_PRINT
  }

  predicate IsDigit(b: byte) { 48 <= b <= 57 }

  predicate IsCode39(b: byte) {
    65 <= b <= 90 || IsDigit(b) || b in {32, 45, 46, 36, 47, 43, 37}
  }

  predicate Encodable39(code: Ascii) { forall i :: 0 <= i < |code| ==> IsCode39(code[i]) }

  predicate AllDigits(code: Ascii) { forall i :: 0 <= i < |code| ==> IsDigit(code[i]) }

  function BarcodeKind(format: BarcodeFormat): byte {
    match format case Code128 => 73 case Code39 => 69 case Ean13 => 67 case UpcA => 65
  }

  function BarcodePayload(format: BarcodeFormat, code: Ascii): seq<byte> {
    if format == Code128 then [123, 66] + code else code
  }

  predicate BarcodeAccepted(format: BarcodeFormat, code: Ascii) {
    && |BarcodePayload(format, code)| <= 255
    && match format
       case Code128 => IsAscii(code) && |code| <= 253
       case Code39 => Encodable39(code)
       case Ean13 => (|code| == 12 || |code| == 13) && AllDigits(code)
       case UpcA => (|code| == 11 || |code| == 12) && AllDigits(code)
  }

  function BarcodeHeader(kind: byte, length: byte): (header: seq<byte>)
    ensures |header| == 10
  {
    [GS, 72, 2, GS, 104, 80, GS, 107, kind, length]
  }

  function BarcodeBytes(format: BarcodeFormat, code: Ascii): (r: Result<seq<byte>, RenderError>)
    ensures r.Ok? ==> |r.value| >= 10
  {
    if BarcodeAccepted(format, code) then
      var payload := BarcodePayload(format, code);
      Ok(BarcodeHeader(BarcodeKind(format), Low(|payload|)) + payload)
    else Err(InvalidBarcode(format))
  }

  function ImageBytes(image: ReceiptImage): seq<byte> {
    [GS, 118, 48, 0, Low(image.stride), High(image.stride), Low(image.height), High(image.height)]
    + image.data
  }

  function ElementBytes(e: Element, columns: nat): Result<seq<byte>, RenderError> {
    match e
    case Text(value, alignment, bold) =>
      var _ :- RequireAscii(value);
      Ok([ESC, 97, AlignmentCode(alignment), ESC, 69, Flag(bold)]
         + LineBytes(Wrapped(value, columns)) + [ESC, 69, 0])
    case Row(left, right) =>
      var _ :- RequireAscii(left);
      var _ :- RequireAscii(right);
      Ok([ESC, 97, 0] + LineBytes(LaidOut(left, right, columns)))
    case Divider => Ok(Repeat(DASH, columns) + [NEWLINE])
    case Image(image) => Ok(ImageBytes(image))
    case Qr(content) => Ok(QrBytes(content))
    case Barcode(format, code, heightDots, humanReadable) =>
      var bytes :- BarcodeBytes(format, code);
      Ok(bytes[2 := if humanReadable then 2 else 0][5 := heightDots])
    case Feed(lines) => Ok([ESC, 100, lines])
    case Cut => Ok([GS, 86, 0])
  }

  function ElementsBytes(elements: seq<Element>, columns: nat): Result<seq<byte>, RenderError> {
    if elements == [] then Ok([])
    else
      var first :- ElementBytes(elements[0], columns);
      var rest :- ElementsBytes(elements[1..], columns);
      Ok(first + rest)
  }

  function Rendered(layout: PrintLayout): Result<seq<byte>, RenderError> {
    var body :- ElementsBytes(layout.elements, Columns(layout.width));
    Ok([ESC, 64] + body)
  }

  // ---------- Which layouts print ----------

  ghost predicate SevenBit(s: seq<byte>) { forall i :: 0 <= i < |s| ==> s[i] as int <= 0x7F }

  ghost predicate Decimal(s: seq<byte>) { forall i :: 0 <= i < |s| ==> '0' as int <= s[i] as int <= '9' as int }

  /** The 43 characters of Code 39. */
  ghost predicate Code39Character(b: byte) {
    || '0' as int <= b as int <= '9' as int
    || 'A' as int <= b as int <= 'Z' as int
    || b as char in {' ', '-', '.', '$', '/', '+', '%'}
  }

  /** What the printer can take: ASCII text, and codes in the character set and of a length of their format. */
  ghost predicate CanPrint(e: Element) {
    match e
    case Text(value, _, _) => SevenBit(value)
    case Row(left, right) => SevenBit(left) && SevenBit(right)
    case Barcode(Code128, code, _, _) => |code| <= 253 && SevenBit(code)
    case Barcode(Code39, code, _, _) => |code| <= 255 && forall i :: 0 <= i < |code| ==> Code39Character(code[i])
    case Barcode(Ean13, code, _, _) => |code| in {12, 13} && Decimal(code)
    case Barcode(UpcA, code, _, _) => |code| in {11, 12} && Decimal(code)
    case _ => true
  }

  ghost function Complaint(e: Element): RenderError {
    if e.Barcode? then InvalidBarcode(e.format) else UnicodeRequiresRasterization
  }

  ghost predicate FirstRefused(elements: seq<Element>, k: nat) {
    k < |elements| && !CanPrint(elements[k]) && forall j :: 0 <= j < k ==> CanPrint(elements[j])
  }

  /** An element prints exactly when the printer can take it, and the refusal says why. */
  lemma AcceptedIffPrintable(e: Element, columns: nat)
    ensures ElementBytes(e, columns).Ok? <==> CanPrint(e)
    ensures !CanPrint(e) ==> ElementBytes(e, columns) == Err(Complaint(e))
  {
    hide Wrapped, LaidOut, LineBytes;
    if e.Barcode? {
      Code39Characters(e.code);
    }
  }

  lemma Code39Characters(code: seq<byte>)
    ensures Encodable39(code) <==> forall i :: 0 <= i < |code| ==> Code39Character(code[i])
  {
    assert forall b: byte :: IsCode39(b) <==> Code39Character(b);
  }

  // ---------- The buffer-extending printer ----------

  /**
   A layout prints exactly when each of its elements does; otherwise the answer is the complaint
   about the first element that does not.
   */
  method RenderLayout(layout: PrintLayout) returns (r: Result<seq<byte>, RenderError>)
    ensures r == Rendered(layout)
    ensures r.Ok? <==> forall i :: 0 <= i < |layout.elements| ==> CanPrint(layout.elements[i])
    ensures r.Err? ==> exists k: nat :: FirstRefused(layout.elements, k) && r.error == Complaint(layout.elements[k])
  {
    hide ElementBytes, CanPrint, Complaint;
    var columns := Columns(layout.width);
    var output := [ESC, 64];
    for i := 0 to |layout.elements|
      invariant Rendered(layout) ==
        match ElementsBytes(layout.elements[i..], columns)
        case Err(error) => Err(error)
        case Ok(rest) => Ok(output + rest)
      invariant forall j :: 0 <= j < i ==> CanPrint(layout.elements[j])
    {
      assert layout.elements[i..][0] == layout.elements[i];
      assert layout.elements[i..][1..] == layout.elements[i + 1..];
      AcceptedIffPrintable(layout.elements[i], columns);
      assert CanPrint(layout.elements[i]) || FirstRefused(layout.elements, i);
      var bytes :- RenderElement(layout.elements[i], columns);
      assert forall rest: seq<byte> :: output + (bytes + rest) == (output + bytes) + rest;
      output := output + bytes;
    }
    assert output + [] == output;
    r := Ok(output);
  }

  method RenderElement(e: Element, columns: nat) returns (r: Result<seq<byte>, RenderError>)
    ensures r == ElementBytes(e, columns)
  {
    match e {
      case Text(value, alignment, bold) =>
        if !IsAscii(value) {
          return Err(UnicodeRequiresRasterization);
        }
        var lines := WrapText(value, columns);
        var text := RenderLines(lines);
        return Ok([ESC, 97, AlignmentCode(alignment), ESC, 69, Flag(bold)] + text + [ESC, 69, 0]);
      case Row(left, right) =>
        if !IsAscii(left) || !IsAscii(right) {
          return Err(UnicodeRequiresRasterization);
        }
        var lines := LayoutRow(left, right, columns);
        var text := RenderLines(lines);
        return Ok([ESC, 97, 0] + text);
      case Divider => return Ok(Repeat(DASH, columns) + [NEWLINE]);
      case Image(image) => return Ok(ImageBytes(image));
      case Qr(content) => return Ok(QrBytes(content));
      case Barcode(format, code, heightDots, humanReadable) =>
        var bytes :- BarcodeBytes(format, code);
        bytes := bytes[2 := if humanReadable then 2 else 0];
        bytes := bytes[5 := heightDots];
        return Ok(bytes);
      case Feed(lines) => return Ok([ESC, 100, lines]);
      case Cut => return Ok([GS, 86, 0]);
    }
  }

  method RenderLines(lines: seq<Ascii>) returns (output: seq<byte>)
    ensures output == LineBytes(lines)
  {
    output := [];
    for i := 0 to |lines|
      invariant output + LineBytes(lines[i..]) == LineBytes(lines)
    {
      assert lines[i..][0] == lines[i] && lines[i..][1..] == lines[i + 1..];
      ghost var rest := LineBytes(lines[i + 1..]);
      assert output + (lines[i] + [NEWLINE] + rest) == output + lines[i] + [NEWLINE] + rest;
      output := output + lines[i];
      output := output + [NEWLINE];
    }
  }

  // ---------- The bytes of one element, as they are sent ----------

  ghost function Receipt(width: ReceiptWidth, e: Element): Result<seq<byte>, RenderError> {
    Rendered(PrintLayout(width, [e]))
  }

  lemma ReceiptIs(width: ReceiptWidth, e: Element, bytes: seq<byte>, whole: seq<byte>)
    requires ElementBytes(e, Columns(width)).Ok? && ElementBytes(e, Columns(width)).value == bytes
    requires whole == [27, 64] + bytes
    ensures Receipt(width, e) == Ok(whole)
  {
    hide ElementBytes;
    assert [e][1..] == [];
    assert ElementsBytes([e][1..], Columns(width)) == Ok([]);
    assert ElementsBytes([e], Columns(width)) == Ok(bytes + []);
    assert bytes + [] == bytes;
  }

  lemma LineBytesAppend(lines: seq<Ascii>, more: seq<Ascii>)
    ensures LineBytes(lines + more) == LineBytes(lines) + LineBytes(more)
    ensures LineBytes([]) == []
    ensures forall line: Ascii :: LineBytes([line]) == line + [10]
  {
    if lines == [] {
      assert lines + more == more;
    } else {
      assert (lines + more)[0] == lines[0] && (lines + more)[1..] == lines[1..] + more;
      LineBytesAppend(lines[1..], more);
    }
    forall line: Ascii ensures LineBytes([line]) == line + [10] {
      assert [line][1..] == [] && line + [10] + [] == line + [10];
    }
  }

  /** ESC @, then ESC a n for the alignment, ESC E n for bold, the lines, and bold off again. */
  lemma TextOnPaper(width: ReceiptWidth, value: Ascii, alignment: Alignment, bold: bool)
    requires SevenBit(value)
    ensures var a: byte := match alignment case Left => 0 case Center => 1 case Right => 2;
      Receipt(width, Text(value, alignment, bold))
        == Ok([27, 64, 27, 97, a, 27, 69, if bold then 1 else 0]
              + LineBytes(Wrapped(value, if width == Mm58 then 32 else 48)) + [27, 69, 0])
  {
    hide Wrapped, LineBytes, Receipt;
    var a: byte := match alignment case Left => 0 case Center => 1 case Right => 2;
    var b: byte := if bold then 1 else 0;
    var lines := LineBytes(Wrapped(value, if width == Mm58 then 32 else 48));
    ReceiptIs(width, Text(value, alignment, bold), [27, 97, a, 27, 69, b] + lines + [27, 69, 0],
      [27, 64, 27, 97, a, 27, 69, b] + lines + [27, 69, 0]);
  }

  lemma RowOnPaper(width: ReceiptWidth, left: Ascii, right: Ascii)
    requires SevenBit(left) && SevenBit(right)
    ensures Receipt(width, Row(left, right))
         == Ok([27, 64, 27, 97, 0] + LineBytes(LaidOut(left, right, if width == Mm58 then 32 else 48)))
  {
    hide LaidOut, LineBytes, Receipt;
    var lines := LineBytes(LaidOut(left, right, if width == Mm58 then 32 else 48));
    ReceiptIs(width, Row(left, right), [27, 97, 0] + lines, [27, 64, 27, 97, 0] + lines);
  }

  lemma HeaderUpdated(kind: byte, length: byte, payload: seq<byte>, hri: byte, heightDots: byte)
    ensures (BarcodeHeader(kind, length) + payload)[2 := hri][5 := heightDots]
         == [29, 72, hri, 29, 104, heightDots, 29, 107, kind, length] + payload
  {
  }

  /** GS H n, GS h n, GS k m n: m is 73 for Code 128 in set B, 69 for Code 39, 67 for EAN-13 and 65 for UPC-A. */
  lemma BarcodeOnPaper(width: ReceiptWidth, format: BarcodeFormat, code: Ascii, heightDots: byte, readable: bool)
    requires CanPrint(Barcode(format, code, heightDots, readable))
    ensures var payload := if format == Code128 then [123, 66] + code else code;
      var kind: byte := match format case Code128 => 73 case Code39 => 69 case Ean13 => 67 case UpcA => 65;
      && |payload| < 256
      && Receipt(width, Barcode(format, code, heightDots, readable))
         == Ok([27, 64] + [29, 72, if readable then 2 else 0, 29, 104, heightDots, 29, 107, kind, |payload| as byte] + payload)
  {
    var e := Barcode(format, code, heightDots, readable);
    AcceptedIffPrintable(e, Columns(width));
    hide Receipt, IsAscii, Encodable39, AllDigits, SevenBit, Decimal, BarcodeHeader;
    var payload := if format == Code128 then [123, 66] + code else code;
    var kind: byte := match format case Code128 => 73 case Code39 => 69 case Ean13 => 67 case UpcA => 65;
    var hri: byte := if readable then 2 else 0;
    HeaderUpdated(kind, |payload| as byte, payload, hri, heightDots);
    BarcodeValue(e, kind, payload, hri, Columns(width));
    hide ElementBytes, BarcodeBytes;
    var bytes := [29, 72, hri, 29, 104, heightDots, 29, 107, kind, |payload| as byte];
    ReceiptIs(width, e, bytes + payload, [27, 64] + bytes + payload);
  }

  lemma BarcodeValue(e: Element, kind: byte, payload: seq<byte>, hri: byte, columns: nat)
    requires e.Barcode? && CanPrint(e)
    requires payload == (if e.format == Code128 then [123, 66] + e.code else e.code)
    requires kind == match e.format case Code128 => 73 case Code39 => 69 case Ean13 => 67 case UpcA => 65
    requires hri == if e.humanReadable then 2 else 0
    ensures |payload| < 256 && ElementBytes(e, columns).Ok?
    ensures ElementBytes(e, columns).value
         == (BarcodeHeader(kind, |payload| as byte) + payload)[2 := hri][5 := e.heightDots]
  {
    AcceptedIffPrintable(e, columns);
    hide IsAscii, Encodable39, AllDigits, SevenBit, Decimal, BarcodeHeader;
  }

  /** Model 2, module size 6, error correction M, store the content and print it. */
  lemma QrOnPaper(width: ReceiptWidth, content: seq<byte>)
    ensures var size := |content| + 3;
      Receipt(width, Qr(content)) ==
        Ok([27, 64] + [29, 40, 107, 4, 0, 49, 65, 50, 0] + [29, 40, 107, 3, 0, 49, 67, 6] + [29, 40, 107, 3, 0, 49, 69, 49]
           + [29, 40, 107, (size % 256) as byte, (size / 256 % 256) as byte, 49, 80, 48] + content
           + [29, 40, 107, 3, 0, 49, 81, 48])
  {
    hide Receipt;
    var low, high := ((|content| + 3) % 256) as byte, ((|content| + 3) / 256 % 256) as byte;
    var model, size, level := [29, 40, 107, 4, 0, 49, 65, 50, 0], [29, 40, 107, 3, 0, 49, 67, 6], [29, 40, 107, 3, 0, 49, 69, 49];
    var store, done := [29, 40, 107, low, high, 49, 80, 48], [29, 40, 107, 3, 0, 49, 81, 48];
    assert QrBytes(content) == model + size + level + (store + content) + done;
    ReceiptIs(width, Qr(content), model + size + level + (store + content) + done,
      [27, 64] + model + size + level + store + content + done);
  }

  lemma ImageOnPaper(width: ReceiptWidth, image: ReceiptImage)
    requires image.stride < 65536 && image.height < 65536
    ensures Receipt(width, Image(image)) ==
      Ok([27, 64] + [29, 118, 48, 0, (image.stride % 256) as byte, (image.stride / 256) as byte,
          (image.height % 256) as byte, (image.height / 256) as byte] + image.data)
  {
    hide Receipt;
    var header := [29, 118, 48, 0, (image.stride % 256) as byte, (image.stride / 256) as byte,
                   (image.height % 256) as byte, (image.height / 256) as byte];
    ReceiptIs(width, Image(image), header + image.data, [27, 64] + header + image.data);
  }

  lemma OthersOnPaper(width: ReceiptWidth, lines: byte)
    ensures Receipt(width, Divider) == Ok([27, 64] + Repeat(45, if width == Mm58 then 32 else 48) + [10])
    ensures Receipt(width, Feed(lines)) == Ok([27, 64, 27, 100, lines])
    ensures Receipt(width, Cut) == Ok([27, 64, 29, 86, 0])
  {
    hide Receipt;
    var dashes := Repeat(45, if width == Mm58 then 32 else 48);
    ReceiptIs(width, Divider, dashes + [10], [27, 64] + dashes + [10]);
    ReceiptIs(width, Feed(lines), [27, 100, lines], [27, 64, 27, 100, lines]);
    ReceiptIs(width, Cut, [29, 86, 0], [27, 64, 29, 86, 0]);
  }

  // ---------- The same bytes as a sequence of commands ----------

  function Encode(c: Command): seq<byte> {
    match c
    case NewLine => [NEWLINE]
    case Return => [RETURN]
    case Character(b) => [b]
    case Initialize => [ESC, 64]
    case SetAlignment(v) => [ESC, 97, v]
    case SetBold(v) => [ESC, 69, v]
    case FeedLines(n) => [ESC, 100, n]
    case SetHri(v) => [GS, 72, v]
    case SetBarHeight(v) => [GS, 104, v]
    case CutPaper(v) => [GS, 86, v]
    case Raster(w, h, pixels) =>
      [GS, 118, 48, 0, Low(w), High(w), Low(h), High(h)] + pixels
    case QrCommand(payload) => [GS, 40, 107, Low(|payload|), High(|payload|)] + payload
    case BarcodeData(kind, data) => [GS, 107, kind, Low(|data|)] + data
    case Unreadable(_) => []
  }

  /** Commands whose encoding names them completely. */
  predicate Writable(c: Command) {
    match c
    case Character(b) => IsPrintable(b)
    case Raster(w, h, pixels) =>
      1 <= w < 65536 && 1 <= h < 65536 && |pixels| == w * h && |pixels| <= MAX_RASTER_BYTES
    case QrCommand(payload) => 1 <= |payload| <= MAX_QR_BYTES + 3
    case BarcodeData(_, data) => |data| <= 255
    case Unreadable(_) => false
    case _ => true
  }

  lemma WordRoundTrip(n: nat)
    requires n < 65536
    ensures Word16(Low(n), High(n)) == n
  {
  }

  /** Reading what was written gives the command back, whatever follows. */
  lemma {:induction false} DecodeEncode(c: Command, rest: seq<byte>)
    requires Writable(c)
    ensures Encode(c) != [] && Decode(Encode(c) + rest) == Complete(c, |Encode(c)|)
  {
    match c {
      case Raster(w, h, pixels) => DecodeRasterBytes(w, h, pixels, rest);
      case QrCommand(payload) =>
        WordRoundTrip(|payload|);
        var s := Encode(c) + rest;
        assert s[5..5 + |payload|] == payload;
      case BarcodeData(kind, data) =>
        var s := Encode(c) + rest;
        assert s[4..4 + |data|] == data;
      case _ =>
    }
  }

  lemma DecodeRasterBytes(w: nat, h: nat, pixels: seq<byte>, rest: seq<byte>)
    requires Writable(Raster(w, h, pixels))
    ensures Decode(Encode(Raster(w, h, pixels)) + rest) == Complete(Raster(w, h, pixels), 8 + |pixels|)
  {
    WordRoundTrip(w);
    WordRoundTrip(h);
    var s := Encode(Raster(w, h, pixels)) + rest;
    assert s[8..8 + |pixels|] == pixels;
    assert Decode(s) == DecodePixels(s, w, h);
  }

  function EncodeAll(cs: seq<Command>): seq<byte> {
    if cs == [] then [] else Encode(cs[0]) + EncodeAll(cs[1..])
  }

  function ApplyAll(m: Machine, cs: seq<Command>, width: ReceiptWidth): Machine
    decreases |cs|
  {
    if cs == [] then m else ApplyAll(Apply(m, cs[0], width), cs[1..], width)
  }

  /** Every command is writable and gives no trouble in turn. */
  predicate Smooth(m: Machine, cs: seq<Command>, width: ReceiptWidth)
    decreases |cs|
  {
    cs == [] ||
    (Writable(cs[0]) && TroubleWith(m, cs[0]).Fine? && Smooth(Apply(m, cs[0], width), cs[1..], width))
  }

  lemma ApplyKeepsGoing(m: Machine, c: Command, width: ReceiptWidth)
    ensures Apply(m, c, width).diagnostics.unsupported == m.diagnostics.unsupported
  {
  }

  lemma RunOne(c: Command, tail: seq<byte>, offset: nat, m: Machine, width: ReceiptWidth)
    requires Writable(c) && TroubleWith(m, c).Fine? && !m.Stopped()
    ensures Run(Encode(c) + tail, offset, m, width)
         == Run(tail, offset + |Encode(c)|, Apply(m, c, width), width)
  {
    DecodeEncode(c, tail);
    assert (Encode(c) + tail)[|Encode(c)|..] == tail;
  }

  /** Interpreting the encoding of smooth commands applies them one after another. */
  lemma {:induction false} RunEncoded(cs: seq<Command>, rest: seq<byte>, offset: nat, m: Machine, width: ReceiptWidth)
    requires Smooth(m, cs, width) && !m.Stopped()
    ensures Run(EncodeAll(cs) + rest, offset, m, width)
         == Run(rest, offset + |EncodeAll(cs)|, ApplyAll(m, cs, width), width)
    ensures !ApplyAll(m, cs, width).Stopped()
    decreases |cs|
  {
    hide Apply, TroubleWith, Run;
    if cs == [] {
      assert EncodeAll(cs) + rest == rest;
    } else {
      var tail, next := EncodeAll(cs[1..]) + rest, Apply(m, cs[0], width);
      assert EncodeAll(cs) + rest == Encode(cs[0]) + tail;
      RunOne(cs[0], tail, offset, m, width);
      ApplyKeepsGoing(m, cs[0], width);
      RunEncoded(cs[1..], rest, offset + |Encode(cs[0])|, next, width);
    }
  }

  lemma {:induction false} EncodeAllAppends(a: seq<Command>, b: seq<Command>)
    ensures EncodeAll(a + b) == EncodeAll(a) + EncodeAll(b)
  {
    if a == [] {
      assert a + b == b;
    } else {
      assert (a + b)[0] == a[0] && (a + b)[1..] == a[1..] + b;
      EncodeAllAppends(a[1..], b);
      assert Encode(a[0]) + EncodeAll(a[1..]) + EncodeAll(b) == Encode(a[0]) + (EncodeAll(a[1..]) + EncodeAll(b));
    }
  }

  lemma {:induction false} SmoothAppends(m: Machine, a: seq<Command>, b: seq<Command>, width: ReceiptWidth)
    requires Smooth(m, a, width) && Smooth(ApplyAll(m, a, width), b, width)
    ensures Smooth(m, a + b, width)
    ensures ApplyAll(m, a + b, width) == ApplyAll(ApplyAll(m, a, width), b, width)
    decreases |a|
  {
    hide Apply, TroubleWith;
    if a == [] {
      assert a + b == b;
    } else {
      assert (a + b)[0] == a[0] && (a + b)[1..] == a[1..] + b;
      SmoothAppends(Apply(m, a[0], width), a[1..], b, width);
    }
  }

  /** A carriage return inside a line is a command of its own. */
  function CharacterCommand(b: byte): Command { if b == RETURN then Return else Character(b) }

  function Characters(line: Ascii): seq<Command> {
    if line == [] then [] else [CharacterCommand(line[0])] + Characters(line[1..])
  }

  function LineCommands(lines: seq<Ascii>): seq<Command> {
    if lines == [] then [] else Characters(lines[0]) + [NewLine] + LineCommands(lines[1..])
  }

  function ElementCommands(e: Element, columns: nat): seq<Command> {
    match e
    case Text(value, alignment, bold) =>
      [SetAlignment(AlignmentCode(alignment)), SetBold(Flag(bold))]
      + LineCommands(Wrapped(value, columns)) + [SetBold(0)]
    case Row(left, right) => [SetAlignment(0)] + LineCommands(LaidOut(left, right, columns))
    case Divider => LineCommands([Repeat(DASH, columns)])
    case Image(image) => [Raster(image.stride, image.height, image.data)]
    case Qr(content) =>
      [QrCommand([49, 65, 50, 0]), QrCommand([49, 67, 6]), QrCommand([49, 69, 49]),
       QrCommand([49, 80, 48] + content), QrCommand([49, 81, 48])]
    case Barcode(format, code, heightDots, humanReadable) =>
      [SetHri(if humanReadable then 2 else 0), SetBarHeight(heightDots),
       BarcodeData(BarcodeKind(format), BarcodePayload(format, code))]
    case Feed(lines) => [FeedLines(lines)]
    case Cut => [CutPaper(0)]
  }

  lemma {:induction false} EncodeCharacters(line: Ascii)
    ensures EncodeAll(Characters(line)) == line
  {
    if line != [] {
      EncodeCharacters(line[1..]);
      assert Characters(line)[0] == CharacterCommand(line[0]) && Characters(line)[1..] == Characters(line[1..]);
      assert [line[0]] + line[1..] == line;
    }
  }

  lemma {:induction false} EncodeLines(lines: seq<Ascii>)
    ensures EncodeAll(LineCommands(lines)) == LineBytes(lines)
  {
    if lines != [] {
      EncodeAllAppends(Characters(lines[0]) + [NewLine], LineCommands(lines[1..]));
      EncodeAllAppends(Characters(lines[0]), [NewLine]);
      EncodeCharacters(lines[0]);
      EncodeSingle(NewLine);
      EncodeLines(lines[1..]);
    }
  }

  lemma EncodeSingle(c: Command)
    ensures EncodeAll([c]) == Encode(c)
  {
    assert [c][1..] == [];
    assert Encode(c) + [] == Encode(c);
  }

  lemma EncodeTwo(c: Command, d: Command, cs: seq<Command>)
    ensures EncodeAll([c, d] + cs) == Encode(c) + Encode(d) + EncodeAll(cs)
  {
    EncodeAllAppends([c], [d]);
    EncodeSingle(c);
    EncodeSingle(d);
    assert [c] + [d] == [c, d];
    EncodeAllAppends([c, d], cs);
  }

  lemma EncodeRow(left: Ascii, right: Ascii, columns: nat)
    ensures EncodeAll([SetAlignment(0)] + LineCommands(LaidOut(left, right, columns)))
         == [ESC, 97, 0] + LineBytes(LaidOut(left, right, columns))
  {
    hide LaidOut;
    EncodeAllAppends([SetAlignment(0)], LineCommands(LaidOut(left, right, columns)));
    EncodeSingle(SetAlignment(0));
    EncodeLines(LaidOut(left, right, columns));
  }

  lemma EncodeDivider(columns: nat)
    ensures EncodeAll(LineCommands([Repeat(DASH, columns)])) == Repeat(DASH, columns) + [NEWLINE]
  {
    EncodeLines([Repeat(DASH, columns)]);
    hide EncodeAll, Encode;
    assert LineBytes([Repeat(DASH, columns)]) == Repeat(DASH, columns) + [NEWLINE] + LineBytes([]);
  }

  /** The printer writes exactly its command sequence. */
  lemma EncodeElement(e: Element, columns: nat)
    requires ElementBytes(e, columns).Ok?
    ensures ElementBytes(e, columns).value == EncodeAll(ElementCommands(e, columns))
  {
    hide EncodeAll, LineCommands, LineBytes, Wrapped, LaidOut, Repeat, BarcodeAccepted;
    match e {
      case Text(value, alignment, bold) => EncodeText(Wrapped(value, columns), alignment, bold);
      case Row(left, right) => EncodeRow(left, right, columns);
      case Divider => EncodeDivider(columns);
      case Image(image) => EncodeSingle(Raster(image.stride, image.height, image.data));
      case Qr(content) => EncodeQr(content);
      case Barcode(format, code, heightDots, humanReadable) =>
        EncodeBarcode(format, code, heightDots, humanReadable);
      case Feed(lines) => EncodeSingle(FeedLines(lines));
      case Cut => EncodeSingle(CutPaper(0));
    }
  }

  lemma EncodeText(lines: seq<Ascii>, alignment: Alignment, bold: bool)
    ensures EncodeAll([SetAlignment(AlignmentCode(alignment)), SetBold(Flag(bold))] + LineCommands(lines) + [SetBold(0)])
         == [ESC, 97, AlignmentCode(alignment), ESC, 69, Flag(bold)] + LineBytes(lines) + [ESC, 69, 0]
  {
    var a, b := SetAlignment(AlignmentCode(alignment)), SetBold(Flag(bold));
    EncodeTwo(a, b, LineCommands(lines));
    EncodeAllAppends([a, b] + LineCommands(lines), [SetBold(0)]);
    EncodeSingle(SetBold(0));
    EncodeLines(lines);
    assert Encode(a) + Encode(b) == [ESC, 97, AlignmentCode(alignment), ESC, 69, Flag(bold)];
  }

  lemma PayloadFits(format: BarcodeFormat, code: Ascii)
    requires BarcodeAccepted(format, code)
    ensures |BarcodePayload(format, code)| <= 255
  {
  }

  lemma BarcodeParts(hri: byte, heightDots: byte, kind: byte, payload: seq<byte>)
    requires |payload| <= 255
    ensures Encode(SetHri(hri)) + Encode(SetBarHeight(heightDots)) + Encode(BarcodeData(kind, payload))
         == [29, 72, hri, 29, 104, heightDots, 29, 107, kind, Low(|payload|)] + payload
  {
  }

  lemma EncodeBarcode(format: BarcodeFormat, code: Ascii, heightDots: byte, humanReadable: bool)
    requires BarcodeAccepted(format, code)
    ensures EncodeAll(ElementCommands(Barcode(format, code, heightDots, humanReadable), 0))
         == BarcodeBytes(format, code).value[2 := if humanReadable then 2 else 0][5 := heightDots]
  {
    hide BarcodeAccepted, BarcodePayload, EncodeAll, Encode, BarcodeHeader, BarcodeKind, Low;
    var hri: byte := if humanReadable then 2 else 0;
    var kind, payload := BarcodeKind(format), BarcodePayload(format, code);
    PayloadFits(format, code);
    var a, b, d := SetHri(hri), SetBarHeight(heightDots), BarcodeData(kind, payload);
    EncodeTwo(a, b, [d]);
    EncodeSingle(d);
    assert [a, b] + [d] == [a, b, d];
    BarcodeParts(hri, heightDots, kind, payload);
    HeaderUpdated(kind, Low(|payload|), payload, hri, heightDots);
  }

  lemma EncodeQrParts(content: seq<byte>)
    ensures Encode(QrCommand([49, 65, 50, 0])) == QR_MODEL
    ensures Encode(QrCommand([49, 67, 6])) == QR_SIZE
    ensures Encode(QrCommand([49, 69, 49])) == QR_CORRECTION
    ensures Encode(QrCommand([49, 80, 48] + content)) == QrStore(content)
    ensures Encode(QrCommand([49, 81, 48])) == QR_PRINT
  {
  }

  lemma EncodeQr(content: seq<byte>)
    ensures EncodeAll(ElementCommands(Qr(content), 0)) == QrBytes(content)
  {
    hide Encode, QrStore;
    var a, b, c := QrCommand([49, 65, 50, 0]), QrCommand([49, 67, 6]), QrCommand([49, 69, 49]);
    var d, e := QrCommand([49, 80, 48] + content), QrCommand([49, 81, 48]);
    EncodeFive(a, b, c, d, e);
    EncodeQrParts(content);
  }

  lemma EncodeFive(a: Command, b: Command, c: Command, d: Command, e: Command)
    ensures EncodeAll([a, b, c, d, e]) == Encode(a) + Encode(b) + Encode(c) + Encode(d) + Encode(e)
  {
    hide Encode;
    assert [c, d] + [e] == [c, d, e] && [a, b] + [c, d, e] == [a, b, c, d, e];
    EncodeTwo(a, b, [c, d, e]);
    EncodeTwo(c, d, [e]);
    EncodeSingle(e);
    FiveParts(Encode(a), Encode(b), Encode(c), Encode(d), Encode(e));
  }

  lemma FiveParts(a: seq<byte>, b: seq<byte>, c: seq<byte>, d: seq<byte>, e: seq<byte>)
    ensures a + b + (c + d + e) == a + b + c + d + e
  {
  }
}
