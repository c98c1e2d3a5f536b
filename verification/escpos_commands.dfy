/**
 The supported ESC/POS commands: how one command is read from a byte stream and
 what it does. `EscPosParser` runs this reading in place; `EscPosRender` writes it.
 */
module EscPosCommands {
  import opened Bytes
  import opened Layout
  import opened Results

  const ESC: byte := 0x1b
  const GS: byte := 0x1d
  const MAX_RASTER_BYTES: nat := 2 * 1024 * 1024
  const MAX_QR_BYTES: nat := 4096
  const MAX_TEXT_BYTES: nat := 256 * 1024

  /** Why interpretation stopped without an error. */
  datatype Unsupported =
    | NonPrintable(value: byte)
    | UnknownEscape(command: byte) | AlignmentValue(value: byte) | BoldValue(value: byte) | FeedZero
    | UnknownGroup(command: byte) | HriMode(value: byte) | CutMode(value: byte)
    | RasterSubcommand(value: byte) | RasterMode(value: byte)
    | GroupFunction(value: byte) | QrPrefix | QrFunction(value: byte) | QrPrintWithoutData
    | BarcodeNotSetB | BarcodeType(value: byte)

  datatype Missing =
    | EscapeCommand | AlignmentByte | BoldByte | FeedByte
    | GroupCommand | HriByte | BarHeightByte | CutByte
    | RasterSubcommandByte | RasterModeByte | RasterWidth | RasterHeight | RasterPixels
    | GroupFunctionByte | QrLengthBytes | QrPayload
    | BarcodeTypeByte | BarcodeLengthByte | BarcodeBytes

  datatype Invalid =
    | Truncated(missing: Missing)
    | RasterDimensions | QrLength | QrNotUtf8 | BarcodeNotUtf8 | TextTooLong

  datatype Failure = Failure(offset: nat, reason: Invalid)

  datatype Command =
    | NewLine | Return | Character(b: byte)
    | Initialize | SetAlignment(value: byte) | SetBold(value: byte) | FeedLines(lines: byte)
    | SetHri(value: byte) | SetBarHeight(value: byte) | CutPaper(mode: byte)
    | Raster(rowBytes: nat, height: nat, pixels: seq<byte>)
    | QrCommand(payload: seq<byte>)
    | BarcodeData(kind: byte, data: seq<byte>)
    | Unreadable(reason: Unsupported)

  // ---------- Reading one command ----------

  datatype Decoded = Complete(command: Command, length: nat) | Malformed(reason: Invalid)

  function Decode(s: seq<byte>): (d: Decoded)
    requires s != []
    ensures d.Complete? ==> 1 <= d.length <= |s|
  {
    if s[0] == ESC then DecodeEscape(s)
    else if s[0] == GS then DecodeGroup(s)
    else if s[0] == NEWLINE then Complete(NewLine, 1)
    else if s[0] == RETURN then Complete(Return, 1)
    else if IsPrintable(s[0]) then Complete(Character(s[0]), 1)
    else Complete(Unreadable(NonPrintable(s[0])), 1)
  }

  function DecodeEscape(s: seq<byte>): (d: Decoded)
    requires s != []
    ensures d.Complete? ==> 2 <= d.length <= |s|
  {
    if |s| < 2 then Malformed(Truncated(EscapeCommand))
    else if s[1] == 64 then Complete(Initialize, 2)
    else if s[1] == 97 then
      if |s| < 3 then Malformed(Truncated(AlignmentByte)) else Complete(SetAlignment(s[2]), 3)
    else if s[1] == 69 then
      if |s| < 3 then Malformed(Truncated(BoldByte)) else Complete(SetBold(s[2]), 3)
    else if s[1] == 100 then
      if |s| < 3 then Malformed(Truncated(FeedByte)) else Complete(FeedLines(s[2]), 3)
    else Complete(Unreadable(UnknownEscape(s[1])), 2)
  }

  function DecodeGroup(s: seq<byte>): (d: Decoded)
    requires s != []
    ensures d.Complete? ==> 2 <= d.length <= |s|
  {
    if |s| < 2 then Malformed(Truncated(GroupCommand))
    else if s[1] == 118 then DecodeRaster(s)
    else if s[1] == 40 then DecodeQr(s)
    else if s[1] == 72 then
      if |s| < 3 then Malformed(Truncated(HriByte)) else Complete(SetHri(s[2]), 3)
    else if s[1] == 104 then
      if |s| < 3 then Malformed(Truncated(BarHeightByte)) else Complete(SetBarHeight(s[2]), 3)
    else if s[1] == 107 then DecodeBarcode(s)
    else if s[1] == 86 then
      if |s| < 3 then Malformed(Truncated(CutByte)) else Complete(CutPaper(s[2]), 3)
    else Complete(Unreadable(UnknownGroup(s[1])), 2)
  }

  /** A two-byte little-endian number. */
  function Word16(low: byte, high: byte): (w: nat)
    ensures w < 65536
  {
    low as nat + 256 * high as nat
  }

  function DecodeRaster(s: seq<byte>): (d: Decoded)
    requires |s| >= 2
    ensures d.Complete? ==> 2 <= d.length <= |s|
  {
    if |s| < 3 then Malformed(Truncated(RasterSubcommandByte))
    else if s[2] != 48 then Complete(Unreadable(RasterSubcommand(s[2])), 3)
    else if |s| < 4 then Malformed(Truncated(RasterModeByte))
    else if s[3] != 0 then Complete(Unreadable(RasterMode(s[3])), 4)
    else if |s| < 6 then Malformed(Truncated(RasterWidth))
    else if |s| < 8 then Malformed(Truncated(RasterHeight))
    else DecodePixels(s, Word16(s[4], s[5]), Word16(s[6], s[7]))
  }

  function DecodePixels(s: seq<byte>, rowBytes: nat, height: nat): (d: Decoded)
    requires |s| >= 8
    ensures d.Complete? ==> 2 <= d.length <= |s|
  {
    var count: nat := rowBytes * height;
    if rowBytes == 0 || height == 0 || count > MAX_RASTER_BYTES then Malformed(RasterDimensions)
    else if |s| < 8 + count then Malformed(Truncated(RasterPixels))
    else Complete(Raster(rowBytes, height, s[8..8 + count]), 8 + count)
  }

  function DecodeQr(s: seq<byte>): (d: Decoded)
    requires |s| >= 2
    ensures d.Complete? ==> 2 <= d.length <= |s|
  {
    if |s| < 3 then Malformed(Truncated(GroupFunctionByte))
    else if s[2] != 107 then Complete(Unreadable(GroupFunction(s[2])), 3)
    else if |s| < 5 then Malformed(Truncated(QrLengthBytes))
    else
      var length := Word16(s[3], s[4]);
      if length == 0 || length > MAX_QR_BYTES + 3 then Malformed(QrLength)
      else if |s| < 5 + length then Malformed(Truncated(QrPayload))
      else Complete(QrCommand(s[5..5 + length]), 5 + length)
  }

  function DecodeBarcode(s: seq<byte>): (d: Decoded)
    requires |s| >= 2
    ensures d.Complete? ==> 2 <= d.length <= |s|
  {
    if |s| < 3 then Malformed(Truncated(BarcodeTypeByte))
    else if |s| < 4 then Malformed(Truncated(BarcodeLengthByte))
    else if |s| < 4 + (s[3] as int) then Malformed(Truncated(BarcodeBytes))
    else Complete(BarcodeData(s[2], s[4..4 + (s[3] as int)]), 4 + (s[3] as int))
  }

  // ---------- UTF-8 (the well-formed byte sequences of RFC 3629, section 4) ----------

  predicate IsTail(b: byte) { 0x80 <= b <= 0xBF }

  /** Length of the well-formed sequence at the front, or 0. */
  function Utf8Lead(s: seq<byte>): (n: nat)
    requires s != []
    ensures n <= |s|
  {
    if s[0] < 0x80 then 1
    else if 0xC2 <= s[0] <= 0xDF then (if |s| >= 2 && IsTail(s[1]) then 2 else 0)
    else if 0xE0 <= s[0] <= 0xEF then
      if |s| >= 3 && IsTail(s[1]) && IsTail(s[2])
         && (s[0] == 0xE0 ==> s[1] >= 0xA0) && (s[0] == 0xED ==> s[1] <= 0x9F) then 3 else 0
    else if 0xF0 <= s[0] <= 0xF4 then
      if |s| >= 4 && IsTail(s[1]) && IsTail(s[2]) && IsTail(s[3])
         && (s[0] == 0xF0 ==> s[1] >= 0x90) && (s[0] == 0xF4 ==> s[1] <= 0x8F) then 4 else 0
    else 0
  }

  predicate IsUtf8(s: seq<byte>) {
    s == [] || (Utf8Lead(s) > 0 && IsUtf8(s[Utf8Lead(s)..]))
  }

  predicate IsAscii(s: seq<byte>) { forall i :: 0 <= i < |s| ==> s[i] < 128 }

  lemma {:induction false} AsciiIsUtf8(s: seq<byte>)
    requires IsAscii(s)
    ensures IsUtf8(s)
  {
    if s != [] {
      AsciiIsUtf8(s[1..]);
    }
  }

  // ---------- Rows inside text lines ----------

  function TrimEnd(s: Ascii): (t: Ascii)
    ensures |t| <= |s| && t == s[..|t|]
    ensures t != [] ==> !IsWhitespace(t[|t| - 1])
    ensures forall i :: |t| <= i < |s| ==> IsWhitespace(s[i])
  {
    if s == [] || !IsWhitespace(s[|s| - 1]) then s else TrimEnd(s[..|s| - 1])
  }

  function TrimStart(s: Ascii): (t: Ascii)
    ensures |t| <= |s| && t == s[|s| - |t|..]
    ensures t != [] ==> !IsWhitespace(t[0])
    ensures forall i :: 0 <= i < |s| - |t| ==> IsWhitespace(s[i])
  {
    if s == [] || !IsWhitespace(s[0]) then s else TrimStart(s[1..])
  }

  predicate SpacesAt(s: Ascii, i: int) { 0 <= i && i + 1 < |s| && s[i] == SPACE && s[i + 1] == SPACE }

  /** Start of the last two adjacent spaces, or -1. */
  function LastSpaces(s: Ascii): (k: int)
    ensures -1 <= k
    ensures k >= 0 ==> SpacesAt(s, k)
    ensures forall i :: k < i ==> !SpacesAt(s, i)
  {
    if |s| < 2 then -1
    else if s[|s| - 2] == SPACE && s[|s| - 1] == SPACE then |s| - 2
    else
      var k := LastSpaces(s[..|s| - 1]);
      assert forall i :: SpacesAt(s, i) ==> SpacesAt(s[..|s| - 1], i);
      k
  }

  /** The cells around the last gap of two or more spaces, unless nothing precedes it. */
  function SplitEmittedRow(line: Ascii): Option<(Ascii, Ascii)> {
    var k := LastSpaces(line);
    if k < 0 || TrimEnd(line[..k]) == [] then None
    else Some((TrimEnd(line[..k]), TrimStart(line[k + 2..])))
  }

  predicate AllDashes(line: Ascii) { forall i :: 0 <= i < |line| ==> line[i] == DASH }

  /** How a finished, non-empty text line is classified. */
  function LineElement(line: Ascii, alignment: Alignment, bold: bool, width: ReceiptWidth): Element {
    if |line| == Columns(width) && AllDashes(line) then Divider
    else
      match SplitEmittedRow(line)
      case Some((left, right)) => Row(left, right)
      case None => Text(line, alignment, bold)
  }

  // ---------- What a command does ----------

  datatype Diagnostics = Diagnostics(
    commands: nat, textLines: nat, images: nat, qrCodes: nat, barcodes: nat,
    feedLines: nat, cutRequested: bool, unsupported: seq<(nat, Unsupported)>)

  datatype Machine = Machine(
    alignment: Alignment, bold: bool, text: Ascii, qr: Option<seq<byte>>,
    barHeight: byte, hri: bool, elements: seq<Element>, diagnostics: Diagnostics)
  {
    predicate Stopped() { diagnostics.unsupported != [] }

    function Push(e: Element): Machine { this.(elements := elements + [e]) }

    /** Text that no newline ended becomes a text element as it stands. */
    function Flushed(): Machine {
      if text == [] then this else Push(Text(text, alignment, bold)).(text := [])
    }

    function FinishLine(width: ReceiptWidth): Machine {
      if text == [] then Push(Feed(1)).(diagnostics := diagnostics.(feedLines := diagnostics.feedLines + 1))
      else
        Push(LineElement(text, alignment, bold, width)).(
          text := [], diagnostics := diagnostics.(textLines := diagnostics.textLines + 1))
    }

    function Counted(): Machine {
      this.(diagnostics := diagnostics.(commands := diagnostics.commands + 1))
    }

    function StopAt(offset: nat, reason: Unsupported): Machine {
      this.(diagnostics := diagnostics.(unsupported := diagnostics.unsupported + [(offset, reason)]))
    }
  }

  const INITIAL: Machine := Machine(Left, false, [], None, 80, true, [],
    Diagnostics(0, 0, 0, 0, 0, 0, false, []))

  datatype Trouble = Fine | Unsupp(what: Unsupported) | Bad(why: Invalid)

  function QrTrouble(m: Machine, payload: seq<byte>): Trouble {
    if |payload| < 3 || payload[0] != 49 then Unsupp(QrPrefix)
    else if payload[1] == 65 && payload[2] == 50 then Fine
    else if payload[1] == 67 && |payload| == 3 && 1 <= payload[2] <= 16 then Fine
    else if payload[1] == 69 && |payload| == 3 && 48 <= payload[2] <= 51 then Fine
    else if payload[1] == 80 && payload[2] == 48 then
      if IsUtf8(payload[3..]) then Fine else Bad(QrNotUtf8)
    else if payload[1] == 81 && |payload| == 3 && payload[2] == 48 then
      if m.qr.Some? then Fine else Unsupp(QrPrintWithoutData)
    else Unsupp(QrFunction(payload[1]))
  }

  function BarcodeTrouble(kind: byte, data: seq<byte>): Trouble {
    if kind == 73 && !([123, 66] <= data) then Unsupp(BarcodeNotSetB)
    else if kind !in {73, 69, 67, 65} then Unsupp(BarcodeType(kind))
    else if IsUtf8(if kind == 73 then data[2..] else data) then Fine
    else Bad(BarcodeNotUtf8)
  }

  function TroubleWith(m: Machine, c: Command): Trouble {
    match c
    case Character(_) => if |m.text| + 1 > MAX_TEXT_BYTES then Bad(TextTooLong) else Fine
    case SetAlignment(v) => if v > 2 then Unsupp(AlignmentValue(v)) else Fine
    case SetBold(v) => if v > 1 then Unsupp(BoldValue(v)) else Fine
    case FeedLines(n) => if n == 0 then Unsupp(FeedZero) else Fine
    case SetHri(v) => if v > 3 then Unsupp(HriMode(v)) else Fine
    case CutPaper(v) => if v > 1 then Unsupp(CutMode(v)) else Fine
    case QrCommand(payload) => QrTrouble(m, payload)
    case BarcodeData(kind, data) => BarcodeTrouble(kind, data)
    case Unreadable(reason) => Unsupp(reason)
    case _ => Fine
  }

  predicate IsText(c: Command) {
    c.NewLine? || c.Return? || c.Character? || (c.Unreadable? && c.reason.NonPrintable?)
  }

  /** Every escape sequence first flushes pending text and is counted. */
  function Prepared(m: Machine, c: Command): Machine {
    if IsText(c) then m else m.Flushed().Counted()
  }

  function FormatOf(kind: byte): BarcodeFormat {
    if kind == 73 then Code128 else if kind == 69 then Code39 else if kind == 67 then Ean13 else UpcA
  }

  function ApplyQr(p: Machine, payload: seq<byte>): Machine {
    if |payload| >= 3 && payload[1] == 80 then p.(qr := Some(payload[3..]))
    else if |payload| == 3 && payload[1] == 81 && p.qr.Some? then
      p.Push(Qr(p.qr.value)).(
        qr := None, diagnostics := p.diagnostics.(qrCodes := p.diagnostics.qrCodes + 1))
    else p
  }

  function ApplyBarcode(p: Machine, kind: byte, data: seq<byte>): Machine {
    var value := if kind == 73 && |data| >= 2 then data[2..] else data;
    p.Push(Barcode(FormatOf(kind), value, p.barHeight, p.hri)).(
      diagnostics := p.diagnostics.(barcodes := p.diagnostics.barcodes + 1))
  }

  /** The effect of a command that gives no trouble. */
  function Apply(m: Machine, c: Command, width: ReceiptWidth): Machine {
    Effect(Prepared(m, c), c, width)
  }

  function Effect(p: Machine, c: Command, width: ReceiptWidth): Machine {
    match c
    case NewLine => p.FinishLine(width)
    case Character(b) => p.(text := p.text + [b])
    case Initialize => p.(alignment := Left, bold := false, qr := None)
    case SetAlignment(v) => p.(alignment := if v == 0 then Left else if v == 1 then Center else Right)
    case SetBold(v) => p.(bold := v == 1)
    case FeedLines(n) =>
      p.Push(Feed(n)).(diagnostics := p.diagnostics.(feedLines := p.diagnostics.feedLines + n as nat))
    case SetHri(v) => p.(hri := v != 0)
    case SetBarHeight(v) => p.(barHeight := v)
    case CutPaper(_) => p.Push(Cut).(diagnostics := p.diagnostics.(cutRequested := true))
    case Raster(rowBytes, height, pixels) =>
      p.Push(Image(ReceiptImage(rowBytes * 8, height, 203, rowBytes, pixels))).(
        diagnostics := p.diagnostics.(images := p.diagnostics.images + 1))
    case QrCommand(payload) => ApplyQr(p, payload)
    case BarcodeData(kind, data) => ApplyBarcode(p, kind, data)
    case _ => p
  }

  // ---------- Whole streams ----------

  function Execute(m: Machine, c: Command, offset: nat, width: ReceiptWidth): Result<Machine, Failure> {
    match TroubleWith(m, c)
    case Fine => Ok(Apply(m, c, width))
    case Unsupp(what) => Ok(Prepared(m, c).StopAt(offset, what))
    case Bad(why) => Err(Failure(offset, why))
  }

  function Run(rest: seq<byte>, offset: nat, m: Machine, width: ReceiptWidth): Result<Machine, Failure>
    decreases |rest|
  {
    if rest == [] || m.Stopped() then Ok(m)
    else
      match Decode(rest)
      case Malformed(reason) => Err(Failure(offset, reason))
      case Complete(c, n) =>
        match Execute(m, c, offset, width)
        case Err(failure) => Err(failure)
        case Ok(next) => Run(rest[n..], offset + n, next, width)
  }

  datatype Interpretation = Interpretation(layout: PrintLayout, diagnostics: Diagnostics)

  function Concluded(m: Machine, width: ReceiptWidth): Interpretation {
    var end := if m.Stopped() then m else m.Flushed();
    Interpretation(PrintLayout(width, end.elements), end.diagnostics)
  }

  function Interpreted(bytes: seq<byte>, width: ReceiptWidth): Result<Interpretation, Failure> {
    match Run(bytes, 0, INITIAL, width)
    case Err(failure) => Err(failure)
    case Ok(m) => Ok(Concluded(m, width))
  }
}
