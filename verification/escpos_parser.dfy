/**
 The in-place ESC/POS parser. Each method updates the fields the way one
 production of the stream requires, and is proved against `EscPosCommands`:
 reading one command and applying it.
 */
module EscPosParser {
  import opened Bytes
  import opened Layout
  import opened Results
  import opened EscPosCommands

  /** `start..end` is a run of spaces that ends with the last two adjacent ones. */
  ghost predicate IsLastGap(line: Ascii, start: nat, end: nat) {
    && start + 2 <= end <= |line|
    && (forall i :: start <= i < end ==> line[i] == SPACE)
    && forall i :: SpacesAt(line, i) ==> i <= end - 2
  }

  /** The index loop of `split_emitted_row`. */
  method FindGap(line: Ascii) returns (selected: Option<(nat, nat)>)
    ensures selected.None? ==> forall i :: !SpacesAt(line, i)
    ensures selected.Some? ==> IsLastGap(line, selected.value.0, selected.value.1)
  {
    selected := None;
    var index := 0;
    while index < |line|
      invariant 0 <= index <= |line|
      invariant index > 0 && index < |line| && line[index - 1] == SPACE ==> line[index] != SPACE
      invariant selected.None? ==> forall i :: SpacesAt(line, i) ==> i >= index
      invariant selected.Some? ==> selected.value.0 + 2 <= selected.value.1 <= index
      invariant selected.Some? ==> forall i :: selected.value.0 <= i < selected.value.1 ==> line[i] == SPACE
      invariant selected.Some? ==> forall i :: SpacesAt(line, i) ==> i <= selected.value.1 - 2 || i >= index
    {
      if line[index] != SPACE {
        index := index + 1;
        continue;
      }
      var start := index;
      while index < |line| && line[index] == SPACE
        invariant start <= index <= |line|
        invariant forall i :: start <= i < index ==> line[i] == SPACE
      {
        index := index + 1;
      }
      if index - start >= 2 {
        selected := Some((start, index));
      }
    }
  }

  method FindRow(line: Ascii) returns (row: Option<(Ascii, Ascii)>)
    ensures row == SplitEmittedRow(line)
  {
    var selected := FindGap(line);
    if selected.None? {
      return None;
    }
    var (start, end) := selected.value;
    assert SpacesAt(line, end - 2);
    assert LastSpaces(line) == end - 2;
    TrimEndOverSpaces(line, start, end - 2);
    var left := TrimEnd(line[..start]);
    var right := TrimStart(line[end..]);
    if left == [] {
      return None;
    }
    return Some((left, right));
  }

  /** Trimming forgets how much of a run of spaces was included. */
  lemma {:induction false} TrimEndOverSpaces(line: Ascii, start: nat, end: nat)
    requires start <= end <= |line|
    requires forall i :: start <= i < end ==> line[i] == SPACE
    ensures TrimEnd(line[..end]) == TrimEnd(line[..start])
    decreases end
  {
    if start < end {
      assert line[..end][..end - 1] == line[..end - 1];
      TrimEndOverSpaces(line, start, end - 1);
    }
  }

  lemma EscapesAreNotText(rest: seq<byte>)
    requires rest != [] && (rest[0] == ESC || rest[0] == GS)
    ensures Decode(rest).Complete? ==> !IsText(Decode(rest).command)
  {
  }

  lemma TroubleIgnoresFlush(m: Machine, c: Command)
    requires !IsText(c)
    ensures TroubleWith(m.Flushed().Counted(), c) == TroubleWith(m, c)
  {
  }

  /** One unfolding of the stream semantics. */
  lemma RunUnfolds(rest: seq<byte>, offset: nat, m: Machine, width: ReceiptWidth)
    requires rest != [] && !m.Stopped()
    ensures EscPosCommands.Run(rest, offset, m, width)
         == match Decode(rest)
            case Malformed(reason) => Err(Failure(offset, reason))
            case Complete(c, n) =>
              match Execute(m, c, offset, width)
              case Err(failure) => Err(failure)
              case Ok(next) => EscPosCommands.Run(rest[n..], offset + n, next, width)
  {
    hide Decode, Execute;
  }

  lemma RunStops(rest: seq<byte>, offset: nat, m: Machine, width: ReceiptWidth)
    ensures m.Stopped() ==> EscPosCommands.Run(rest, offset, m, width) == Ok(m)
  {
    hide Decode, Execute;
  }

  /** After one command, or a stop, the rest of the stream decides. */
  lemma StreamStep(bytes: seq<byte>, start: nat, m: Machine, width: ReceiptWidth, offset: nat, next: Machine)
    requires start < |bytes| && offset <= |bytes| && !m.Stopped()
    ensures var d := Decode(bytes[start..]);
      d.Complete? && Execute(m, d.command, start, width) == Ok(next) && (next.Stopped() || offset == start + d.length) ==>
        EscPosCommands.Run(bytes[start..], start, m, width) == EscPosCommands.Run(bytes[offset..], offset, next, width)
  {
    hide EscPosCommands.Run, Decode, Execute;
    var rest, d := bytes[start..], Decode(bytes[start..]);
    RunUnfolds(rest, start, m, width);
    if d.Complete? {
      RunStops(rest[d.length..], start + d.length, next, width);
      RunStops(bytes[offset..], offset, next, width);
      assert rest[d.length..] == bytes[start + d.length..];
    }
  }

  /** The second byte decides, and a missing one is an error. */
  lemma EscapeDecodes(bytes: seq<byte>, start: nat)
    requires start < |bytes| && bytes[start] == ESC
    ensures Decode(bytes[start..]) == DecodeEscape(bytes[start..])
    ensures start + 1 == |bytes| ==> DecodeEscape(bytes[start..]) == Malformed(Truncated(EscapeCommand))
  {
  }

  lemma GroupDecodes(bytes: seq<byte>, start: nat)
    requires start < |bytes| && bytes[start] == GS
    ensures Decode(bytes[start..]) == DecodeGroup(bytes[start..])
    ensures start + 1 == |bytes| ==> DecodeGroup(bytes[start..]) == Malformed(Truncated(GroupCommand))
  {
    hide DecodeRaster, DecodeQr, DecodeBarcode;
  }

  class Parser {
    const bytes: seq<byte>
    const width: ReceiptWidth
    var offset: nat
    var elements: seq<Element>
    var diagnostics: Diagnostics
    var alignment: Alignment
    var bold: bool
    var text: Ascii
    var qrPayload: Option<seq<byte>>
    var barcodeHeightDots: byte
    var barcodeHri: bool
    var stopped: bool

    ghost predicate Valid()
      reads this
    {
      offset <= |bytes| && (stopped <==> diagnostics.unsupported != [])
    }

    ghost function View(): Machine
      reads this
    {
      Machine(alignment, bold, text, qrPayload, barcodeHeightDots, barcodeHri, elements, diagnostics)
    }

    constructor (bytes: seq<byte>, width: ReceiptWidth)
      ensures Valid() && View() == INITIAL && offset == 0 && !stopped
      ensures this.bytes == bytes && this.width == width
    {
      this.bytes, this.width, this.offset := bytes, width, 0;
      elements, diagnostics := [], Diagnostics(0, 0, 0, 0, 0, 0, false, []);
      alignment, bold, text, qrPayload := Left, false, [], None;
      barcodeHeightDots, barcodeHri, stopped := 80, true, false;
    }

    /** Command `c` at `start` ran from `before` with result `r`, and the parser shows it. */
    ghost predicate Did(before: Machine, c: Command, start: nat, r: Result<(), Failure>)
      reads this
    {
      match TroubleWith(before, c)
      case Fine => r == Ok(()) && View() == Effect(before, c, width) && !stopped
      case Unsupp(what) => r == Ok(()) && View() == before.StopAt(start, what) && stopped
      case Bad(why) => r == Err(Failure(start, why))
    }

    /** The same for a command that is still to be read. */
    ghost predicate Ran(before: Machine, d: Decoded, start: nat, r: Result<(), Failure>)
      reads this
    {
      match d
      case Malformed(reason) => r == Err(Failure(start, reason))
      case Complete(c, n) => Did(before, c, start, r) && (stopped || offset == start + n)
    }

    /** What the loop body owes: one command of the stream has been executed. */
    ghost predicate Stepped(before: Machine, start: nat, r: Result<(), Failure>)
      requires start < |bytes|
      reads this
    {
      match Decode(bytes[start..])
      case Malformed(reason) => r == Err(Failure(start, reason))
      case Complete(c, n) =>
        match Execute(before, c, start, width)
        case Err(failure) => r == Err(failure)
        case Ok(next) => r == Ok(()) && View() == next && (stopped || offset == start + n)
    }

    lemma EscapeStepped(before: Machine, start: nat, r: Result<(), Failure>)
      requires start < |bytes| && (bytes[start] == ESC || bytes[start] == GS)
      requires Ran(before.Flushed().Counted(), Decode(bytes[start..]), start, r)
      ensures Stepped(before, start, r)
    {
      EscapesAreNotText(bytes[start..]);
      var d := Decode(bytes[start..]);
      if d.Complete? {
        TroubleIgnoresFlush(before, d.command);
      }
      hide Decode, TroubleWith, Effect, IsText, Machine.Flushed, Machine.Counted, Machine.StopAt;
    }

    method Run() returns (r: Result<Interpretation, Failure>)
      requires Valid() && View() == INITIAL && offset == 0 && !stopped
      modifies this
      ensures r == Interpreted(bytes, width)
    {
      while offset < |bytes| && !stopped
        invariant Valid()
        invariant EscPosCommands.Run(bytes, 0, INITIAL, width)
               == EscPosCommands.Run(bytes[offset..], offset, View(), width)
        decreases !stopped, |bytes| - offset
      {
        ghost var start, before := offset, View();
        var step := StepOnce();
        Unrolled(before, start, step);
        if step.Err? {
          return Err(step.error);
        }
      }
      if !stopped {
        FlushText();
      }
      r := Ok(Interpretation(PrintLayout(width, elements), diagnostics));
    }

    lemma Unrolled(before: Machine, start: nat, step: Result<(), Failure>)
      requires Valid() && start < |bytes| && !before.Stopped()
      requires Stepped(before, start, step)
      ensures EscPosCommands.Run(bytes[start..], start, before, width)
           == match step
              case Err(failure) => Err(failure)
              case Ok(_) => EscPosCommands.Run(bytes[offset..], offset, View(), width)
    {
      hide EscPosCommands.Run, Decode, Execute;
      StreamStep(bytes, start, before, width, offset, View());
      RunUnfolds(bytes[start..], start, before, width);
    }

    /** The loop body of `run`. */
    method StepOnce() returns (r: Result<(), Failure>)
      requires Valid() && !stopped && offset < |bytes|
      modifies this
      ensures Valid() && Stepped(old(View()), old(offset), r)
      ensures r.Ok? && !stopped ==> offset > old(offset)
    {
      var commandOffset := offset;
      var b := bytes[offset];
      r := Ok(());
      if b == ESC {
        r := ParseEscape(commandOffset);
        EscapeStepped(old(View()), commandOffset, r);
      } else if b == GS {
        r := ParseGroupSeparator(commandOffset);
        EscapeStepped(old(View()), commandOffset, r);
      } else if b == NEWLINE {
        offset := offset + 1;
        FinishTextLine();
      } else if b == RETURN {
        offset := offset + 1;
      } else if IsPrintable(b) {
        text := text + [b];
        offset := offset + 1;
        if |text| > MAX_TEXT_BYTES {
          r := Err(Failure(commandOffset, TextTooLong));
        }
      } else {
        MarkUnsupported(commandOffset, NonPrintable(b));
      }
    }

    method ParseEscape(commandOffset: nat) returns (r: Result<(), Failure>)
      requires Valid() && !stopped && commandOffset == offset < |bytes| && bytes[offset] == ESC
      modifies this
      ensures Valid() && Ran(old(View()).Flushed().Counted(), Decode(bytes[commandOffset..]), commandOffset, r)
    {
      hide Decode, DecodeEscape, Parser.Did, TroubleWith, Effect;
      EscapeDecodes(bytes, commandOffset);
      FlushText();
      if offset + 1 >= |bytes| {
        return Err(Failure(commandOffset, Truncated(EscapeCommand)));
      }
      var command := bytes[offset + 1];
      offset := offset + 2;
      diagnostics := diagnostics.(commands := diagnostics.commands + 1);
      r := RunEscape(commandOffset, command);
    }

    method RunEscape(commandOffset: nat, command: byte) returns (r: Result<(), Failure>)
      requires AtPayload(commandOffset) && bytes[commandOffset + 1] == command
      modifies this
      ensures Valid() && Ran(old(View()), DecodeEscape(bytes[commandOffset..]), commandOffset, r)
    {
      if command == 64 {
        alignment, bold, qrPayload := Left, false, None;
        return Ok(());
      } else if command == 97 {
        var value :- TakeByte(commandOffset, AlignmentByte);
        r := ApplyAlignment(commandOffset, value);
      } else if command == 69 {
        var value :- TakeByte(commandOffset, BoldByte);
        r := ApplyBold(commandOffset, value);
      } else if command == 100 {
        var lines :- TakeByte(commandOffset, FeedByte);
        r := ApplyFeed(commandOffset, lines);
      } else {
        MarkUnsupported(commandOffset, UnknownEscape(command));
        return Ok(());
      }
    }

    method ApplyAlignment(commandOffset: nat, value: byte) returns (r: Result<(), Failure>)
      requires Valid() && !stopped
      modifies this
      ensures Valid() && Did(old(View()), SetAlignment(value), commandOffset, r) && offset == old(offset)
    {
      if value == 0 {
        alignment := Left;
      } else if value == 1 {
        alignment := Center;
      } else if value == 2 {
        alignment := Right;
      } else {
        MarkUnsupported(commandOffset, AlignmentValue(value));
      }
      return Ok(());
    }

    method ApplyBold(commandOffset: nat, value: byte) returns (r: Result<(), Failure>)
      requires Valid() && !stopped
      modifies this
      ensures Valid() && Did(old(View()), SetBold(value), commandOffset, r) && offset == old(offset)
    {
      if value == 0 {
        bold := false;
      } else if value == 1 {
        bold := true;
      } else {
        MarkUnsupported(commandOffset, BoldValue(value));
      }
      return Ok(());
    }

    method ApplyFeed(commandOffset: nat, lines: byte) returns (r: Result<(), Failure>)
      requires Valid() && !stopped
      modifies this
      ensures Valid() && Did(old(View()), FeedLines(lines), commandOffset, r) && offset == old(offset)
    {
      if lines == 0 {
        MarkUnsupported(commandOffset, FeedZero);
      } else {
        elements := elements + [Feed(lines)];
        diagnostics := diagnostics.(feedLines := diagnostics.feedLines + lines as nat);
      }
      return Ok(());
    }

    method ParseGroupSeparator(commandOffset: nat) returns (r: Result<(), Failure>)
      requires Valid() && !stopped && commandOffset == offset < |bytes| && bytes[offset] == GS
      modifies this
      ensures Valid() && Ran(old(View()).Flushed().Counted(), Decode(bytes[commandOffset..]), commandOffset, r)
    {
      hide Decode, DecodeGroup, Parser.Did, TroubleWith, Effect;
      GroupDecodes(bytes, commandOffset);
      FlushText();
      if offset + 1 >= |bytes| {
        return Err(Failure(commandOffset, Truncated(GroupCommand)));
      }
      var command := bytes[offset + 1];
      offset := offset + 2;
      diagnostics := diagnostics.(commands := diagnostics.commands + 1);
      r := RunGroup(commandOffset, command);
    }

    method RunGroup(commandOffset: nat, command: byte) returns (r: Result<(), Failure>)
      requires AtPayload(commandOffset) && bytes[commandOffset + 1] == command
      modifies this
      ensures Valid() && Ran(old(View()), DecodeGroup(bytes[commandOffset..]), commandOffset, r)
    {
      if command == 118 {
        r := ParseRasterImage(commandOffset);
      } else if command == 40 {
        r := ParseQrCommand(commandOffset);
      } else if command == 72 {
        var value :- TakeByte(commandOffset, HriByte);
        r := ApplyHri(commandOffset, value);
      } else if command == 104 {
        var value :- TakeByte(commandOffset, BarHeightByte);
        barcodeHeightDots := value;
        return Ok(());
      } else if command == 107 {
        r := ParseBarcode(commandOffset);
      } else if command == 86 {
        var mode :- TakeByte(commandOffset, CutByte);
        r := ApplyCut(commandOffset, mode);
      } else {
        MarkUnsupported(commandOffset, UnknownGroup(command));
        return Ok(());
      }
    }

    method ApplyHri(commandOffset: nat, value: byte) returns (r: Result<(), Failure>)
      requires Valid() && !stopped
      modifies this
      ensures Valid() && Did(old(View()), SetHri(value), commandOffset, r) && offset == old(offset)
    {
      if value > 3 {
        MarkUnsupported(commandOffset, HriMode(value));
      } else {
        barcodeHri := value != 0;
      }
      return Ok(());
    }

    method ApplyCut(commandOffset: nat, mode: byte) returns (r: Result<(), Failure>)
      requires Valid() && !stopped
      modifies this
      ensures Valid() && Did(old(View()), CutPaper(mode), commandOffset, r) && offset == old(offset)
    {
      if mode > 1 {
        MarkUnsupported(commandOffset, CutMode(mode));
      } else {
        elements := elements + [Cut];
        diagnostics := diagnostics.(cutRequested := true);
      }
      return Ok(());
    }

    ghost predicate AtPayload(start: nat)
      reads this
    {
      Valid() && !stopped && offset == start + 2
    }

    method ParseRasterImage(commandOffset: nat) returns (r: Result<(), Failure>)
      requires AtPayload(commandOffset)
      modifies this
      ensures Valid() && Ran(old(View()), DecodeRaster(bytes[commandOffset..]), commandOffset, r)
    {
      var subcommand :- TakeByte(commandOffset, RasterSubcommandByte);
      if subcommand != 48 {
        MarkUnsupported(commandOffset, RasterSubcommand(subcommand));
        return Ok(());
      }
      var mode :- TakeByte(commandOffset, RasterModeByte);
      if mode != 0 {
        MarkUnsupported(commandOffset, RasterMode(mode));
        return Ok(());
      }
      var widthLow :- TakeByte(commandOffset, RasterWidth);
      var widthHigh :- TakeByte(commandOffset, RasterWidth);
      var heightLow :- TakeByte(commandOffset, RasterHeight);
      var heightHigh :- TakeByte(commandOffset, RasterHeight);
      r := TakePixels(commandOffset, Word16(widthLow, widthHigh), Word16(heightLow, heightHigh));
    }

    method TakePixels(commandOffset: nat, rowBytes: nat, height: nat) returns (r: Result<(), Failure>)
      requires Valid() && !stopped && offset == commandOffset + 8
      modifies this
      ensures Valid()
      ensures Ran(old(View()), DecodePixels(bytes[commandOffset..], rowBytes, height), commandOffset, r)
    {
      var byteCount: nat := rowBytes * height;
      if rowBytes == 0 || height == 0 || byteCount > MAX_RASTER_BYTES {
        return Err(Failure(commandOffset, RasterDimensions));
      }
      var payload :- TakePayload(byteCount, commandOffset, RasterPixels);
      assert payload == bytes[commandOffset..][8..8 + byteCount];
      elements := elements + [Image(ReceiptImage(rowBytes * 8, height, 203, rowBytes, payload))];
      diagnostics := diagnostics.(images := diagnostics.images + 1);
      return Ok(());
    }

    method ParseQrCommand(commandOffset: nat) returns (r: Result<(), Failure>)
      requires AtPayload(commandOffset)
      modifies this
      ensures Valid() && Ran(old(View()), DecodeQr(bytes[commandOffset..]), commandOffset, r)
    {
      var function_ :- TakeByte(commandOffset, GroupFunctionByte);
      if function_ != 107 {
        MarkUnsupported(commandOffset, GroupFunction(function_));
        return Ok(());
      }
      var lengthLow :- TakeByte(commandOffset, QrLengthBytes);
      var lengthHigh :- TakeByte(commandOffset, QrLengthBytes);
      var length := Word16(lengthLow, lengthHigh);
      if length == 0 || length > MAX_QR_BYTES + 3 {
        return Err(Failure(commandOffset, QrLength));
      }
      var payload :- TakePayload(length, commandOffset, QrPayload);
      assert payload == bytes[commandOffset..][5..5 + length];
      r := ApplyQrPayload(commandOffset, payload);
    }

    method ApplyQrPayload(commandOffset: nat, payload: seq<byte>) returns (r: Result<(), Failure>)
      requires Valid() && !stopped
      modifies this
      ensures Valid() && Did(old(View()), QrCommand(payload), commandOffset, r) && offset == old(offset)
    {
      if |payload| < 3 || payload[0] != 49 {
        MarkUnsupported(commandOffset, QrPrefix);
      } else if payload[1] == 65 && payload[2] == 50 {
      } else if payload[1] == 67 && |payload| == 3 && 1 <= payload[2] <= 16 {
      } else if payload[1] == 69 && |payload| == 3 && 48 <= payload[2] <= 51 {
      } else if payload[1] == 80 && payload[2] == 48 {
        if !IsUtf8(payload[3..]) {
          return Err(Failure(commandOffset, QrNotUtf8));
        }
        qrPayload := Some(payload[3..]);
      } else if payload[1] == 81 && |payload| == 3 && payload[2] == 48 {
        if qrPayload.Some? {
          elements := elements + [Qr(qrPayload.value)];
          qrPayload := None;
          diagnostics := diagnostics.(qrCodes := diagnostics.qrCodes + 1);
        } else {
          MarkUnsupported(commandOffset, QrPrintWithoutData);
        }
      } else {
        MarkUnsupported(commandOffset, QrFunction(payload[1]));
      }
      return Ok(());
    }

    method ParseBarcode(commandOffset: nat) returns (r: Result<(), Failure>)
      requires AtPayload(commandOffset)
      modifies this
      ensures Valid() && Ran(old(View()), DecodeBarcode(bytes[commandOffset..]), commandOffset, r)
    {
      var kind :- TakeByte(commandOffset, BarcodeTypeByte);
      var length :- TakeByte(commandOffset, BarcodeLengthByte);
      var payload :- TakePayload(length as nat, commandOffset, BarcodeBytes);
      assert payload == bytes[commandOffset..][4..4 + (length as int)];
      r := ApplyBarcodeData(commandOffset, kind, payload);
    }

    method ApplyBarcodeData(commandOffset: nat, kind: byte, payload: seq<byte>) returns (r: Result<(), Failure>)
      requires Valid() && !stopped
      modifies this
      ensures Valid() && Did(old(View()), BarcodeData(kind, payload), commandOffset, r) && offset == old(offset)
    {
      var format, value := UpcA, payload;
      if kind == 73 {
        if !([123, 66] <= payload) {
          MarkUnsupported(commandOffset, BarcodeNotSetB);
          return Ok(());
        }
        format, value := Code128, payload[2..];
      } else if kind == 69 {
        format := Code39;
      } else if kind == 67 {
        format := Ean13;
      } else if kind != 65 {
        MarkUnsupported(commandOffset, BarcodeType(kind));
        return Ok(());
      }
      if !IsUtf8(value) {
        return Err(Failure(commandOffset, BarcodeNotUtf8));
      }
      elements := elements + [Barcode(format, value, barcodeHeightDots, barcodeHri)];
      diagnostics := diagnostics.(barcodes := diagnostics.barcodes + 1);
      return Ok(());
    }

    method FinishTextLine()
      requires Valid()
      modifies this
      ensures Valid() && View() == old(View()).FinishLine(width)
      ensures offset == old(offset) && stopped == old(stopped)
    {
      hide LineElement;
      if text == [] {
        elements := elements + [Feed(1)];
        diagnostics := diagnostics.(feedLines := diagnostics.feedLines + 1);
        return;
      }
      var line := text;
      text := [];
      diagnostics := diagnostics.(textLines := diagnostics.textLines + 1);
      var element := ClassifyLine(line);
      elements := elements + [element];
    }

    /** A full line of dashes is a divider, a line with a wide gap a row, anything else text. */
    method ClassifyLine(line: Ascii) returns (e: Element)
      ensures e == LineElement(line, alignment, bold, width)
    {
      hide SplitEmittedRow, AllDashes;
      var row := FindRow(line);
      if |line| == Columns(width) && AllDashes(line) {
        e := Divider;
      } else if row.Some? {
        e := Row(row.value.0, row.value.1);
      } else {
        e := Text(line, alignment, bold);
      }
    }

    method FlushText()
      requires Valid()
      modifies this
      ensures Valid() && View() == old(View()).Flushed()
      ensures offset == old(offset) && stopped == old(stopped)
    {
      if text == [] {
        return;
      }
      elements := elements + [Text(text, alignment, bold)];
      text := [];
    }

    method TakeByte(commandOffset: nat, missing: Missing) returns (r: Result<byte, Failure>)
      requires Valid()
      modifies this`offset
      ensures Valid()
      ensures if old(offset) < |bytes| then r == Ok(bytes[old(offset)]) && offset == old(offset) + 1
              else r == Err(Failure(commandOffset, Truncated(missing)))
    {
      if offset >= |bytes| {
        return Err(Failure(commandOffset, Truncated(missing)));
      }
      offset := offset + 1;
      return Ok(bytes[offset - 1]);
    }

    method TakePayload(length: nat, commandOffset: nat, missing: Missing) returns (r: Result<seq<byte>, Failure>)
      requires Valid()
      modifies this`offset
      ensures Valid()
      ensures if old(offset) + length <= |bytes|
              then r == Ok(bytes[old(offset)..old(offset) + length]) && offset == old(offset) + length
              else r == Err(Failure(commandOffset, Truncated(missing)))
    {
      var end := offset + length;
      if end > |bytes| {
        return Err(Failure(commandOffset, Truncated(missing)));
      }
      r := Ok(bytes[offset..end]);
      offset := end;
    }

    method MarkUnsupported(commandOffset: nat, reason: Unsupported)
      requires Valid()
      modifies this`diagnostics, this`stopped
      ensures Valid() && stopped && View() == old(View()).StopAt(commandOffset, reason)
    {
      diagnostics := diagnostics.(unsupported := diagnostics.unsupported + [(commandOffset, reason)]);
      stopped := true;
    }
  }

  method Interpret(bytes: seq<byte>, width: ReceiptWidth) returns (r: Result<Interpretation, Failure>)
    ensures r == Interpreted(bytes, width)
  {
    var parser := new Parser(bytes, width);
    r := parser.Run();
  }
}
