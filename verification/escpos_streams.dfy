/** What interpreting ANY byte stream guarantees: element shapes, exact diagnostics, and a firm stop. */
module EscPosStreams {
  import opened Bytes
  import opened Layout
  import opened Results
  import opened EscPosCommands
  import opened EscPosRender

  // ---------- The shape of interpreted elements ----------

  ghost predicate ImageFits(image: ReceiptImage) {
    && 1 <= image.stride < 65536 && 1 <= image.height < 65536
    && |image.data| == image.stride * image.height && |image.data| <= MAX_RASTER_BYTES
  }

  ghost predicate ByteAligned(image: ReceiptImage) {
    image.width == 8 * image.stride && image.dpi == 203
  }

  /** Cells the row splitter can produce. */
  ghost predicate CleanCells(left: Ascii, right: Ascii) {
    && AllPrintable(left) && AllPrintable(right)
    && left != [] && left[|left| - 1] != SPACE
    && (right != [] ==> right[0] != SPACE)
    && forall i :: !SpacesAt(right, i)
  }

  ghost predicate Produced(e: Element) {
    match e
    case Text(value, _, _) => value != [] && AllPrintable(value)
    case Row(left, right) => CleanCells(left, right)
    case Image(image) => ImageFits(image) && ByteAligned(image)
    case Qr(content) => IsUtf8(content) && |content| <= MAX_QR_BYTES
    case Barcode(_, code, _, _) => IsUtf8(code)
    case Feed(lines) => lines >= 1
    case _ => true
  }

  ghost predicate AllProduced(elements: seq<Element>) {
    forall i :: 0 <= i < |elements| ==> Produced(elements[i])
  }

  // ---------- Counting over a layout ----------

  datatype Tally = Tally(images: nat, qrCodes: nat, barcodes: nat, feedLines: nat, lines: nat, cut: bool)

  function Count(t: Tally, e: Element): Tally {
    match e
    case Image(_) => t.(images := t.images + 1)
    case Qr(_) => t.(qrCodes := t.qrCodes + 1)
    case Barcode(_, _, _, _) => t.(barcodes := t.barcodes + 1)
    case Feed(n) => t.(feedLines := t.feedLines + n as nat)
    case Cut => t.(cut := true)
    case _ => t.(lines := t.lines + 1)
  }

  /** Counts and sums over the elements of a layout. */
  function Tallied(elements: seq<Element>): Tally {
    if elements == [] then Tally(0, 0, 0, 0, 0, false)
    else Count(Tallied(elements[..|elements| - 1]), elements[|elements| - 1])
  }

  ghost predicate Agrees(d: Diagnostics, t: Tally) {
    && d.images == t.images && d.qrCodes == t.qrCodes && d.barcodes == t.barcodes
    && d.feedLines == t.feedLines && d.cutRequested == t.cut && d.textLines <= t.lines
  }

  /** The invariant of the interpreter. */
  ghost predicate Sound(m: Machine) {
    && AllProduced(m.elements) && AllPrintable(m.text)
    && (m.qr.Some? ==> IsUtf8(m.qr.value) && |m.qr.value| <= MAX_QR_BYTES)
    && Agrees(m.diagnostics, Tallied(m.elements))
  }

  lemma Pushed(elements: seq<Element>, e: Element)
    ensures Tallied(elements + [e]) == Count(Tallied(elements), e)
    ensures AllProduced(elements) && Produced(e) ==> AllProduced(elements + [e])
  {
    assert (elements + [e])[..|elements|] == elements;
  }

  lemma SplitRowIsClean(line: Ascii)
    requires AllPrintable(line) && SplitEmittedRow(line).Some?
    ensures var (left, right) := SplitEmittedRow(line).value;
      CleanCells(left, right) && |left| + 2 + |right| <= |line|
  {
    hide TrimEnd, TrimStart, LastSpaces;
    var k := LastSpaces(line);
    var tail := line[k + 2..];
    var right := TrimStart(tail);
    var from := |line| - |right|;
    assert right == line[from..];
    forall i ensures SpacesAt(right, i) ==> SpacesAt(line, from + i) {
    }
  }

  lemma FlushedSound(m: Machine)
    requires Sound(m)
    ensures Sound(m.Flushed()) && m.Flushed().text == []
  {
    hide Tallied, IsUtf8;
    Pushed(m.elements, Text(m.text, m.alignment, m.bold));
  }

  lemma LineElementProduced(line: Ascii, alignment: Alignment, bold: bool, width: ReceiptWidth)
    requires AllPrintable(line) && line != []
    ensures var e := LineElement(line, alignment, bold, width);
      Produced(e) && (e.Divider? || e.Row? || e.Text?)
  {
    hide SplitEmittedRow;
    if SplitEmittedRow(line).Some? {
      SplitRowIsClean(line);
    }
  }

  lemma FinishLineSound(m: Machine, width: ReceiptWidth)
    requires Sound(m)
    ensures Sound(m.FinishLine(width))
  {
    hide Tallied, IsUtf8, LineElement, Produced;
    if m.text == [] {
      FeedIsProduced(1);
      Pushed(m.elements, Feed(1));
    } else {
      LineElementProduced(m.text, m.alignment, m.bold, width);
      Pushed(m.elements, LineElement(m.text, m.alignment, m.bold, width));
    }
  }

  lemma FeedIsProduced(lines: byte)
    requires lines >= 1
    ensures Produced(Feed(lines))
  {
  }

  lemma DecodedIsWritable(s: seq<byte>)
    requires s != [] && Decode(s).Complete?
    ensures Writable(Decode(s).command) || Decode(s).command.Unreadable?
  {
    hide DecodePixels, DecodeQr, DecodeBarcode;
    if s[0] == GS && |s| >= 8 {
      PixelsAreWritable(s, Word16(s[4], s[5]), Word16(s[6], s[7]));
    }
    if s[0] == GS && |s| >= 2 {
      PayloadsAreWritable(s);
    }
    hide Writable;
  }

  lemma PixelsAreWritable(s: seq<byte>, rowBytes: nat, height: nat)
    requires |s| >= 8 && rowBytes < 65536 && height < 65536
    ensures DecodePixels(s, rowBytes, height).Complete? ==> Writable(DecodePixels(s, rowBytes, height).command)
  {
  }

  lemma PayloadsAreWritable(s: seq<byte>)
    requires |s| >= 2
    ensures DecodeQr(s).Complete? ==> Writable(DecodeQr(s).command) || DecodeQr(s).command.Unreadable?
    ensures DecodeBarcode(s).Complete? ==> Writable(DecodeBarcode(s).command)
  {
  }

  lemma ApplyTextSound(m: Machine, c: Command, width: ReceiptWidth)
    requires Sound(m) && IsText(c) && (Writable(c) || c.Unreadable?)
    ensures Sound(Apply(m, c, width))
  {
    if c.NewLine? {
      FinishLineSound(m, width);
    }
  }

  lemma QrPayloadSound(p: Machine, payload: seq<byte>)
    requires Sound(p) && |payload| <= MAX_QR_BYTES + 3 && QrTrouble(p, payload).Fine?
    ensures Sound(ApplyQr(p, payload))
  {
    hide Tallied, IsUtf8;
    if p.qr.Some? {
      Pushed(p.elements, Qr(p.qr.value));
    }
  }

  lemma BarcodeDataSound(p: Machine, kind: byte, data: seq<byte>)
    requires Sound(p) && BarcodeTrouble(kind, data).Fine?
    ensures Sound(ApplyBarcode(p, kind, data))
  {
    hide Tallied, IsUtf8;
    var value := if kind == 73 then data[2..] else data;
    Pushed(p.elements, Barcode(FormatOf(kind), value, p.barHeight, p.hri));
  }

  lemma EffectSound(p: Machine, c: Command, width: ReceiptWidth)
    requires Sound(p) && !IsText(c) && Writable(c) && TroubleWith(p, c).Fine?
    ensures Sound(Effect(p, c, width))
  {
    hide Tallied, IsUtf8, ApplyQr, ApplyBarcode;
    match c {
      case FeedLines(n) => Pushed(p.elements, Feed(n));
      case CutPaper(_) => Pushed(p.elements, Cut);
      case Raster(w, h, pixels) => Pushed(p.elements, Image(ReceiptImage(w * 8, h, 203, w, pixels)));
      case QrCommand(payload) => QrPayloadSound(p, payload);
      case BarcodeData(kind, data) => BarcodeDataSound(p, kind, data);
      case _ =>
    }
  }

  lemma ExecuteSound(m: Machine, c: Command, offset: nat, width: ReceiptWidth)
    requires Sound(m) && !m.Stopped() && (Writable(c) || c.Unreadable?)
    ensures var r := Execute(m, c, offset, width);
      r.Ok? ==> Sound(r.value) && |r.value.diagnostics.unsupported| <= 1
  {
    hide Effect;
    FlushedSound(m);
    if IsText(c) {
      ApplyTextSound(m, c, width);
    } else if TroubleWith(m, c).Fine? {
      PreparedTrouble(m, c);
      EffectSound(m.Flushed().Counted(), c, width);
    }
    ApplyKeepsGoing(m, c, width);
  }

  lemma PreparedTrouble(m: Machine, c: Command)
    requires !IsText(c)
    ensures TroubleWith(Prepared(m, c), c) == TroubleWith(m, c)
  {
  }

  lemma {:induction false} RunSound(rest: seq<byte>, offset: nat, m: Machine, width: ReceiptWidth)
    requires Sound(m) && |m.diagnostics.unsupported| <= 1
    ensures var r := Run(rest, offset, m, width);
      r.Ok? ==> Sound(r.value) && |r.value.diagnostics.unsupported| <= 1
    decreases |rest|
  {
    hide Execute;
    if rest != [] && !m.Stopped() && Decode(rest).Complete? {
      var Complete(c, n) := Decode(rest);
      DecodedIsWritable(rest);
      ExecuteSound(m, c, offset, width);
      var r := Execute(m, c, offset, width);
      if r.Ok? {
        RunSound(rest[n..], offset + n, r.value, width);
      }
    }
  }

  // ---------- Counting over a run ----------

  /** The commands an interpretation carries out, in order, the unsupported one that ends it included. */
  function Executed(rest: seq<byte>, offset: nat, m: Machine, width: ReceiptWidth): seq<Command>
    decreases |rest|
  {
    if rest == [] || m.Stopped() then []
    else
      match Decode(rest)
      case Malformed(_) => []
      case Complete(c, n) =>
        match Execute(m, c, offset, width)
        case Err(_) => []
        case Ok(next) => [c] + Executed(rest[n..], offset + n, next, width)
  }

  predicate EndsLine(c: Command) { c.NewLine? || (c.FeedLines? && c.lines > 0) }

  function Escapes(commands: seq<Command>): nat {
    if commands == [] then 0 else (if IsText(commands[0]) then 0 else 1) + Escapes(commands[1..])
  }

  function LineEnds(commands: seq<Command>): nat {
    if commands == [] then 0 else (if EndsLine(commands[0]) then 1 else 0) + LineEnds(commands[1..])
  }

  function Feeds(elements: seq<Element>): nat {
    if elements == [] then 0
    else Feeds(elements[..|elements| - 1]) + (if elements[|elements| - 1].Feed? then 1 else 0)
  }

  lemma FeedsPushed(elements: seq<Element>, e: Element)
    ensures Feeds(elements + [e]) == Feeds(elements) + (if e.Feed? then 1 else 0)
  {
    assert (elements + [e])[..|elements|] == elements;
  }

  /** The lines and feeds a machine has behind it. */
  function Ended(m: Machine): nat { m.diagnostics.textLines + Feeds(m.elements) }

  lemma FlushedCounts(m: Machine)
    ensures Ended(m.Flushed()) == Ended(m) && m.Flushed().diagnostics == m.diagnostics
  {
    hide Feeds;
    FeedsPushed(m.elements, Text(m.text, m.alignment, m.bold));
  }

  lemma LineCounts(m: Machine, width: ReceiptWidth)
    ensures Ended(m.FinishLine(width)) == Ended(m) + 1
    ensures m.FinishLine(width).diagnostics.commands == m.diagnostics.commands
  {
    hide Feeds, SplitEmittedRow;
    if m.text == [] {
      FeedsPushed(m.elements, Feed(1));
    } else {
      FeedsPushed(m.elements, LineElement(m.text, m.alignment, m.bold, width));
    }
  }

  lemma EffectCounts(p: Machine, c: Command, width: ReceiptWidth)
    requires !c.NewLine? && (c.FeedLines? ==> c.lines > 0)
    ensures Ended(Effect(p, c, width)) == Ended(p) + (if EndsLine(c) then 1 else 0)
    ensures Effect(p, c, width).diagnostics.commands == p.diagnostics.commands
  {
    hide Feeds;
    match c {
      case FeedLines(n) => FeedsPushed(p.elements, Feed(n));
      case CutPaper(_) => FeedsPushed(p.elements, Cut);
      case Raster(w, h, pixels) => FeedsPushed(p.elements, Image(ReceiptImage(w * 8, h, 203, w, pixels)));
      case QrCommand(payload) =>
        if p.qr.Some? {
          FeedsPushed(p.elements, Qr(p.qr.value));
        }
      case BarcodeData(kind, data) =>
        FeedsPushed(p.elements,
          Barcode(FormatOf(kind), if kind == 73 && |data| >= 2 then data[2..] else data, p.barHeight, p.hri));
      case _ =>
    }
  }

  lemma ExecuteCounts(m: Machine, c: Command, offset: nat, width: ReceiptWidth)
    ensures var r := Execute(m, c, offset, width);
      r.Ok? ==>
        && r.value.diagnostics.commands == m.diagnostics.commands + (if IsText(c) then 0 else 1)
        && Ended(r.value) == Ended(m) + (if EndsLine(c) then 1 else 0)
  {
    FlushedCounts(m);
    hide Feeds, Effect, QrTrouble, BarcodeTrouble;
    if TroubleWith(m, c).Fine? && !c.NewLine? {
      EffectCounts(Prepared(m, c), c, width);
    } else if c.NewLine? {
      LineCounts(m, width);
      NewLineEffect(m, width);
    }
  }

  lemma NewLineEffect(m: Machine, width: ReceiptWidth)
    ensures Effect(m, NewLine, width) == m.FinishLine(width)
  {
  }

  lemma StartIsSound()
    ensures Sound(INITIAL) && Ended(INITIAL) == 0
  {
  }

  lemma {:induction false} RunCounts(rest: seq<byte>, offset: nat, m: Machine, width: ReceiptWidth)
    ensures var r := Run(rest, offset, m, width);
      r.Ok? ==>
        && r.value.diagnostics.commands == m.diagnostics.commands + Escapes(Executed(rest, offset, m, width))
        && Ended(r.value) == Ended(m) + LineEnds(Executed(rest, offset, m, width))
    decreases |rest|
  {
    hide Execute, Ended, EndsLine, IsText;
    if rest != [] && !m.Stopped() && Decode(rest).Complete? {
      var Complete(c, n) := Decode(rest);
      ExecuteCounts(m, c, offset, width);
      var r := Execute(m, c, offset, width);
      if r.Ok? {
        RunCounts(rest[n..], offset + n, r.value, width);
        var later := Executed(rest[n..], offset + n, r.value, width);
        assert ([c] + later)[1..] == later;
      }
    }
  }

  /**
   Whatever the bytes: every element of the interpreted layout has the shape the
   printer could have meant, the diagnostics are the counts and sums over that
   layout and over the commands carried out, and at most one unsupported command
   was met. A line ended by a newline or a feed is a counted text line or a feed element.
   */
  lemma InterpretationIsSound(bytes: seq<byte>, width: ReceiptWidth)
    ensures var r := Interpreted(bytes, width);
      r.Ok? ==>
        && r.value.layout.width == width
        && AllProduced(r.value.layout.elements)
        && Agrees(r.value.diagnostics, Tallied(r.value.layout.elements))
        && |r.value.diagnostics.unsupported| <= 1
        && r.value.diagnostics.commands == Escapes(Executed(bytes, 0, INITIAL, width))
        && r.value.diagnostics.textLines + Feeds(r.value.layout.elements) == LineEnds(Executed(bytes, 0, INITIAL, width))
  {
    hide Run, Executed, Escapes, LineEnds, Tallied, Feeds, AllProduced, Agrees, AllPrintable, IsUtf8;
    StartIsSound();
    RunSound(bytes, 0, INITIAL, width);
    RunCounts(bytes, 0, INITIAL, width);
    if Run(bytes, 0, INITIAL, width).Ok? {
      FlushedSound(Run(bytes, 0, INITIAL, width).value);
      FlushedCounts(Run(bytes, 0, INITIAL, width).value);
    }
  }

  // ---------- A stop is final ----------

  lemma SlicePrefix(s: seq<byte>, q: seq<byte>, i: nat, j: nat)
    requires i <= j <= |s|
    ensures (s + q)[i..j] == s[i..j]
  {
  }

  lemma PixelsIgnoreTheRest(s: seq<byte>, q: seq<byte>, rowBytes: nat, height: nat)
    requires |s| >= 8 && DecodePixels(s, rowBytes, height).Complete?
    ensures DecodePixels(s + q, rowBytes, height) == DecodePixels(s, rowBytes, height)
  {
    SlicePrefix(s, q, 8, DecodePixels(s, rowBytes, height).length);
  }

  lemma RasterIgnoresTheRest(s: seq<byte>, q: seq<byte>)
    requires |s| >= 2 && DecodeRaster(s).Complete?
    ensures DecodeRaster(s + q) == DecodeRaster(s)
  {
    hide DecodePixels;
    if |s| >= 8 && s[2] == 48 && s[3] == 0 {
      PixelsIgnoreTheRest(s, q, Word16(s[4], s[5]), Word16(s[6], s[7]));
    }
  }

  lemma QrIgnoresTheRest(s: seq<byte>, q: seq<byte>)
    requires |s| >= 2 && DecodeQr(s).Complete?
    ensures DecodeQr(s + q) == DecodeQr(s)
  {
    if |s| >= 5 && s[2] == 107 {
      SlicePrefix(s, q, 5, DecodeQr(s).length);
    }
  }

  lemma BarcodeIgnoresTheRest(s: seq<byte>, q: seq<byte>)
    requires |s| >= 2 && DecodeBarcode(s).Complete?
    ensures DecodeBarcode(s + q) == DecodeBarcode(s)
  {
    SlicePrefix(s, q, 4, DecodeBarcode(s).length);
  }

  lemma DecodeIgnoresTheRest(s: seq<byte>, q: seq<byte>)
    requires s != [] && Decode(s).Complete?
    ensures Decode(s + q) == Decode(s)
  {
    hide DecodeRaster, DecodeQr, DecodeBarcode;
    if |s| >= 2 && s[0] == GS {
      if s[1] == 118 {
        RasterIgnoresTheRest(s, q);
      } else if s[1] == 40 {
        QrIgnoresTheRest(s, q);
      } else if s[1] == 107 {
        BarcodeIgnoresTheRest(s, q);
      }
    }
  }

  lemma {:induction false} PrefixStops(p: seq<byte>, q: seq<byte>, offset: nat, m: Machine, width: ReceiptWidth)
    requires Run(p, offset, m, width).Ok? && Run(p, offset, m, width).value.Stopped()
    ensures Run(p + q, offset, m, width) == Run(p, offset, m, width)
    decreases |p|
  {
    hide Execute;
    if p != [] && !m.Stopped() {
      var Complete(c, n) := Decode(p);
      DecodeIgnoresTheRest(p, q);
      assert (p + q)[n..] == p[n..] + q;
      PrefixStops(p[n..], q, offset + n, Execute(m, c, offset, width).value, width);
    }
  }

  /** Once a prefix stopped on an unsupported command, nothing after it can matter. */
  lemma UnsupportedStopsForGood(p: seq<byte>, q: seq<byte>, width: ReceiptWidth)
    requires Interpreted(p, width).Ok?
    requires Interpreted(p, width).value.diagnostics.unsupported != []
    ensures Interpreted(p + q, width) == Interpreted(p, width)
  {
    hide Run;
    var m := Run(p, 0, INITIAL, width).value;
    assert m.Flushed().diagnostics == m.diagnostics;
    PrefixStops(p, q, 0, INITIAL, width);
  }
}
