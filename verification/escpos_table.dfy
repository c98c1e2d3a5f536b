/**
 The command table of the interpreter: what a stream that starts with one command comes to, for every state of
 the interpreter and every continuation. `rest` below is the stream behind the command.
 */
module EscPosTable {
  import opened Bytes
  import opened Layout
  import opened Results
  import opened EscPosCommands

  type Outcome = Result<Machine, Failure>

  /** An escape sequence ends pending text as it stands, and counts. */
  ghost function Began(m: Machine): Machine {
    m.(text := [],
       elements := if m.text == [] then m.elements else m.elements + [Text(m.text, m.alignment, m.bold)],
       diagnostics := m.diagnostics.(commands := m.diagnostics.commands + 1))
  }

  /** Interpretation ends here, without an error. */
  ghost function Halted(m: Machine, offset: nat, reason: Unsupported): Outcome {
    Ok(m.(diagnostics := m.diagnostics.(unsupported := m.diagnostics.unsupported + [(offset, reason)])))
  }

  ghost function Failed(offset: nat, reason: Invalid): Outcome { Err(Failure(offset, reason)) }

  ghost predicate Going(m: Machine) { m.diagnostics.unsupported == [] }

  lemma BeganIs(m: Machine)
    ensures Began(m) == m.Flushed().Counted()
  {
  }

  lemma RunCommand(s: seq<byte>, offset: nat, m: Machine, width: ReceiptWidth, c: Command, n: nat)
    requires s != [] && Going(m) && Decode(s) == Complete(c, n)
    ensures Run(s, offset, m, width) ==
      match TroubleWith(m, c)
      case Fine => Run(s[n..], offset + n, Apply(m, c, width), width)
      case Unsupp(what) => Halted(Prepared(m, c), offset, what)
      case Bad(why) => Failed(offset, why)
  {
    hide Decode, TroubleWith, Apply, Prepared;
    if TroubleWith(m, c).Unsupp? {
      assert Prepared(m, c).StopAt(offset, TroubleWith(m, c).what).Stopped();
    }
  }

  lemma RunMalformed(s: seq<byte>, offset: nat, m: Machine, width: ReceiptWidth, reason: Invalid)
    requires s != [] && Going(m) && Decode(s) == Malformed(reason)
    ensures Run(s, offset, m, width) == Failed(offset, reason)
  {
    hide Decode;
  }

  // ---------- Text ----------

  /** A printable byte joins the line, up to 256 KiB; a carriage return does nothing; any other control byte stops. */
  lemma TextBytes(s: seq<byte>, offset: nat, m: Machine, width: ReceiptWidth)
    requires s != [] && Going(m)
    ensures 32 <= s[0] <= 126 ==>
      Run(s, offset, m, width) ==
        if |m.text| >= 262_144 then Failed(offset, TextTooLong)
        else Run(s[1..], offset + 1, m.(text := m.text + [s[0]]), width)
    ensures s[0] == 13 ==> Run(s, offset, m, width) == Run(s[1..], offset + 1, m, width)
    ensures s[0] !in {10, 13, 27, 29} && !(32 <= s[0] <= 126) ==>
      Run(s, offset, m, width) == Halted(m, offset, NonPrintable(s[0]))
  {
    if s[0] !in {10, 27, 29} {
      hide Run;
      RunCommand(s, offset, m, width,
        if s[0] == 13 then Return else if 32 <= s[0] <= 126 then Character(s[0]) else Unreadable(NonPrintable(s[0])), 1);
    }
  }

  /** An empty line is a feed of one line; any other becomes the element its characters say. */
  lemma LineEnds(s: seq<byte>, offset: nat, m: Machine, width: ReceiptWidth)
    requires s != [] && Going(m) && s[0] == 10
    ensures m.text == [] ==>
      Run(s, offset, m, width) == Run(s[1..], offset + 1,
        m.(elements := m.elements + [Feed(1)], diagnostics := m.diagnostics.(feedLines := m.diagnostics.feedLines + 1)), width)
    ensures m.text != [] ==>
      Run(s, offset, m, width) == Run(s[1..], offset + 1,
        m.(text := [], elements := m.elements + [LineElement(m.text, m.alignment, m.bold, width)],
           diagnostics := m.diagnostics.(textLines := m.diagnostics.textLines + 1)), width)
  {
    hide Run, LineElement;
    RunCommand(s, offset, m, width, NewLine, 1);
  }

  /** Two adjacent blanks start at k. */
  ghost predicate GapAt(line: Ascii, k: int) { 0 <= k < |line| - 1 && line[k] == 32 && line[k + 1] == 32 }

  ghost predicate Blanks(line: Ascii) { forall i :: 0 <= i < |line| ==> IsWhitespace(line[i]) }

  /** A row is what stands on both sides of its last wide gap, without the blanks around it. */
  ghost predicate SplitsInto(line: Ascii, left: Ascii, right: Ascii) {
    && left != [] && !IsWhitespace(left[|left| - 1]) && (right != [] ==> !IsWhitespace(right[0]))
    && |left| + |right| <= |line| && left == line[..|left|] && right == line[|line| - |right|..]
    && Blanks(line[|left|..|line| - |right|]) && (forall k :: |line| - |right| <= k ==> !GapAt(line, k))
  }

  /** The last wide gap starts at k, behind visible characters. */
  ghost predicate RowGap(line: Ascii, k: nat) {
    GapAt(line, k) && !Blanks(line[..k]) && forall j :: k < j ==> !GapAt(line, j)
  }

  lemma GapsAreSpaces(line: Ascii)
    ensures forall i :: GapAt(line, i) <==> SpacesAt(line, i)
  {
  }

  lemma TrimmedIsBlank(s: Ascii)
    ensures TrimEnd(s) == [] <==> Blanks(s)
  {
    if TrimEnd(s) != [] {
      assert !IsWhitespace(s[|TrimEnd(s)| - 1]);
    }
  }

  lemma OnlyLastSpaces(line: Ascii, k: nat)
    ensures RowGap(line, k) <==> k == LastSpaces(line) && TrimEnd(line[..k]) != []
  {
    GapsAreSpaces(line);
    var last := LastSpaces(line);
    hide LastSpaces, TrimEnd;
    if GapAt(line, k) || k == last {
      TrimmedIsBlank(line[..k]);
    }
    assert RowGap(line, k) ==> SpacesAt(line, k) && (last > k ==> GapAt(line, last));
  }

  lemma Pieces(line: Ascii, left: Ascii, b1: Ascii, b2: Ascii, right: Ascii)
    requires line == left + b1 + [32, 32] + b2 + right && Blanks(b1) && Blanks(b2)
    requires left != [] && !IsWhitespace(left[|left| - 1]) && (right != [] ==> !IsWhitespace(right[0]))
    requires forall j :: |left| + |b1| < j ==> !GapAt(line, j)
    ensures SplitsInto(line, left, right)
  {
    assert line[|left|..|line| - |right|] == b1 + [32, 32] + b2;
    assert IsWhitespace(32);
    hide IsWhitespace, GapAt;
  }

  lemma AroundGap(line: Ascii, k: nat)
    requires GapAt(line, k)
    ensures line == line[..k] + [32, 32] + line[k + 2..]
  {
  }

  lemma EndPieces(s: Ascii, t: Ascii)
    requires t == TrimEnd(s)
    ensures |t| <= |s| && s == t + s[|t|..] && Blanks(s[|t|..]) && (t != [] ==> !IsWhitespace(t[|t| - 1]))
  {
    hide TrimEnd, IsWhitespace;
    assert t == s[..|t|];
  }

  lemma StartPieces(s: Ascii, t: Ascii, n: nat)
    requires t == TrimStart(s) && n == |s| - |t|
    ensures n <= |s| && s == s[..n] + t && Blanks(s[..n]) && (t != [] ==> !IsWhitespace(t[0]))
  {
    assert t == s[n..];
    assert forall i :: 0 <= i < n ==> IsWhitespace(s[i]);
    assert t != [] ==> !IsWhitespace(t[0]);
    hide *;
    BlanksBefore(s, n);
    SplitAt(s, n);
  }

  lemma SplitAt(s: Ascii, n: nat)
    requires n <= |s|
    ensures s == s[..n] + s[n..]
  {
  }

  lemma BlanksBefore(s: Ascii, n: nat)
    requires n <= |s| && forall i :: 0 <= i < n ==> IsWhitespace(s[i])
    ensures Blanks(s[..n])
  {
  }

  lemma RowSplits(line: Ascii, k: nat)
    requires k == LastSpaces(line) && TrimEnd(line[..k]) != []
    ensures SplitsInto(line, TrimEnd(line[..k]), TrimStart(line[k + 2..]))
  {
    GapsAreSpaces(line);
    assert SpacesAt(line, k) && forall j :: k < j ==> !GapAt(line, j);
    hide LastSpaces, TrimEnd, TrimStart, Blanks, IsWhitespace, SplitsInto;
    AroundGap(line, k);
    hide GapAt, SpacesAt;
    var before, behind := line[..k], line[k + 2..];
    var left, right := TrimEnd(before), TrimStart(behind);
    EndPieces(before, left);
    StartPieces(behind, right, |behind| - |right|);
    var b1, b2 := before[|left|..], behind[..|behind| - |right|];
    Joined(left, b1, b2, right);
    Pieces(line, left, b1, b2, right);
  }

  lemma Joined(left: Ascii, b1: Ascii, b2: Ascii, right: Ascii)
    ensures (left + b1) + [32, 32] + (b2 + right) == left + b1 + [32, 32] + b2 + right
  {
  }

  lemma SplitIs(line: Ascii)
    ensures SplitEmittedRow(line).Some? <==> exists k: nat :: RowGap(line, k)
    ensures SplitEmittedRow(line).Some? ==> SplitsInto(line, SplitEmittedRow(line).value.0, SplitEmittedRow(line).value.1)
  {
    hide LastSpaces, TrimEnd, TrimStart, RowGap, SplitsInto;
    var k := LastSpaces(line);
    if k >= 0 {
      OnlyLastSpaces(line, k);
      if TrimEnd(line[..k]) != [] {
        RowSplits(line, k);
      }
    }
    if exists j: nat :: RowGap(line, j) {
      var j: nat :| RowGap(line, j);
      OnlyLastSpaces(line, j);
    }
  }

  /** A line as wide as the receipt and all dashes is a divider; one with a wide gap behind visible characters is a row. */
  lemma LineElementIs(line: Ascii, alignment: Alignment, bold: bool, width: ReceiptWidth)
    ensures var e := LineElement(line, alignment, bold, width);
      && (e == Divider <==> |line| == (if width == Mm58 then 32 else 48) && forall i :: 0 <= i < |line| ==> line[i] == 45)
      && (e.Row? <==> e != Divider && exists k: nat :: RowGap(line, k))
      && (e.Row? ==> SplitsInto(line, e.left, e.right))
      && (e != Divider && !e.Row? ==> e == Text(line, alignment, bold))
  {
    SplitIs(line);
    hide SplitEmittedRow, SplitsInto, RowGap;
  }

  // ---------- Escape sequences ----------

  lemma EscapeEnds(s: seq<byte>, offset: nat, m: Machine, width: ReceiptWidth)
    requires s != [] && Going(m) && s[0] == 27
    ensures |s| == 1 ==> Run(s, offset, m, width) == Failed(offset, Truncated(EscapeCommand))
    ensures |s| == 2 && s[1] == 97 ==> Run(s, offset, m, width) == Failed(offset, Truncated(AlignmentByte))
    ensures |s| == 2 && s[1] == 69 ==> Run(s, offset, m, width) == Failed(offset, Truncated(BoldByte))
    ensures |s| == 2 && s[1] == 100 ==> Run(s, offset, m, width) == Failed(offset, Truncated(FeedByte))
  {
    hide Run;
    match Decode(s) {
      case Malformed(reason) => RunMalformed(s, offset, m, width, reason);
      case Complete(_, _) =>
    }
  }

  /** ESC @ resets what it resets; ESC a, ESC E and ESC d take the values printers take, and stop at any other. */
  lemma EscapeCommands(s: seq<byte>, offset: nat, m: Machine, width: ReceiptWidth)
    requires |s| >= 2 && Going(m) && s[0] == 27
    ensures s[1] == 64 ==>
      Run(s, offset, m, width) == Run(s[2..], offset + 2, Began(m).(alignment := Left, bold := false, qr := None), width)
    ensures s[1] == 97 && |s| >= 3 ==>
      Run(s, offset, m, width) ==
        if s[2] == 0 then Run(s[3..], offset + 3, Began(m).(alignment := Left), width)
        else if s[2] == 1 then Run(s[3..], offset + 3, Began(m).(alignment := Center), width)
        else if s[2] == 2 then Run(s[3..], offset + 3, Began(m).(alignment := Right), width)
        else Halted(Began(m), offset, AlignmentValue(s[2]))
    ensures s[1] == 69 && |s| >= 3 ==>
      Run(s, offset, m, width) ==
        if s[2] == 0 then Run(s[3..], offset + 3, Began(m).(bold := false), width)
        else if s[2] == 1 then Run(s[3..], offset + 3, Began(m).(bold := true), width)
        else Halted(Began(m), offset, BoldValue(s[2]))
    ensures s[1] == 100 && |s| >= 3 ==>
      Run(s, offset, m, width) ==
        if s[2] == 0 then Halted(Began(m), offset, FeedZero)
        else
          var b := Began(m);
          Run(s[3..], offset + 3,
            b.(elements := b.elements + [Feed(s[2])],
               diagnostics := b.diagnostics.(feedLines := b.diagnostics.feedLines + s[2] as nat)), width)
    ensures s[1] !in {64, 69, 97, 100} ==> Run(s, offset, m, width) == Halted(Began(m), offset, UnknownEscape(s[1]))
  {
    BeganIs(m);
    hide Run, Began;
    match Decode(s) {
      case Malformed(reason) =>
      case Complete(c, n) => RunCommand(s, offset, m, width, c, n);
    }
  }

  // ---------- Group separator sequences ----------

  lemma GroupEnds(s: seq<byte>, offset: nat, m: Machine, width: ReceiptWidth)
    requires s != [] && Going(m) && s[0] == 29
    ensures |s| == 1 ==> Run(s, offset, m, width) == Failed(offset, Truncated(GroupCommand))
    ensures |s| == 2 && s[1] == 72 ==> Run(s, offset, m, width) == Failed(offset, Truncated(HriByte))
    ensures |s| == 2 && s[1] == 104 ==> Run(s, offset, m, width) == Failed(offset, Truncated(BarHeightByte))
    ensures |s| == 2 && s[1] == 86 ==> Run(s, offset, m, width) == Failed(offset, Truncated(CutByte))
  {
    hide Run, DecodeRaster, DecodeQr, DecodeBarcode;
    match Decode(s) {
      case Malformed(reason) => RunMalformed(s, offset, m, width, reason);
      case Complete(_, _) =>
    }
  }

  /** GS H, GS h and GS V, and what is none of the supported sequences. */
  lemma GroupCommands(s: seq<byte>, offset: nat, m: Machine, width: ReceiptWidth)
    requires |s| >= 2 && Going(m) && s[0] == 29
    ensures s[1] == 72 && |s| >= 3 ==>
      Run(s, offset, m, width) ==
        if s[2] > 3 then Halted(Began(m), offset, HriMode(s[2]))
        else Run(s[3..], offset + 3, Began(m).(hri := s[2] != 0), width)
    ensures s[1] == 104 && |s| >= 3 ==>
      Run(s, offset, m, width) == Run(s[3..], offset + 3, Began(m).(barHeight := s[2]), width)
    ensures s[1] == 86 && |s| >= 3 ==>
      Run(s, offset, m, width) ==
        if s[2] > 1 then Halted(Began(m), offset, CutMode(s[2]))
        else
          var b := Began(m);
          Run(s[3..], offset + 3,
            b.(elements := b.elements + [Cut], diagnostics := b.diagnostics.(cutRequested := true)), width)
    ensures s[1] !in {40, 72, 86, 104, 107, 118} ==> Run(s, offset, m, width) == Halted(Began(m), offset, UnknownGroup(s[1]))
  {
    BeganIs(m);
    hide Run, Began, DecodeRaster, DecodeQr, DecodeBarcode;
    if s[1] !in {40, 107, 118} {
      match Decode(s) {
        case Malformed(reason) =>
        case Complete(c, n) => RunCommand(s, offset, m, width, c, n);
      }
    }
  }

  // ---------- Rasters ----------

  /** GS v 0 0 xL xH yL yH: at most 2 MiB of pixels, 203 dots per inch, eight pixels to a byte. */
  lemma RasterCommand(s: seq<byte>, offset: nat, m: Machine, width: ReceiptWidth)
    requires |s| >= 2 && Going(m) && s[0] == 29 && s[1] == 118
    ensures |s| == 2 ==> Run(s, offset, m, width) == Failed(offset, Truncated(RasterSubcommandByte))
    ensures |s| >= 3 && s[2] != 48 ==> Run(s, offset, m, width) == Halted(Began(m), offset, RasterSubcommand(s[2]))
    ensures |s| == 3 && s[2] == 48 ==> Run(s, offset, m, width) == Failed(offset, Truncated(RasterModeByte))
    ensures |s| >= 4 && s[2] == 48 && s[3] != 0 ==> Run(s, offset, m, width) == Halted(Began(m), offset, RasterMode(s[3]))
    ensures 4 <= |s| < 6 && s[2] == 48 && s[3] == 0 ==> Run(s, offset, m, width) == Failed(offset, Truncated(RasterWidth))
    ensures 6 <= |s| < 8 && s[2] == 48 && s[3] == 0 ==> Run(s, offset, m, width) == Failed(offset, Truncated(RasterHeight))
  {
    if |s| < 8 || s[2] != 48 || s[3] != 0 {
      BeganIs(m);
      hide Run, Began, DecodePixels;
      match Decode(s) {
        case Malformed(reason) => RunMalformed(s, offset, m, width, reason);
        case Complete(c, n) => RunCommand(s, offset, m, width, c, n);
      }
    }
  }

  /** `w` bytes to a row and `h` rows, both little endian. */
  lemma RasterPixelsRead(s: seq<byte>, offset: nat, m: Machine, width: ReceiptWidth, w: nat, h: nat, count: nat)
    requires |s| >= 8 && Going(m) && s[0] == 29 && s[1] == 118 && s[2] == 48 && s[3] == 0
    requires w == s[4] as nat + 256 * s[5] as nat && h == s[6] as nat + 256 * s[7] as nat && count == w * h
    ensures Run(s, offset, m, width) ==
      if w == 0 || h == 0 || count > 2_097_152 then Failed(offset, RasterDimensions)
      else if |s| - 8 < count then Failed(offset, Truncated(RasterPixels))
      else
        var b, image := Began(m), ReceiptImage(8 * w, h, 203, w, s[8..8 + count]);
        Run(s[8 + count..], offset + 8 + count,
          b.(elements := b.elements + [Image(image)], diagnostics := b.diagnostics.(images := b.diagnostics.images + 1)), width)
  {
    RasterDecodes(s, w, h, count);
    hide Run, Decode, Began, Apply, TroubleWith;
    match Decode(s) {
      case Malformed(reason) => RunMalformed(s, offset, m, width, reason);
      case Complete(c, n) =>
        RunCommand(s, offset, m, width, c, n);
        RasterApplies(m, w, h, s[8..n], width);
    }
  }

  lemma RasterApplies(m: Machine, w: nat, h: nat, pixels: seq<byte>, width: ReceiptWidth)
    ensures var b := Began(m);
      && TroubleWith(m, Raster(w, h, pixels)).Fine?
      && Apply(m, Raster(w, h, pixels), width)
         == b.(elements := b.elements + [Image(ReceiptImage(8 * w, h, 203, w, pixels))],
               diagnostics := b.diagnostics.(images := b.diagnostics.images + 1))
  {
    BeganIs(m);
  }

  lemma RasterDecodes(s: seq<byte>, w: nat, h: nat, count: nat)
    requires |s| >= 8 && s[0] == 29 && s[1] == 118 && s[2] == 48 && s[3] == 0
    requires w == s[4] as nat + 256 * s[5] as nat && h == s[6] as nat + 256 * s[7] as nat && count == w * h
    ensures Decode(s) ==
      if w == 0 || h == 0 || count > 2_097_152 then Malformed(RasterDimensions)
      else if |s| - 8 < count then Malformed(Truncated(RasterPixels))
      else Complete(Raster(w, h, s[8..8 + count]), 8 + count)
  {
    assert Decode(s) == DecodePixels(s, w, h);
  }

  // ---------- Barcodes ----------

  ghost function WithBarcode(m: Machine, format: BarcodeFormat, code: seq<byte>): Machine {
    m.(elements := m.elements + [Barcode(format, code, m.barHeight, m.hri)],
       diagnostics := m.diagnostics.(barcodes := m.diagnostics.barcodes + 1))
  }

  /** GS k m n: set B of Code 128 for 73, Code 39 for 69, EAN-13 for 67 and UPC-A for 65. */
  lemma BarcodeCommand(s: seq<byte>, offset: nat, m: Machine, width: ReceiptWidth)
    requires |s| >= 2 && Going(m) && s[0] == 29 && s[1] == 107
    ensures |s| == 2 ==> Run(s, offset, m, width) == Failed(offset, Truncated(BarcodeTypeByte))
    ensures |s| == 3 ==> Run(s, offset, m, width) == Failed(offset, Truncated(BarcodeLengthByte))
    ensures |s| >= 4 && |s| - 4 < s[3] as nat ==> Run(s, offset, m, width) == Failed(offset, Truncated(BarcodeBytes))
    ensures |s| >= 4 && |s| - 4 >= s[3] as nat ==>
      var n := s[3] as nat;
      var data := s[4..4 + n];
      Run(s, offset, m, width) ==
        if s[2] == 73 && !(n >= 2 && data[0] == 123 && data[1] == 66) then Halted(Began(m), offset, BarcodeNotSetB)
        else if s[2] !in {65, 67, 69, 73} then Halted(Began(m), offset, BarcodeType(s[2]))
        else
          var code := if s[2] == 73 then data[2..] else data;
          var format := if s[2] == 73 then Code128 else if s[2] == 69 then Code39 else if s[2] == 67 then Ean13 else UpcA;
          if !IsUtf8(code) then Failed(offset, BarcodeNotUtf8)
          else Run(s[4 + n..], offset + 4 + n, WithBarcode(Began(m), format, code), width)
  {
    BeganIs(m);
    hide Run, Began, IsUtf8;
    match Decode(s) {
      case Malformed(reason) => RunMalformed(s, offset, m, width, reason);
      case Complete(c, n) =>
        RunCommand(s, offset, m, width, c, n);
        SetBPrefix(c.data);
    }
  }

  lemma SetBPrefix(data: seq<byte>)
    ensures [123, 66] <= data <==> |data| >= 2 && data[0] == 123 && data[1] == 66
  {
  }

  // ---------- QR codes ----------

  lemma QrFraming(s: seq<byte>, offset: nat, m: Machine, width: ReceiptWidth)
    requires |s| >= 2 && Going(m) && s[0] == 29 && s[1] == 40
    ensures |s| == 2 ==> Run(s, offset, m, width) == Failed(offset, Truncated(GroupFunctionByte))
    ensures |s| >= 3 && s[2] != 107 ==> Run(s, offset, m, width) == Halted(Began(m), offset, GroupFunction(s[2]))
    ensures 3 <= |s| < 5 && s[2] == 107 ==> Run(s, offset, m, width) == Failed(offset, Truncated(QrLengthBytes))
    ensures |s| >= 5 && s[2] == 107 ==>
      var n := s[3] as nat + 256 * s[4] as nat;
      && (n == 0 || n > 4099 ==> Run(s, offset, m, width) == Failed(offset, QrLength))
      && (1 <= n <= 4099 && |s| - 5 < n ==> Run(s, offset, m, width) == Failed(offset, Truncated(QrPayload)))
  {
    BeganIs(m);
    hide Run, Began, QrTrouble;
    match Decode(s) {
      case Malformed(reason) => RunMalformed(s, offset, m, width, reason);
      case Complete(c, n) => RunCommand(s, offset, m, width, c, n);
    }
  }

  lemma QrDecodes(s: seq<byte>, n: nat)
    requires |s| >= 5 && s[..3] == [29, 40, 107] && n == s[3] as nat + 256 * s[4] as nat
    requires 1 <= n <= 4099 && |s| >= 5 + n
    ensures Decode(s) == Complete(QrCommand(s[5..5 + n]), 5 + n)
  {
    assert s[..3][0] == s[0] && s[..3][1] == s[1] && s[..3][2] == s[2];
  }

  lemma PrintPayload(p: seq<byte>)
    ensures p == [49, 81, 48] <==> |p| == 3 && p[0] == 49 && p[1] == 81 && p[2] == 48
  {
  }

  /** Model 2, a module size of 1 to 16, or an error correction level. */
  predicate Sets(p: seq<byte>)
    requires |p| >= 3
  {
    || (p[1] == 65 && p[2] == 50)
    || (|p| == 3 && p[1] == 67 && 1 <= p[2] <= 16)
    || (|p| == 3 && p[1] == 69 && 48 <= p[2] <= 51)
  }

  lemma QrTroubleIs(m: Machine, p: seq<byte>)
    ensures TroubleWith(m, QrCommand(p)) ==
      if |p| < 3 || p[0] != 49 then Unsupp(QrPrefix)
      else if p[1] == 80 && p[2] == 48 then (if IsUtf8(p[3..]) then Fine else Bad(QrNotUtf8))
      else if p == [49, 81, 48] then (if m.qr.Some? then Fine else Unsupp(QrPrintWithoutData))
      else if Sets(p) then Fine
      else Unsupp(QrFunction(p[1]))
  {
    hide IsUtf8;
    PrintPayload(p);
  }

  lemma QrApplies(m: Machine, p: seq<byte>, width: ReceiptWidth)
    requires |p| >= 3 && p[0] == 49
    ensures var b, after := Began(m), Apply(m, QrCommand(p), width);
      && (p[1] == 80 ==> after == b.(qr := Some(p[3..])))
      && (p == [49, 81, 48] && m.qr.Some? ==>
            after == b.(qr := None, elements := b.elements + [Qr(m.qr.value)],
                        diagnostics := b.diagnostics.(qrCodes := b.diagnostics.qrCodes + 1)))
      && (Sets(p) ==> after == b)
  {
    BeganIs(m);
    PrintPayload(p);
  }

  /** The payload of GS ( k: settings are accepted, storing needs UTF-8, and printing takes what was stored. */
  lemma QrCommands(s: seq<byte>, offset: nat, m: Machine, width: ReceiptWidth, n: nat)
    requires |s| >= 5 && Going(m) && s[..3] == [29, 40, 107] && n == s[3] as nat + 256 * s[4] as nat
    requires 1 <= n <= 4099 && |s| >= 5 + n
    ensures var p, next, b := s[5..5 + n], s[5 + n..], Began(m);
      Run(s, offset, m, width) ==
        if n < 3 || p[0] != 49 then Halted(b, offset, QrPrefix)
        else if p[1] == 80 && p[2] == 48 then
          if IsUtf8(p[3..]) then Run(next, offset + 5 + n, b.(qr := Some(p[3..])), width) else Failed(offset, QrNotUtf8)
        else if p == [49, 81, 48] then
          match m.qr
          case None => Halted(b, offset, QrPrintWithoutData)
          case Some(content) =>
            Run(next, offset + 5 + n,
              b.(qr := None, elements := b.elements + [Qr(content)],
                 diagnostics := b.diagnostics.(qrCodes := b.diagnostics.qrCodes + 1)), width)
        else if Sets(p) then Run(next, offset + 5 + n, b, width)
        else Halted(b, offset, QrFunction(p[1]))
  {
    hide Decode, Run, Began, IsUtf8, TroubleWith, Apply, Prepared, Sets;
    QrDecodes(s, n);
    var p := s[5..5 + n];
    QrPrepares(m, p);
    RunCommand(s, offset, m, width, QrCommand(p), 5 + n);
    QrTroubleIs(m, p);
    if n >= 3 && p[0] == 49 {
      QrApplies(m, p, width);
    }
  }

  lemma QrPrepares(m: Machine, p: seq<byte>)
    ensures Prepared(m, QrCommand(p)) == Began(m)
  {
    BeganIs(m);
  }

  // ---------- Beginning and end ----------

  /**
   Interpretation starts flush left, not bold, with codes 80 dots high and readable below. Unless it stopped
   early, text that no newline ended becomes a last text element, which counts as no line.
   */
  lemma InterpretationBeginsAndEnds(bytes: seq<byte>, width: ReceiptWidth)
    ensures var start := Machine(alignment := Left, bold := false, text := [], qr := None, barHeight := 80, hri := true, elements := [],
        diagnostics := Diagnostics(0, 0, 0, 0, 0, 0, false, []));
      Interpreted(bytes, width) ==
        match Run(bytes, 0, start, width)
        case Err(failure) => Err(failure)
        case Ok(m) =>
          var pending := if !Going(m) || m.text == [] then [] else [Text(m.text, m.alignment, m.bold)];
          Ok(Interpretation(PrintLayout(width, m.elements + pending), m.diagnostics))
    ensures forall m: Machine, offset: nat :: Run([], offset, m, width) == Ok(m)
  {
    var r := Run(bytes, 0, INITIAL, width);
    if r.Ok? {
      assert r.value.elements + [] == r.value.elements;
    }
    hide Run;
    EmptyRuns(width);
  }

  lemma EmptyRuns(width: ReceiptWidth)
    ensures forall m: Machine, offset: nat :: Run([], offset, m, width) == Ok(m)
  {
  }
}
