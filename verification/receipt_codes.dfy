/** QR codes, barcodes, dividers and images pixel by pixel. */
module ReceiptCodes {
  import opened Arithmetic
  import opened Bytes
  import opened Results
  import opened Layout
  import Wrapping
  import opened Raster
  import opened ReceiptMeasures
  import opened ReceiptInk

  // ---------- QR codes ----------

  /** A box of a grid whose boxes are `dot` wide and high. */
  lemma BoxOfGrid(x: nat, y: nat, dot: nat, column: nat, row: nat, u: nat, v: nat)
    requires dot >= 1
    ensures Box(x + column * dot, y + row * dot, dot, dot)(u, v)
       <==> u >= x && ColumnOf(x, dot, u) == column && v >= y && ColumnOf(y, dot, v) == row
  {
    hide ColumnOf;
    RowOfPixel(x, dot, column, u);
    RowOfPixel(y, dot, row, v);
  }

  /** The module (u, v) falls into, four modules inside the quiet zone, is dark. */
  ghost predicate ModuleDot(content: seq<byte>, modules: nat, x: nat, y: nat, dot: nat, codecs: Codecs, u: nat, v: nat)
    requires dot >= 1
  {
    u >= x + 4 * dot && v >= y + 4 * dot &&
    var column, row := (u - x - 4 * dot) / dot, (v - y - 4 * dot) / dot;
    column < modules && row < modules && codecs.dark(content, column, row)
  }

  lemma ModuleRowDots(content: seq<byte>, modules: nat, row: nat, x: nat, y: nat, dot: nat, codecs: Codecs, u: nat, v: nat)
    requires dot >= 1
    ensures var left, top := x + 4 * dot, y + 4 * dot;
      Any(ModuleRow(content, row, x, y, dot, codecs), modules)(u, v) <==>
        u >= left && v >= top && ColumnOf(top, dot, v) == row && ColumnOf(left, dot, u) < modules
        && DarkModule(content, ColumnOf(left, dot, u), row, codecs)
  {
    hide Any, Box, DarkModule, ColumnOf;
    var left, top := x + 4 * dot, y + 4 * dot;
    var part, c := ModuleRow(content, row, x, y, dot, codecs), ColumnOf(left, dot, u);
    var here := u >= left && v >= top && ColumnOf(top, dot, v) == row && DarkModule(content, c, row, codecs);
    forall k: nat ensures part(k)(u, v) <==> (here && k == c) || (false && k == 0) {
      BoxOfGrid(left, top, dot, k, row, u, v);
    }
    AnyIs(part, modules, u, v, c, here, 0, false);
  }

  /** A QR code blackens exactly the dots of its dark modules; the quiet zone of four modules around them stays white. */
  lemma {:induction false} QrPixels(content: seq<byte>, modules: nat, x: nat, y: nat, dot: nat, codecs: Codecs, u: nat, v: nat)
    requires dot >= 1
    ensures Any(ModuleRows(content, modules, x, y, dot, codecs), modules)(u, v)
       <==> ModuleDot(content, modules, x, y, dot, codecs, u, v)
  {
    hide Any, ModuleRow;
    var left, top := x + 4 * dot, y + 4 * dot;
    var part, r := ModuleRows(content, modules, x, y, dot, codecs), ColumnOf(top, dot, v);
    var here := u >= left && v >= top && ColumnOf(left, dot, u) < modules && DarkModule(content, ColumnOf(left, dot, u), r, codecs);
    forall k: nat ensures part(k)(u, v) <==> (here && k == r) || (false && k == 0) {
      ModuleRowDots(content, modules, k, x, y, dot, codecs, u, v);
    }
    AnyIs(part, modules, u, v, r, here, 0, false);
  }

  // ---------- Barcodes ----------

  /** A barcode blackens the bars that are dark over their whole height. */
  lemma {:induction false} BarPixels(bars: Bars, x: nat, y: nat, moduleScale: nat, height: nat, u: nat, v: nat)
    requires moduleScale >= 1
    ensures Any(DarkBars(bars, x, y, moduleScale, height), |bars|)(u, v) <==>
      u >= x && y <= v < y + height && (u - x) / moduleScale < |bars| && bars[(u - x) / moduleScale]
  {
    hide Any;
    var part, c := DarkBars(bars, x, y, moduleScale, height), ColumnOf(x, moduleScale, u);
    var here := u >= x && y <= v < y + height && c < |bars| && bars[c];
    forall k: nat ensures part(k)(u, v) <==> (here && k == c) || (false && k == 0) {
      hide ColumnOf;
      RowOfPixel(x, moduleScale, k, u);
    }
    AnyIs(part, |bars|, u, v, c, here, 0, false);
  }

  // ---------- Where they stand ----------

  /** The left edge of a code in the middle of the receipt. */
  function Middle(w: nat, left: nat, width: nat): nat { left + Less(width, w) / 2 }

  /** Both margins are alike up to one dot; a code wider than the receipt starts at its left edge. */
  lemma MiddleIsCentred(w: nat, left: nat, width: nat)
    ensures var x := Middle(w, left, width);
      && x >= left && (width <= w ==> x == left)
      && (w < width ==> var rest := left + width - (x + w); rest == x - left || rest == x - left + 1)
  {
  }

  lemma CodeElements(e: Element, left: nat, g: Geometry, y: nat, codecs: Codecs)
    ensures e.Qr? && codecs.modules(e.content).Some? ==>
      ElementInk(e, left, g, y, codecs) == QrInk(e.content, codecs.modules(e.content).value, left, g, y, codecs)
    ensures e.Barcode? && codecs.bars(e.format, e.code).Some? ==>
      ElementInk(e, left, g, y, codecs)
        == BarcodeInk(codecs.bars(e.format, e.code).value, e.code, e.heightDots, e.humanReadable, left, g, y, codecs)
  {
    hide QrInk, BarcodeInk, Wrapping.Wrapped, TextLines, RowLines, Samples, TargetSize, Box, Any, MaxChars;
  }

  lemma DotIsPositive(modules: nat, g: Geometry)
    ensures QrDot(modules, g) >= 1
  {
  }

  lemma QrInkIs(content: seq<byte>, modules: nat, left: nat, g: Geometry, y: nat, codecs: Codecs, dot: nat, x: nat)
    requires dot == QrDot(modules, g) && x == Middle((modules + 8) * dot, left, g.receiptWidth)
    ensures QrInk(content, modules, left, g, y, codecs) == Any(ModuleRows(content, modules, x, y, dot, codecs), modules)
  {
    hide Any, ModuleRows, QrDot;
  }

  /** The pixels of a QR code element with dots of that size, whose left edge with the quiet zone is at x. */
  lemma QrElementPixels(content: seq<byte>, modules: nat, left: nat, g: Geometry, y: nat, codecs: Codecs, dot: nat, x: nat, u: nat, v: nat)
    requires codecs.modules(content) == Some(modules)
    requires dot == QrDot(modules, g) && x == Middle((modules + 8) * dot, left, g.receiptWidth)
    ensures dot >= 1
    ensures ElementInk(Qr(content), left, g, y, codecs)(u, v) <==> ModuleDot(content, modules, x, y, dot, codecs, u, v)
  {
    hide Any, ModuleRows, ModuleDot, QrDot, ElementInk, QrInk;
    DotIsPositive(modules, g);
    QrInkIs(content, modules, left, g, y, codecs, dot, x);
    CodeElements(Qr(content), left, g, y, codecs);
    hide Middle;
    QrPixels(content, modules, x, y, dot, codecs, u, v);
  }

  /** The pixel falls into a dark bar. */
  ghost predicate BarDot(bars: Bars, x: nat, y: nat, moduleScale: nat, height: nat, u: nat, v: nat) {
    moduleScale >= 1 && u >= x && y <= v < y + height && (u - x) / moduleScale < |bars| && bars[(u - x) / moduleScale]
  }

  /** Below the bars and a gap of two glyph dots stands the code, centred, in type of at most two dots. */
  ghost function CodeLine(left: nat, g: Geometry, y: nat, height: nat): Placement {
    Placement(Center, false, left, y + height + 2 * GlyphScale(g.dpi), g.receiptWidth, if GlyphScale(g.dpi) < 2 then GlyphScale(g.dpi) else 2)
  }

  lemma BarsAndCode(bars: Bars, code: Ascii, heightDots: byte, readable: bool, left: nat, g: Geometry, y: nat, codecs: Codecs, m: nat, h: nat, x: nat)
    requires m == ModuleScale(bars, g) && h == BarHeight(heightDots, g.dpi) && x == Middle(|bars| * m, left, g.receiptWidth)
    ensures BarcodeInk(bars, code, heightDots, readable, left, g, y, codecs)
         == Either(Any(DarkBars(bars, x, y, m, h), |bars|),
                   if readable then LineInk(code, CodeLine(left, g, y, h), codecs) else Nothing())
  {
    hide Any, DarkBars, LineInk, ModuleScale, BarHeight, GlyphScale, Either, Nothing;
  }

  lemma InEither(a: Region, b: Region, u: nat, v: nat)
    ensures Either(a, b)(u, v) <==> a(u, v) || b(u, v)
    ensures !Nothing()(u, v)
  {
  }

  lemma BarsAreDots(bars: Bars, x: nat, y: nat, m: nat, h: nat, u: nat, v: nat)
    requires m >= 1
    ensures Any(DarkBars(bars, x, y, m, h), |bars|)(u, v) <==> BarDot(bars, x, y, m, h, u, v)
  {
    BarPixels(bars, x, y, m, h, u, v);
  }

  lemma CodeIsPlain(code: Ascii, left: nat, g: Geometry, y: nat, h: nat, codecs: Codecs, u: nat, v: nat)
    ensures CodeLine(left, g, y, h).scale >= 1
    ensures LineInk(code, CodeLine(left, g, y, h), codecs)(u, v) <==> LineDot(code, CodeLine(left, g, y, h), codecs, u, v)
  {
    hide LineDot, LineInk;
    TextPixels(code, CodeLine(left, g, y, h), codecs, u, v);
  }

  /** The pixels of a barcode element with bars m dots wide and h high from x on, and the readable code below. */
  lemma BarcodeElementPixels(
    e: Element, bars: Bars, left: nat, g: Geometry, y: nat, codecs: Codecs, m: nat, h: nat, x: nat, u: nat, v: nat)
    requires e.Barcode? && codecs.bars(e.format, e.code) == Some(bars)
    requires m == ModuleScale(bars, g) && h == BarHeight(e.heightDots, g.dpi) && x == Middle(|bars| * m, left, g.receiptWidth)
    ensures CodeLine(left, g, y, h).scale >= 1
    ensures ElementInk(e, left, g, y, codecs)(u, v) <==>
      BarDot(bars, x, y, m, h, u, v) || (e.humanReadable && LineDot(e.code, CodeLine(left, g, y, h), codecs, u, v))
  {
    hide Any, DarkBars, LineDot, ModuleScale, BarHeight, GlyphScale, LineInk, ElementInk, BarcodeInk, CodeLine, BarDot;
    ScaleIsPositive(bars, g);
    CodeElements(e, left, g, y, codecs);
    BarsAndCode(bars, e.code, e.heightDots, e.humanReadable, left, g, y, codecs, m, h, x);
    hide Middle, Either, Nothing;
    BarsAreDots(bars, x, y, m, h, u, v);
    CodeIsPlain(e.code, left, g, y, h, codecs, u, v);
    InEither(Any(DarkBars(bars, x, y, m, h), |bars|),
      if e.humanReadable then LineInk(e.code, CodeLine(left, g, y, h), codecs) else Nothing(), u, v);
  }

  lemma ScaleIsPositive(bars: Bars, g: Geometry)
    ensures ModuleScale(bars, g) >= 1 && GlyphScale(g.dpi) >= 1
  {
  }

  /** A character the font lacks is shown as a question mark, if the font has one. */
  lemma MissingGlyphs(c: byte, codecs: Codecs)
    ensures GlyphOf(c, codecs) == if codecs.font(c) != None then codecs.font(c) else codecs.font('?' as int as byte)
  {
  }

  // ---------- The other elements ----------

  /** A divider is a band across the receipt in the middle of its line; an image its dark samples; feeds and cuts are blank. */
  lemma OtherPixels(image: ReceiptImage, lines: byte, left: nat, g: Geometry, y: nat, codecs: Codecs, u: nat, v: nat)
    ensures var scale := GlyphScale(g.dpi);
      var thickness := if g.dpi < 300 then 1 else g.dpi / 150;
      ElementInk(Divider, left, g, y, codecs)(u, v) <==>
        left <= u < left + g.receiptWidth && y + scale * 9 / 2 <= v < y + scale * 9 / 2 + thickness
    ensures var (tw, th) := TargetSize(image, g, y);
      ElementInk(Image(image), left, g, y, codecs)(u, v) <==>
        left <= u < left + tw && y <= v < y + th && Sample(image, tw, th, u - left, v - y)
    ensures !ElementInk(Feed(lines), left, g, y, codecs)(u, v) && !ElementInk(Cut, left, g, y, codecs)(u, v)
  {
    hide Sample, TargetSize, GlyphScale;
  }

  /** The k-th of several lines, each nine glyph dots below the one before. */
  ghost predicate OnLine(lines: seq<Ascii>, k: nat, alignment: Alignment, bold: bool, left: nat, g: Geometry, y: nat, codecs: Codecs, u: nat, v: nat) {
    k < |lines|
    && LineInk(lines[k], Placement(alignment, bold, left, y + k * (9 * GlyphScale(g.dpi)), g.receiptWidth, GlyphScale(g.dpi)), codecs)(u, v)
  }

  lemma TextLineIs(lines: seq<Ascii>, k: nat, alignment: Alignment, bold: bool, left: nat, g: Geometry, y: nat, codecs: Codecs, u: nat, v: nat)
    ensures TextLines(lines, alignment, bold, left, y, g.receiptWidth, g.dpi, codecs)(k)(u, v)
       <==> OnLine(lines, k, alignment, bold, left, g, y, codecs, u, v)
  {
    hide LineInk, GlyphScale;
    assert Lines(k, g.dpi) == k * (9 * GlyphScale(g.dpi));
  }

  /** Text is drawn line by line. */
  lemma TextElementPixels(value: Ascii, alignment: Alignment, bold: bool, left: nat, g: Geometry, y: nat, codecs: Codecs, u: nat, v: nat)
    ensures var lines := Wrapping.Wrapped(value, MaxChars(g.receiptWidth, g.dpi));
      ElementInk(Text(value, alignment, bold), left, g, y, codecs)(u, v) <==>
        exists k: nat :: OnLine(lines, k, alignment, bold, left, g, y, codecs, u, v)
  {
    var lines := Wrapping.Wrapped(value, MaxChars(g.receiptWidth, g.dpi));
    hide LineInk, Wrapping.Wrapped, MaxChars, TextLines;
    var part := TextLines(lines, alignment, bold, left, y, g.receiptWidth, g.dpi, codecs);
    forall k: nat ensures part(k)(u, v) <==> OnLine(lines, k, alignment, bold, left, g, y, codecs, u, v) {
      TextLineIs(lines, k, alignment, bold, left, g, y, codecs, u, v);
    }
    assert forall k: nat :: OnLine(lines, k, alignment, bold, left, g, y, codecs, u, v) ==> k < |lines|;
    hide OnLine;
  }

  /** A row's cells stand line by line at the left and the right edge. */
  lemma RowElementPixels(first: Ascii, second: Ascii, left: nat, g: Geometry, y: nat, codecs: Codecs, u: nat, v: nat)
    ensures var columns := MaxChars(g.receiptWidth, g.dpi);
      var lefts, rights := Wrapping.Wrapped(first, LeftChars(columns)), Wrapping.Wrapped(second, RightChars(columns));
      ElementInk(Row(first, second), left, g, y, codecs)(u, v) <==>
        exists k: nat :: OnLine(lefts, k, Left, false, left, g, y, codecs, u, v) || OnLine(rights, k, Right, false, left, g, y, codecs, u, v)
  {
    var columns := MaxChars(g.receiptWidth, g.dpi);
    var lefts, rights := Wrapping.Wrapped(first, LeftChars(columns)), Wrapping.Wrapped(second, RightChars(columns));
    hide LineInk, Wrapping.Wrapped, MaxChars, LeftChars, RightChars, TextLines;
    var part := RowLines(lefts, rights, left, y, g.receiptWidth, g.dpi, codecs);
    forall k: nat
      ensures part(k)(u, v) <==>
        OnLine(lefts, k, Left, false, left, g, y, codecs, u, v) || OnLine(rights, k, Right, false, left, g, y, codecs, u, v)
    {
      TextLineIs(lefts, k, Left, false, left, g, y, codecs, u, v);
      TextLineIs(rights, k, Right, false, left, g, y, codecs, u, v);
    }
    assert forall k: nat :: OnLine(lefts, k, Left, false, left, g, y, codecs, u, v) ==> k < |lefts|;
    assert forall k: nat :: OnLine(rights, k, Right, false, left, g, y, codecs, u, v) ==> k < |rights|;
    hide OnLine, RowLines;
  }
}
