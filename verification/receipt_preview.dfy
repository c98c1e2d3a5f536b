/** The tall receipt preview: drawing on an estimated canvas, and a crop to what was drawn. */
module ReceiptPreview {
  import opened Bytes
  import opened Results
  import opened Layout
  import opened Wrapping
  import opened Rows
  import opened Raster
  import opened ReceiptMeasures
  import opened ReceiptInk

  class Preview {
    const canvas: MonoCanvas
    const codecs: Codecs

    ghost predicate Valid()
      reads this, canvas, canvas.data
    {
      canvas.Valid()
    }

    ghost function Page(): Sheet { Sheet(canvas.stride, canvas.width, canvas.height) }

    constructor (canvas: MonoCanvas, codecs: Codecs)
      requires canvas.Valid()
      ensures Valid() && this.canvas == canvas && this.codecs == codecs
    {
      this.canvas, this.codecs := canvas, codecs;
    }

    /** Fills a rectangle as far as the canvas goes. */
    method Fill(x: nat, y: nat, w: nat, h: nat)
      requires Valid()
      modifies canvas.data
      ensures Valid() && Drawn(old(canvas.data[..]), canvas.data[..], Page(), Box(x, y, w, h))
    {
      ghost var before := canvas.data[..];
      canvas.FillRect(x, y, w, h);
      RectDrawn(before, canvas.data[..], Page(), x, y, w, h);
    }

    method DrawDot(x: nat, y: nat, scale: nat, bold: bool)
      requires Valid()
      modifies canvas.data
      ensures Valid() && Drawn(old(canvas.data[..]), canvas.data[..], Page(), Dot(x, y, scale, bold))
    {
      hide Drawn, MonoCanvas.Valid, Box, Either, Nothing;
      ghost var before := canvas.data[..];
      Fill(x, y, scale, scale);
      ghost var now := canvas.data[..];
      if bold {
        Fill(x + scale, y, 1, scale);
      } else {
        NothingDrawn(now, Page());
      }
      DrawnBoth(before, now, canvas.data[..], Page(), Box(x, y, scale, scale), if bold then Box(x + scale, y, 1, scale) else Nothing());
    }

    method DrawGlyphRow(bits: byte, x: nat, y: nat, scale: nat, bold: bool)
      requires Valid()
      modifies canvas.data
      ensures Valid() && Drawn(old(canvas.data[..]), canvas.data[..], Page(), Any(GlyphRow(bits, x, y, scale, bold), 8))
    {
      hide Drawn, MonoCanvas.Valid, Any, Dot, Nothing;
      ghost var before, part := canvas.data[..], GlyphRow(bits, x, y, scale, bold);
      PartsStart(before, Page(), part);
      for column := 0 to 8
        invariant Valid() && Drawn(before, canvas.data[..], Page(), Any(part, column))
      {
        ghost var now := canvas.data[..];
        if LowBit(bits as nat, column) {
          DrawDot(x + column * scale, y, scale, bold);
        } else {
          NothingDrawn(now, Page());
        }
        PartsNext(before, now, canvas.data[..], Page(), part, column);
      }
    }

    /** Fills a square for every set bit of the glyph, and its bold edge. */
    method DrawGlyph(glyph: Glyph, x: nat, p: Placement)
      requires Valid()
      modifies canvas.data
      ensures Valid()
      ensures Drawn(old(canvas.data[..]), canvas.data[..], Page(), Any(GlyphRows(glyph, x, p.y, p.scale, p.bold), 8))
    {
      hide Drawn, MonoCanvas.Valid, Any, GlyphRow;
      ghost var before, part := canvas.data[..], GlyphRows(glyph, x, p.y, p.scale, p.bold);
      PartsStart(before, Page(), part);
      for row := 0 to 8
        invariant Valid() && Drawn(before, canvas.data[..], Page(), Any(part, row))
      {
        ghost var now := canvas.data[..];
        DrawGlyphRow(glyph[row], x, p.y + row * p.scale, p.scale, p.bold);
        PartsNext(before, now, canvas.data[..], Page(), part, row);
      }
    }

    /** Draws one line of text; a character without a glyph is drawn as a question mark. */
    method DrawText(value: Ascii, p: Placement)
      requires Valid()
      modifies canvas.data
      ensures Valid() && Drawn(old(canvas.data[..]), canvas.data[..], Page(), LineInk(value, p, codecs))
    {
      hide Drawn, MonoCanvas.Valid, Any, GlyphRows, Nothing;
      var x := LineStart(|value|, p);
      ghost var before, part := canvas.data[..], Characters(value, p, codecs);
      PartsStart(before, Page(), part);
      for k := 0 to |value|
        invariant Valid() && Drawn(before, canvas.data[..], Page(), Any(part, k))
        invariant x == LineStart(|value|, p) + k * (8 * p.scale)
      {
        ghost var now := canvas.data[..];
        var glyph := GlyphOf(value[k], codecs);
        if glyph.Some? {
          DrawGlyph(glyph.value, x, p);
        } else {
          NothingDrawn(now, Page());
        }
        PartsNext(before, now, canvas.data[..], Page(), part, k);
        OneMoreTimes(k, 8 * p.scale);
        x := x + 8 * p.scale;
      }
    }

    method DrawModuleRow(content: seq<byte>, modules: nat, row: nat, dot: nat, x: nat, y: nat)
      requires Valid()
      modifies canvas.data
      ensures Valid()
      ensures Drawn(old(canvas.data[..]), canvas.data[..], Page(), Any(ModuleRow(content, row, x, y, dot, codecs), modules))
    {
      hide Drawn, MonoCanvas.Valid, Any, Box, Nothing;
      ghost var before, part := canvas.data[..], ModuleRow(content, row, x, y, dot, codecs);
      PartsStart(before, Page(), part);
      for column := 0 to modules
        invariant Valid() && Drawn(before, canvas.data[..], Page(), Any(part, column))
      {
        ghost var now := canvas.data[..];
        if DarkModule(content, column, row, codecs) {
          Fill(x + 4 * dot + column * dot, y + 4 * dot + row * dot, dot, dot);
        } else {
          NothingDrawn(now, Page());
        }
        PartsNext(before, now, canvas.data[..], Page(), part, column);
      }
    }

    /** The dark modules inside a quiet zone four modules wide. */
    method DrawQr(content: seq<byte>, modules: nat, dot: nat, x: nat, y: nat)
      requires Valid()
      modifies canvas.data
      ensures Valid()
      ensures Drawn(old(canvas.data[..]), canvas.data[..], Page(), Any(ModuleRows(content, modules, x, y, dot, codecs), modules))
    {
      hide Drawn, MonoCanvas.Valid, Any, ModuleRow;
      ghost var before, part := canvas.data[..], ModuleRows(content, modules, x, y, dot, codecs);
      PartsStart(before, Page(), part);
      for row := 0 to modules
        invariant Valid() && Drawn(before, canvas.data[..], Page(), Any(part, row))
      {
        ghost var now := canvas.data[..];
        DrawModuleRow(content, modules, row, dot, x, y);
        PartsNext(before, now, canvas.data[..], Page(), part, row);
      }
    }

    method DrawBars(bars: Bars, moduleScale: nat, height: nat, x: nat, y: nat)
      requires Valid()
      modifies canvas.data
      ensures Valid() && Drawn(old(canvas.data[..]), canvas.data[..], Page(), Any(DarkBars(bars, x, y, moduleScale, height), |bars|))
    {
      hide Drawn, MonoCanvas.Valid, Any, Box, Nothing;
      ghost var before, part := canvas.data[..], DarkBars(bars, x, y, moduleScale, height);
      PartsStart(before, Page(), part);
      for index := 0 to |bars|
        invariant Valid() && Drawn(before, canvas.data[..], Page(), Any(part, index))
      {
        ghost var now := canvas.data[..];
        if bars[index] {
          Fill(x + index * moduleScale, y, moduleScale, height);
        } else {
          NothingDrawn(now, Page());
        }
        PartsNext(before, now, canvas.data[..], Page(), part, index);
      }
    }

    // ---------- Elements ----------

    function On(receiptWidth: nat): Geometry {
      Geometry(canvas.dpi, receiptWidth, canvas.height)
    }

    method RenderText(value: Ascii, alignment: Alignment, bold: bool, left: nat, y: nat, width: nat) returns (next: nat)
      requires Valid()
      modifies canvas.data
      ensures Valid()
      ensures var lines := Wrapped(value, MaxChars(width, canvas.dpi));
        && next == y + Lines(|lines|, canvas.dpi)
        && Drawn(old(canvas.data[..]), canvas.data[..], Page(),
             Any(TextLines(lines, alignment, bold, left, y, width, canvas.dpi, codecs), |lines|))
    {
      hide Drawn, MonoCanvas.Valid, Lines, LineHeight, GlyphScale, MaxChars, Any, LineInk, Wrapped;
      var lines := WrapText(value, MaxChars(width, canvas.dpi));
      ghost var before, part := canvas.data[..], TextLines(lines, alignment, bold, left, y, width, canvas.dpi, codecs);
      PartsStart(before, Page(), part);
      NoLines(canvas.dpi);
      next := y;
      for k := 0 to |lines|
        invariant next == y + Lines(k, canvas.dpi)
        invariant Valid() && Drawn(before, canvas.data[..], Page(), Any(part, k))
      {
        NextLine(k, |lines|, canvas.dpi);
        ghost var now := canvas.data[..];
        DrawText(lines[k], Placement(alignment, bold, left, next, width, GlyphScale(canvas.dpi)));
        PartsNext(before, now, canvas.data[..], Page(), part, k);
        next := next + LineHeight(canvas.dpi);
      }
    }

    /** One line of a column, if the column has that many. */
    method RenderCell(lines: seq<Ascii>, k: nat, alignment: Alignment, left: nat, y: nat, line: nat, width: nat)
      requires Valid() && line == y + Lines(k, canvas.dpi)
      modifies canvas.data
      ensures Valid()
      ensures Drawn(old(canvas.data[..]), canvas.data[..], Page(),
        TextLines(lines, alignment, false, left, y, width, canvas.dpi, codecs)(k))
    {
      hide Drawn, MonoCanvas.Valid, Lines, GlyphScale, LineInk, Nothing;
      if k < |lines| {
        DrawText(lines[k], Placement(alignment, false, left, line, width, GlyphScale(canvas.dpi)));
      } else {
        NothingDrawn(canvas.data[..], Page());
      }
    }

    /** Both cells, line by line. */
    method RenderRow(first: Ascii, right: Ascii, left: nat, y: nat, width: nat) returns (next: nat)
      requires Valid()
      modifies canvas.data
      ensures Valid()
      ensures var maxChars := MaxChars(width, canvas.dpi);
        var lefts, rights := Wrapped(first, LeftChars(maxChars)), Wrapped(right, RightChars(maxChars));
        && next == y + Lines(AtLeast(|lefts|, |rights|), canvas.dpi)
        && Drawn(old(canvas.data[..]), canvas.data[..], Page(),
             Any(RowLines(lefts, rights, left, y, width, canvas.dpi, codecs), AtLeast(|lefts|, |rights|)))
    {
      hide Drawn, MonoCanvas.Valid, Lines, LineHeight, GlyphScale, MaxChars, LeftChars, RightChars, Wrapped, Any, TextLines, Either;
      var lefts := WrapText(first, LeftChars(MaxChars(width, canvas.dpi)));
      var rights := WrapText(right, RightChars(MaxChars(width, canvas.dpi)));
      var lines := AtLeast(|lefts|, |rights|);
      ghost var before, part := canvas.data[..], RowLines(lefts, rights, left, y, width, canvas.dpi, codecs);
      PartsStart(before, Page(), part);
      NoLines(canvas.dpi);
      next := y;
      for index := 0 to lines
        invariant next == y + Lines(index, canvas.dpi)
        invariant Valid() && Drawn(before, canvas.data[..], Page(), Any(part, index))
      {
        NextLine(index, lines, canvas.dpi);
        ghost var now := canvas.data[..];
        RenderCell(lefts, index, Left, left, y, next, width);
        ghost var half := canvas.data[..];
        RenderCell(rights, index, Right, left, y, next, width);
        DrawnBoth(now, half, canvas.data[..], Page(), TextLines(lefts, Left, false, left, y, width, canvas.dpi, codecs)(index),
          TextLines(rights, Right, false, left, y, width, canvas.dpi, codecs)(index));
        PartsNext(before, now, canvas.data[..], Page(), part, index);
        next := next + LineHeight(canvas.dpi);
      }
    }

    method RenderImage(image: ReceiptImage, left: nat, y: nat, width: nat) returns (next: nat)
      requires Valid() && left + width <= canvas.width
      modifies canvas.data
      ensures Valid()
      ensures var (tw, th) := TargetSize(image, On(width), y);
        next == y + th + 2 * GlyphScale(canvas.dpi) && Drawn(old(canvas.data[..]), canvas.data[..], Page(), Samples(image, left, y, tw, th))
    {
      hide Drawn, MonoCanvas.Valid, FitDimensions, Samples, Sampled, Painted;
      var w, h := AtLeast(ScaledDots(image.width, canvas.dpi, image.dpi), 1), AtLeast(ScaledDots(image.height, canvas.dpi, image.dpi), 1);
      var room := Min(MAX_RECEIPT_IMAGE_HEIGHT, Less(canvas.height, y));
      var (tw, th) := FitDimensions(w, h, width, room);
      FitStaysInside(w, h, width, room);
      next := y + th + 2 * GlyphScale(canvas.dpi);
      ghost var before := canvas.data[..];
      canvas.BlitReceiptImage(image, left, y, tw, th);
      SamplesDrawn(before, canvas.data[..], Page(), image, left, y, tw, th);
    }

    method RenderQr(content: seq<byte>, left: nat, y: nat, width: nat) returns (r: Result<nat, ReceiptError>)
      requires Valid()
      modifies canvas.data
      ensures Valid()
      ensures match Advance(Qr(content), On(width), codecs, y)
        case Err(error) => r == Err(error)
        case Ok(rows) =>
          r == Ok(y + rows) && Drawn(old(canvas.data[..]), canvas.data[..], Page(), ElementInk(Qr(content), left, On(width), y, codecs))
    {
      hide Drawn, MonoCanvas.Valid, Any, ModuleRows, GlyphScale;
      match codecs.modules(content) {
        case None => return Err(InvalidImage);
        case Some(modules) =>
          var dot := QrDot(modules, On(width));
          var codeWidth := (modules + 8) * dot;
          DrawQr(content, modules, dot, left + Less(width, codeWidth) / 2, y);
          return Ok(y + codeWidth + 2 * GlyphScale(canvas.dpi));
      }
    }

    method RenderBarcode(format: BarcodeFormat, code: Ascii, heightDots: byte, humanReadable: bool, left: nat, y: nat, width: nat)
      returns (r: Result<nat, ReceiptError>)
      requires Valid()
      modifies canvas.data
      ensures Valid()
      ensures match Advance(Barcode(format, code, heightDots, humanReadable), On(width), codecs, y)
        case Err(error) => r == Err(error)
        case Ok(rows) =>
          r == Ok(y + rows)
          && Drawn(old(canvas.data[..]), canvas.data[..], Page(),
               ElementInk(Barcode(format, code, heightDots, humanReadable), left, On(width), y, codecs))
    {
      hide Drawn, MonoCanvas.Valid, Any, DarkBars, LineInk, Either, Nothing, GlyphScale, LineHeight;
      match codecs.bars(format, code) {
        case None => return Err(BarcodeRender);
        case Some(bars) =>
          var available := BarsAvailable(On(width));
          if |bars| > available {
            return Err(BarcodeRender);
          }
          var scale := GlyphScale(canvas.dpi);
          var moduleScale := ModuleScale(bars, On(width));
          var height := BarHeight(heightDots, canvas.dpi);
          var x := left + Less(width, |bars| * moduleScale) / 2;
          var text := y + height + 2 * scale;
          var next := text + (if humanReadable then LineHeight(canvas.dpi) else 0);
          ghost var before := canvas.data[..];
          DrawBars(bars, moduleScale, height, x, y);
          ghost var now := canvas.data[..];
          if humanReadable {
            DrawText(code, Placement(Center, false, left, text, width, Min(2, scale)));
          } else {
            NothingDrawn(now, Page());
          }
          DrawnBoth(before, now, canvas.data[..], Page(), Any(DarkBars(bars, x, y, moduleScale, height), |bars|),
            if humanReadable then LineInk(code, Placement(Center, false, left, text, width, Min(2, scale)), codecs) else Nothing());
          return Ok(next);
      }
    }

    /** Draws one element from row `y` and answers the row after it. */
    method RenderElement(e: Element, left: nat, y: nat, width: nat) returns (r: Result<nat, ReceiptError>)
      requires Valid() && left + width <= canvas.width
      modifies canvas.data
      ensures Valid()
      ensures match Advance(e, On(width), codecs, y)
        case Err(error) => r == Err(error)
        case Ok(rows) => r == Ok(y + rows) && Drawn(old(canvas.data[..]), canvas.data[..], Page(), ElementInk(e, left, On(width), y, codecs))
    {
      hide Drawn, MonoCanvas.Valid, Wrapped, FitDimensions, LineHeight, GlyphScale, TargetSize, MaxChars, Any, Samples, Nothing, Box;
      hide TextLines, RowLines, QrInk, BarcodeInk;
      match e {
        case Text(value, alignment, bold) =>
          var next := RenderText(value, alignment, bold, left, y, width);
          return Ok(next);
        case Row(first, right) =>
          var next := RenderRow(first, right, left, y, width);
          return Ok(next);
        case Divider =>
          Fill(left, y + LineHeight(canvas.dpi) / 2, width, AtLeast(canvas.dpi / 150, 1));
          return Ok(y + LineHeight(canvas.dpi));
        case Image(image) =>
          var next := RenderImage(image, left, y, width);
          return Ok(next);
        case Qr(content) =>
          r := RenderQr(content, left, y, width);
        case Barcode(format, code, heightDots, humanReadable) =>
          r := RenderBarcode(format, code, heightDots, humanReadable, left, y, width);
        case Feed(lines) =>
          NothingDrawn(canvas.data[..], Page());
          return Ok(y + Lines(lines as nat, canvas.dpi));
        case Cut =>
          NothingDrawn(canvas.data[..], Page());
          return Ok(y);
      }
    }

    /** Draws the elements below each other; on success exactly their pixels are black beside what was. */
    method RenderElements(elements: seq<Element>, left: nat, top: nat, width: nat) returns (r: Result<nat, ReceiptError>)
      requires Valid() && left + width <= canvas.width
      modifies canvas.data
      ensures Valid() && r == FinalY(elements, On(width), codecs, top)
      ensures r.Ok? ==>
        top <= r.value && Drawn(old(canvas.data[..]), canvas.data[..], Page(), LayoutInk(elements, left, On(width), top, codecs))
    {
      hide Drawn, MonoCanvas.Valid, Advance, ElementInk, LayoutInk, Either, Nothing;
      var y := top;
      ghost var before, done, g := canvas.data[..], Nothing(), On(width);
      NothingDrawn(before, Page());
      InkStart(elements, left, g, y, codecs);
      for k := 0 to |elements|
        invariant Valid() && top <= y
        invariant Drawn(before, canvas.data[..], Page(), done)
        invariant Same(Either(done, LayoutInk(elements[k..], left, g, y, codecs)), LayoutInk(elements, left, g, top, codecs))
        invariant FinalY(elements[k..], g, codecs, y) == FinalY(elements, g, codecs, top)
      {
        assert elements[k..][0] == elements[k] && elements[k..][1..] == elements[k + 1..];
        ghost var now := canvas.data[..];
        var next := RenderElement(elements[k], left, y, width);
        if next.Err? {
          return next;
        }
        DrawnBoth(before, now, canvas.data[..], Page(), done, ElementInk(elements[k], left, g, y, codecs));
        InkNext(elements[k..], left, g, y, codecs, done, LayoutInk(elements, left, g, top, codecs));
        done := Either(done, ElementInk(elements[k], left, g, y, codecs));
        y := next.value;
        if y > canvas.height {
          return Err(PageOverflow);
        }
      }
      InkEnd(left, g, y, codecs, done, LayoutInk(elements, left, g, top, codecs));
      assert elements[|elements|..] == [];
      DrawnSame(before, canvas.data[..], Page(), done, LayoutInk(elements, left, g, top, codecs));
      return Ok(y);
    }
  }

  lemma InkStart(elements: seq<Element>, left: nat, g: Geometry, y: nat, codecs: Codecs)
    ensures elements[0..] == elements
    ensures Same(Either(Nothing(), LayoutInk(elements, left, g, y, codecs)), LayoutInk(elements, left, g, y, codecs))
  {
    hide LayoutInk;
  }

  lemma InkNext(elements: seq<Element>, left: nat, g: Geometry, y: nat, codecs: Codecs, done: Region, all: Region)
    requires elements != [] && Advance(elements[0], g, codecs, y).Ok?
    requires Same(Either(done, LayoutInk(elements, left, g, y, codecs)), all)
    ensures var rest := LayoutInk(elements[1..], left, g, y + Advance(elements[0], g, codecs, y).value, codecs);
      Same(Either(Either(done, ElementInk(elements[0], left, g, y, codecs)), rest), all)
  {
    hide Advance, ElementInk;
    var rest := LayoutInk(elements[1..], left, g, y + Advance(elements[0], g, codecs, y).value, codecs);
    assert LayoutInk(elements, left, g, y, codecs) == Either(ElementInk(elements[0], left, g, y, codecs), rest);
    hide LayoutInk;
  }

  lemma InkEnd(left: nat, g: Geometry, y: nat, codecs: Codecs, done: Region, all: Region)
    requires Same(Either(done, LayoutInk([], left, g, y, codecs)), all)
    ensures Same(done, all)
  {
  }

  method EstimateLayoutHeight(layout: PrintLayout, dpi: nat, codecs: Codecs) returns (r: Result<nat, ReceiptError>)
    ensures r == EstimatedHeight(layout, dpi, codecs)
  {
    hide Estimated;
    var width := ReceiptPixelWidth(layout.width, dpi);
    var height: nat := 4 * GlyphScale(dpi);
    for k := 0 to |layout.elements|
      invariant height >= 4
      invariant EstimatedFrom(layout.elements[k..], width, dpi, codecs, height) == EstimatedHeight(layout, dpi, codecs)
    {
      assert layout.elements[k..][0] == layout.elements[k] && layout.elements[k..][1..] == layout.elements[k + 1..];
      var rows := Estimated(layout.elements[k], width, dpi, codecs);
      if rows.Err? {
        return rows;
      }
      height := height + rows.value;
    }
    return Ok(AtLeast(height, 1));
  }

  lemma FactorsAtMost(a: nat, b: nat, n: nat)
    requires a >= 1 && b >= 1 && a * b <= n
    ensures a <= n && b <= n
  {
    MulMonotone(1, b, a);
    MulMonotone(1, a, b);
  }

  /**
   The receipt preview. Its outcome and size are as `PreviewSize` says. On success the page is valid and its
   black pixels are exactly those of the layout: cropping the estimated canvas to the drawn height lost none.
   */
  method RenderLayoutReceipt(layout: PrintLayout, dpi: nat, codecs: Codecs) returns (r: Result<RasterPage, ReceiptError>)
    ensures match PreviewSize(layout, dpi, codecs)
      case Err(error) => r == Err(error)
      case Ok(size) =>
        r.Ok? && (r.value.width, r.value.height) == size && r.value.format == Mono1 && Validate(r.value).Ok?
        && r.value.dpiX == r.value.dpiY == dpi
    ensures r.Ok? ==> EstimatedHeight(layout, dpi, codecs).Ok? && forall x: nat, y: nat ::
      PagePixel(r.value, x, y)
      <==> x < r.value.width && LayoutInk(layout.elements, 0, PreviewGeometry(layout, dpi, codecs), 0, codecs)(x, y)
  {
    hide FinalY, EstimatedHeight, LayoutInk, ElementInk, Drawn, Within, Black, PagePixel, Validate, Stride, PaddingClear, GlyphScale;
    if !(72 <= dpi <= 600) {
      return Err(InvalidPageOptions);
    }
    var width := ReceiptPixelWidth(layout.width, dpi);
    WidthIsPositive(layout.width, dpi);
    EstimateIsPositive(layout, dpi, codecs);
    var estimate := EstimateLayoutHeight(layout, dpi, codecs);
    if estimate.Err? {
      return Err(estimate.error);
    }
    var height := estimate.value;
    hide ReceiptPixelWidth;
    if width * height > MAX_PAGE_PIXELS {
      return Err(OutputTooLarge);
    }
    FactorsAtMost(width, height, MAX_PAGE_PIXELS);
    var canvas := new MonoCanvas(width, height, dpi);
    var preview := new Preview(canvas, codecs);
    ghost var white := canvas.data[..];
    var end := preview.RenderElements(layout.elements, 0, 0, width);
    if end.Err? {
      return Err(end.error);
    }
    var page := RasterPage(width, height, dpi, dpi, Mono1, canvas.data[..]);
    CanvasIsPage(page);
    var content := Min(AtLeast(end.value, 1), height);
    var cropped := CropPageHeight(page, content);
    ghost var g := Geometry(dpi, width, height);
    LayoutWithin(layout.elements, 0, g, 0, codecs);
    EndsOnCanvas(layout.elements, g, codecs);
    InkIsCropped(white, canvas.data[..], page, content, end.value, LayoutInk(layout.elements, 0, g, 0, codecs));
    r := Ok(cropped.value);
  }

  /** The canvas the estimate provides. */
  function PreviewGeometry(layout: PrintLayout, dpi: nat, codecs: Codecs): Geometry
    requires EstimatedHeight(layout, dpi, codecs).Ok?
  {
    Geometry(dpi, ReceiptPixelWidth(layout.width, dpi), EstimatedHeight(layout, dpi, codecs).value)
  }

  lemma CanvasIsPage(page: RasterPage)
    requires page.format == Mono1 && |page.data| == Stride(page.width) * page.height
    requires page.width >= 1 && page.height >= 1 && page.dpiX >= 1 && page.dpiY >= 1 && page.width <= U32_MAX
    ensures Validate(page).Ok?
  {
  }

  lemma EndsOnCanvas(elements: seq<Element>, g: Geometry, codecs: Codecs)
    requires FinalY(elements, g, codecs, 0).Ok?
    ensures FinalY(elements, g, codecs, 0).value <= g.canvasHeight
  {
    hide Advance;
  }

  lemma InkIsCropped(white: seq<byte>, drawn: seq<byte>, page: RasterPage, content: nat, end: nat, ink: Region)
    requires Drawn(white, drawn, Sheet(Stride(page.width), page.width, page.height), ink) && Within(ink, 0, end)
    requires page.data == drawn && page.format == Mono1 && forall u: nat, v: nat :: !Black(white, Stride(page.width), u, v)
    requires end <= content <= page.height
    ensures forall x: nat, y: nat :: PagePixel(page, x, y) && y < content <==> x < page.width && ink(x, y)
  {
    hide Black;
    assert page.width <= 8 * Stride(page.width);
  }
}
