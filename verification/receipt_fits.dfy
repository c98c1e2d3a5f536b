/** When a receipt preview fits the canvas its estimate reserves. */
module ReceiptFits {
  import opened Bytes
  import opened Results
  import opened Layout
  import opened Wrapping
  import opened Rows
  import opened Raster
  import opened ReceiptMeasures

  // ---------- When the preview fits ----------

  /** The columns of a receipt at a resolution. */
  function ReceiptColumns(width: ReceiptWidth, dpi: nat): nat { MaxChars(ReceiptPixelWidth(width, dpi), dpi) }

  /**
   Four glyph scales of rows are left over, so a preview never overflows when the columns are not a multiple
   of five and no more images and barcodes than that vanish, in any mix with anything else.
   */
  lemma PreviewNeverOverflows(layout: PrintLayout, dpi: nat, codecs: Codecs)
    requires ReceiptColumns(layout.width, dpi) % 5 != 0 && Unmeasurable(layout.elements, dpi) <= 4 * GlyphScale(dpi)
    ensures PreviewSize(layout, dpi, codecs) != Err(PageOverflow)
  {
    var width := ReceiptPixelWidth(layout.width, dpi);
    EstimateErrors(layout.elements, width, dpi, codecs, 4 * GlyphScale(dpi));
    hide FinalY, EstimatedFrom, Unmeasurable, MaxChars, ReceiptPixelWidth, GlyphScale;
    if 72 <= dpi <= 600 && EstimatedHeight(layout, dpi, codecs).Ok? {
      EstimateIsPositive(layout, dpi, codecs);
      var height := EstimatedHeight(layout, dpi, codecs).value;
      NeverPastTheCanvas(layout.elements, Geometry(dpi, width, height), codecs, 0, 4 * GlyphScale(dpi));
    }
  }

  lemma EstimateErrors(elements: seq<Element>, width: nat, dpi: nat, codecs: Codecs, height: nat)
    ensures EstimatedFrom(elements, width, dpi, codecs, height) != Err(PageOverflow)
    decreases |elements|
  {
  }

  /** At 203 DPI: 639 dots and 39 columns on 80 mm, 464 dots and 29 columns on 58 mm. */
  lemma ColumnsAt203()
    ensures ReceiptPixelWidth(Mm80, 203) == 639 && ReceiptColumns(Mm80, 203) == 39
    ensures ReceiptPixelWidth(Mm58, 203) == 464 && ReceiptColumns(Mm58, 203) == 29
  {
  }

  /** At the printers' own resolution up to eight elements may vanish. */
  lemma PreviewAt203NeverOverflows(layout: PrintLayout, codecs: Codecs)
    requires Unmeasurable(layout.elements, 203) <= 8
    ensures PreviewSize(layout, 203, codecs) != Err(PageOverflow)
  {
    ColumnsAt203();
    assert layout.width == Mm58 || layout.width == Mm80;
    assert GlyphScale(203) == 2;
    hide ReceiptColumns, PreviewSize, Unmeasurable;
    PreviewNeverOverflows(layout, 203, codecs);
  }

  /** There only barcodes of height zero vanish, and of the images in that resolution only the empty ones. */
  lemma VanishingAt203(e: Element)
    ensures e.Barcode? ==> (Measurable(e, 203) <==> e.heightDots >= 1)
    ensures e.Image? && e.image.dpi == 203 ==> (Measurable(e, 203) <==> e.image.height >= 1)
  {
    if e.Image? {
      SameResolution(e.image.height);
    }
  }

  lemma SameResolution(height: nat)
    ensures ScaledDots(height, 203, 203) >= 1 <==> height >= 1
  {
  }

  // ---------- When it does not ----------

  lemma InkAtMost(line: Ascii)
    ensures |Ink(line)| <= |line|
    ensures (forall i :: 0 <= i < |line| ==> !IsWhitespace(line[i])) ==> Ink(line) == line
  {
  }

  lemma {:induction false} InkFits(lines: seq<Ascii>, width: nat)
    requires forall i :: 0 <= i < |lines| ==> |lines[i]| <= width
    ensures |InkOf(lines)| <= |lines| * width
  {
    if lines != [] {
      InkAtMost(lines[0]);
      InkFits(lines[1..], width);
      assert |lines| * width == width + (|lines| - 1) * width;
    }
  }

  /** A word wider than a line takes at least two. */
  lemma WideWordWraps(word: Ascii, width: nat)
    requires 1 <= width < |word| && forall i :: 0 <= i < |word| ==> !IsWhitespace(word[i])
    ensures |Wrapped(word, width)| >= 2
  {
    var lines := Wrapped(word, width);
    hide Wrapped;
    WrappingConservesInk(word, width);
    InkAtMost(word);
    forall k | 0 <= k < |lines| ensures |lines[k]| <= width {
      WrappedLinesFitAndAreStable(word, width, k);
    }
    InkFits(lines, width);
    MulMonotone(|lines|, 1, width);
  }

  const LETTER: byte := 65

  /** A row whose right cell is one word exactly as wide as the estimate's right column. */
  function WideRow(width: ReceiptWidth, dpi: nat): Element {
    Row([], Repeat(LETTER, EstimatedRightChars(ReceiptColumns(width, dpi))))
  }

  lemma WideRowLines(columns: nat)
    requires columns >= 5 && columns % 5 == 0
    ensures var right := Repeat(LETTER, EstimatedRightChars(columns));
      && |Wrapped([], LeftChars(columns))| == 1
      && |Wrapped(right, EstimatedRightChars(columns))| == 1 && |Wrapped(right, RightChars(columns))| >= 2
  {
    var right := Repeat(LETTER, EstimatedRightChars(columns));
    RightCharsAgree(columns);
    EmittedIsStable([], LeftChars(columns));
    EmittedIsStable(right, EstimatedRightChars(columns));
    hide Wrapped;
    WideWordWraps(right, RightChars(columns));
  }

  lemma PixelsAreFew(width: ReceiptWidth, dpi: nat, height: nat)
    requires 72 <= dpi <= 600 && height == 13 * GlyphScale(dpi)
    ensures ReceiptPixelWidth(width, dpi) * height <= MAX_PAGE_PIXELS
  {
    var w := ReceiptPixelWidth(width, dpi);
    assert w <= 1890 && height <= 78;
    MulMonotone(w, 1890, height);
    MulMonotone(height, 78, 1890);
  }

  lemma RowRows(left: Ascii, right: Ascii, g: Geometry, codecs: Codecs, y: nat, drawn: nat, reserved: nat)
    requires var m := MaxChars(g.receiptWidth, g.dpi);
      && drawn == AtLeast(|Wrapped(left, LeftChars(m))|, |Wrapped(right, RightChars(m))|)
      && reserved == AtLeast(AtLeast(|Wrapped(left, LeftChars(m))|, |Wrapped(right, EstimatedRightChars(m))|), 1)
    ensures Advance(Row(left, right), g, codecs, y) == Ok(drawn * LineHeight(g.dpi))
    ensures Estimated(Row(left, right), g.receiptWidth, g.dpi, codecs) == Ok(reserved * LineHeight(g.dpi))
  {
    hide Wrapped, LineHeight, GlyphScale, MaxChars, LeftChars, RightChars, EstimatedRightChars;
  }

  lemma WideRowMeasures(width: ReceiptWidth, dpi: nat, codecs: Codecs, canvasHeight: nat)
    requires ReceiptColumns(width, dpi) % 5 == 0
    ensures var e, w := WideRow(width, dpi), ReceiptPixelWidth(width, dpi);
      && Estimated(e, w, dpi, codecs) == Ok(LineHeight(dpi))
      && Advance(e, Geometry(dpi, w, canvasHeight), codecs, 0).Ok?
      && Advance(e, Geometry(dpi, w, canvasHeight), codecs, 0).value >= 2 * LineHeight(dpi)
  {
    var e, w, columns := WideRow(width, dpi), ReceiptPixelWidth(width, dpi), ReceiptColumns(width, dpi);
    WideRowLines(columns);
    hide Wrapped, GlyphScale, ReceiptPixelWidth, LineHeight, EstimatedRightChars, RightChars, LeftChars, MaxChars;
    hide Advance, Estimated;
    var drawn := AtLeast(|Wrapped(e.left, LeftChars(columns))|, |Wrapped(e.right, RightChars(columns))|);
    RowRows(e.left, e.right, Geometry(dpi, w, canvasHeight), codecs, 0, drawn, 1);
    MulMonotone(2, drawn, LineHeight(dpi));
  }

  lemma OneElement(e: Element, g: Geometry, codecs: Codecs, height: nat)
    requires Advance(e, g, codecs, 0).Ok? && Estimated(e, g.receiptWidth, g.dpi, codecs).Ok?
    ensures EstimatedFrom([e], g.receiptWidth, g.dpi, codecs, height)
         == Ok(height + Estimated(e, g.receiptWidth, g.dpi, codecs).value)
    ensures Advance(e, g, codecs, 0).value > g.canvasHeight ==> FinalY([e], g, codecs, 0) == Err(PageOverflow)
  {
    hide Advance, Estimated;
    assert [e][1..] == [];
  }

  lemma OneLineReserved(dpi: nat, height: nat)
    requires height == 13 * GlyphScale(dpi)
    ensures 4 * GlyphScale(dpi) + LineHeight(dpi) == height < 2 * LineHeight(dpi)
  {
  }

  /** At a multiple of five columns that one row overflows its preview. */
  lemma WideRowOverflows(width: ReceiptWidth, dpi: nat, codecs: Codecs)
    requires 72 <= dpi <= 600 && ReceiptColumns(width, dpi) % 5 == 0
    ensures PreviewSize(PrintLayout(width, [WideRow(width, dpi)]), dpi, codecs) == Err(PageOverflow)
  {
    hide *;
    var e, w := WideRow(width, dpi), ReceiptPixelWidth(width, dpi);
    var height := 13 * GlyphScale(dpi);
    OneLineReserved(dpi, height);
    PixelsAreFew(width, dpi, height);
    WideRowMeasures(width, dpi, codecs, height);
    OneElement(e, Geometry(dpi, w, height), codecs, 4 * GlyphScale(dpi));
    EstimateOfOne(width, e, dpi, codecs);
    OverflowingPreview(PrintLayout(width, [e]), dpi, codecs, height);
  }

  lemma EstimateOfOne(width: ReceiptWidth, e: Element, dpi: nat, codecs: Codecs)
    ensures EstimatedHeight(PrintLayout(width, [e]), dpi, codecs)
         == EstimatedFrom([e], ReceiptPixelWidth(width, dpi), dpi, codecs, 4 * GlyphScale(dpi))
  {
    hide EstimatedFrom, ReceiptPixelWidth, GlyphScale;
  }

  lemma OverflowingPreview(layout: PrintLayout, dpi: nat, codecs: Codecs, height: nat)
    requires 72 <= dpi <= 600 && EstimatedHeight(layout, dpi, codecs) == Ok(height)
    requires ReceiptPixelWidth(layout.width, dpi) * height <= MAX_PAGE_PIXELS
    requires FinalY(layout.elements, Geometry(dpi, ReceiptPixelWidth(layout.width, dpi), height), codecs, 0) == Err(PageOverflow)
    ensures PreviewSize(layout, dpi, codecs) == Err(PageOverflow)
  {
    hide EstimatedHeight, ReceiptPixelWidth, FinalY;
  }

  /** Such resolutions exist. */
  lemma ColumnsAt102()
    ensures ReceiptColumns(Mm80, 102) == 40
  {
  }

  // ---------- One row too many ----------

  /** An element that takes a row more than was reserved for it, or else the last of the canvas. */
  ghost predicate Flat(e: Element, g: Geometry, codecs: Codecs, rows: nat) {
    && Estimated(e, g.receiptWidth, g.dpi, codecs) == Ok(rows)
    && forall y: nat :: y <= g.canvasHeight ==>
         && Advance(e, g, codecs, y).Ok?
         && (Advance(e, g, codecs, y).value > rows || y + Advance(e, g, codecs, y).value > g.canvasHeight)
  }

  function Copies(n: nat, e: Element): seq<Element> { if n == 0 then [] else [e] + Copies(n - 1, e) }

  lemma {:induction false} CopiesReserve(n: nat, e: Element, width: nat, dpi: nat, codecs: Codecs, rows: nat, height: nat)
    requires Estimated(e, width, dpi, codecs) == Ok(rows)
    ensures EstimatedFrom(Copies(n, e), width, dpi, codecs, height) == Ok(height + n * rows)
    ensures Unmeasurable(Copies(n, e), dpi) <= n
  {
    hide Estimated, Measurable;
    if n > 0 {
      CopiesReserve(n - 1, e, width, dpi, codecs, rows, height + rows);
      OneMoreTimes(n - 1, rows);
      assert Copies(n, e)[1..] == Copies(n - 1, e);
    }
  }

  /** Once the copies need more rows than there are, drawing them runs past the canvas. */
  lemma {:induction false} CopiesOverflow(n: nat, e: Element, g: Geometry, codecs: Codecs, rows: nat, y: nat)
    requires Flat(e, g, codecs, rows) && y <= g.canvasHeight < y + n * (rows + 1)
    ensures FinalY(Copies(n, e), g, codecs, y) == Err(PageOverflow)
  {
    hide Advance, Estimated;
    assert n > 0;
    OneMoreTimes(n - 1, rows + 1);
    assert Copies(n, e)[1..] == Copies(n - 1, e);
    var advance := Advance(e, g, codecs, y).value;
    if y + advance <= g.canvasHeight {
      CopiesOverflow(n - 1, e, g, codecs, rows, y + advance);
    }
  }

  /** How many copies of an element make one more than the rows to spare, and the canvas they are given. */
  function TooMany(dpi: nat): nat { 4 * GlyphScale(dpi) + 1 }

  function CanvasFor(dpi: nat, rows: nat): nat { 4 * GlyphScale(dpi) + TooMany(dpi) * rows }

  lemma CanvasIsSmall(width: ReceiptWidth, dpi: nat)
    requires 72 <= dpi <= 600
    ensures ReceiptPixelWidth(width, dpi) * CanvasFor(dpi, 2 * GlyphScale(dpi)) <= MAX_PAGE_PIXELS
    ensures CanvasFor(dpi, 2 * GlyphScale(dpi)) < TooMany(dpi) * (2 * GlyphScale(dpi) + 1)
  {
    var s, w := GlyphScale(dpi), ReceiptPixelWidth(width, dpi);
    assert 1 <= s <= 6 && w <= 1890;
    var height := CanvasFor(dpi, 2 * s);
    hide GlyphScale, ReceiptPixelWidth;
    MulMonotone(TooMany(dpi), 25, 2 * s);
    assert height <= 324;
    MulMonotone(w, 1890, height);
    assert TooMany(dpi) * (2 * s + 1) == TooMany(dpi) * (2 * s) + TooMany(dpi);
  }

  /** One copy more of a flat element than there are rows to spare overflows the preview, whatever the columns. */
  lemma FlatCopiesOverflow(e: Element, width: ReceiptWidth, dpi: nat, codecs: Codecs)
    requires 72 <= dpi <= 600
    requires Flat(e, Geometry(dpi, ReceiptPixelWidth(width, dpi), CanvasFor(dpi, 2 * GlyphScale(dpi))), codecs, 2 * GlyphScale(dpi))
    ensures PreviewSize(PrintLayout(width, Copies(TooMany(dpi), e)), dpi, codecs) == Err(PageOverflow)
    ensures Unmeasurable(Copies(TooMany(dpi), e), dpi) <= TooMany(dpi)
  {
    var rows, w := 2 * GlyphScale(dpi), ReceiptPixelWidth(width, dpi);
    var g := Geometry(dpi, w, CanvasFor(dpi, rows));
    assert Estimated(e, w, dpi, codecs) == Ok(rows);
    hide Flat, Estimated, PreviewSize, FinalY, EstimatedFrom, Unmeasurable, Copies, ReceiptPixelWidth, GlyphScale;
    CanvasIsSmall(width, dpi);
    CopiesReserve(TooMany(dpi), e, w, dpi, codecs, rows, 4 * GlyphScale(dpi));
    CopiesOverflow(TooMany(dpi), e, g, codecs, rows, 0);
    OverflowingPreview(PrintLayout(width, Copies(TooMany(dpi), e)), dpi, codecs, g.canvasHeight);
  }

  /** One dot that the renderer takes for less than one dot, at any resolution it supports. */
  const SPECK: Element := Image(ReceiptImage(1, 1, 601, 1, [0]))

  lemma SpeckIsFlat(g: Geometry, codecs: Codecs)
    requires 72 <= g.dpi <= 600 && g.receiptWidth >= 1
    ensures Flat(SPECK, g, codecs, 2 * GlyphScale(g.dpi))
  {
    hide GlyphScale, MaxChars;
    assert ScaledDots(1, g.dpi, 601) == 0;
  }

  /** A barcode of no height without its text. */
  function FlatBarcode(format: BarcodeFormat, code: Ascii): Element { Barcode(format, code, 0, false) }

  /** The encoder takes the value and its bars fit the width. */
  predicate NarrowBarcode(format: BarcodeFormat, code: Ascii, width: ReceiptWidth, dpi: nat, codecs: Codecs) {
    codecs.bars(format, code).Some?
    && |codecs.bars(format, code).value| <= Less(ReceiptPixelWidth(width, dpi), 20)
  }

  lemma BarcodeIsFlat(format: BarcodeFormat, code: Ascii, width: ReceiptWidth, dpi: nat, codecs: Codecs, canvasHeight: nat)
    requires NarrowBarcode(format, code, width, dpi, codecs)
    ensures Flat(FlatBarcode(format, code), Geometry(dpi, ReceiptPixelWidth(width, dpi), canvasHeight), codecs, 2 * GlyphScale(dpi))
  {
    hide GlyphScale, MaxChars, ReceiptPixelWidth, LineHeight;
    assert ScaledTo203(0, dpi) == 0;
  }

  ghost predicate AlwaysFits(width: ReceiptWidth, dpi: nat, codecs: Codecs, k: nat, images: bool) {
    forall elements: seq<Element> :: Unmeasurable(elements, dpi) <= k && (images || NoImages(elements)) ==>
      PreviewSize(PrintLayout(width, elements), dpi, codecs) != Err(PageOverflow)
  }

  predicate NoImages(elements: seq<Element>) {
    forall i :: 0 <= i < |elements| ==> !elements[i].Image?
  }

  /** The exact allowance, for whatever flat element is at hand. */
  lemma AlwaysFitsIff(width: ReceiptWidth, dpi: nat, codecs: Codecs, k: nat, images: bool, e: Element)
    requires 72 <= dpi <= 600 && (e.Image? ==> images)
    requires Flat(e, Geometry(dpi, ReceiptPixelWidth(width, dpi), CanvasFor(dpi, 2 * GlyphScale(dpi))), codecs, 2 * GlyphScale(dpi))
    ensures AlwaysFits(width, dpi, codecs, k, images) <==> k <= 4 * GlyphScale(dpi) && ReceiptColumns(width, dpi) % 5 != 0
  {
    hide PreviewSize, ReceiptColumns, Flat, Unmeasurable, GlyphScale, NoImages;
    if k > 4 * GlyphScale(dpi) {
      FlatCopiesOverflow(e, width, dpi, codecs);
      CopiesHaveNoImages(TooMany(dpi), e);
    } else if ReceiptColumns(width, dpi) % 5 != 0 {
      forall elements: seq<Element> | Unmeasurable(elements, dpi) <= k
        ensures PreviewSize(PrintLayout(width, elements), dpi, codecs) != Err(PageOverflow)
      {
        PreviewNeverOverflows(PrintLayout(width, elements), dpi, codecs);
      }
    } else {
      WideRowOverflows(width, dpi, codecs);
      WideRowIsMeasurable(width, dpi);
    }
  }

  lemma CopiesHaveNoImages(n: nat, e: Element)
    ensures !e.Image? ==> NoImages(Copies(n, e))
  {
  }

  lemma WideRowIsMeasurable(width: ReceiptWidth, dpi: nat)
    ensures Unmeasurable([WideRow(width, dpi)], dpi) == 0 && NoImages([WideRow(width, dpi)])
  {
  }

  /**
   At every resolution, previews of all layouts in which at most k elements vanish fit their estimate if and only
   if k is at most four glyph scales and the columns are not a multiple of five.
   */
  lemma {:induction false} PreviewsFitIffFewVanish(width: ReceiptWidth, dpi: nat, codecs: Codecs, k: nat)
    requires 72 <= dpi <= 600
    ensures AlwaysFits(width, dpi, codecs, k, true) <==> k <= 4 * GlyphScale(dpi) && ReceiptColumns(width, dpi) % 5 != 0
  {
    hide AlwaysFits, Flat, ReceiptColumns, GlyphScale;
    WidthIsPositive(width, dpi);
    SpeckIsFlat(Geometry(dpi, ReceiptPixelWidth(width, dpi), CanvasFor(dpi, 2 * GlyphScale(dpi))), codecs);
    AlwaysFitsIff(width, dpi, codecs, k, true, SPECK);
  }

  /** The same allowance holds for layouts without images, whenever one barcode can be drawn at all. */
  lemma {:induction false} BarcodePreviewsFitIffFewAreFlat(
    width: ReceiptWidth, dpi: nat, codecs: Codecs, k: nat, format: BarcodeFormat, code: Ascii)
    requires 72 <= dpi <= 600 && NarrowBarcode(format, code, width, dpi, codecs)
    ensures AlwaysFits(width, dpi, codecs, k, false) <==> k <= 4 * GlyphScale(dpi) && ReceiptColumns(width, dpi) % 5 != 0
  {
    hide AlwaysFits, Flat, ReceiptColumns, GlyphScale, NarrowBarcode;
    BarcodeIsFlat(format, code, width, dpi, codecs, CanvasFor(dpi, 2 * GlyphScale(dpi)));
    AlwaysFitsIff(width, dpi, codecs, k, false, FlatBarcode(format, code));
  }

  /** At the printers' own resolution, on both widths, that means eight. */
  lemma {:induction false} At203EightMayVanish(width: ReceiptWidth, codecs: Codecs, k: nat)
    ensures AlwaysFits(width, 203, codecs, k, true) <==> k <= 8
  {
    ColumnsAt203();
    assert width == Mm58 || width == Mm80;
    assert GlyphScale(203) == 2;
    hide AlwaysFits, ReceiptColumns;
    PreviewsFitIffFewVanish(width, 203, codecs, k);
  }
}
