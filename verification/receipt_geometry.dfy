/** What the measures of a receipt preview mean: nearest dots, largest sizes that fit, proportions and margins. */
module ReceiptGeometry {
  import opened Arithmetic
  import opened Bytes
  import opened Results
  import opened Layout
  import opened Wrapping
  import opened Raster
  import opened ReceiptMeasures
  import opened ReceiptInk

  /** `q` is the whole number of times `size` goes into `d`. */
  ghost predicate Goes(q: nat, size: nat, d: nat) { q * size <= d < q * size + size }

  lemma QuotientGoes(d: nat, size: nat)
    requires size >= 1
    ensures Goes(d / size, size, d)
  {
    StepsAndLeftover(d, size);
  }

  /** At least one, and otherwise the whole number of times. */
  ghost predicate GoesAtLeastOnce(q: nat, size: nat, d: nat) { if d < size then q == 1 else Goes(q, size, d) }

  lemma QuotientAtLeastOne(d: nat, size: nat)
    requires size >= 1
    ensures GoesAtLeastOnce(AtLeast(d / size, 1), size, d)
  {
    QuotientGoes(d, size);
    StepsAtMost(d, 1, size);
  }

  // ---------- Widths ----------

  /** A length in millimetres is the nearest number of dots: 25.4 mm are `dpi` dots. */
  lemma NearestDots(mm: nat, dpi: nat)
    ensures -127 <= 254 * MmToPx(mm, dpi) - 10 * mm * dpi <= 127
  {
    QuotientGoes(mm * dpi * 10 + 127, 254);
    assert mm * dpi * 10 == 10 * mm * dpi;
  }

  lemma PaperWidths(dpi: nat)
    ensures ReceiptPixelWidth(Mm58, dpi) == MmToPx(58, dpi) && ReceiptPixelWidth(Mm80, dpi) == MmToPx(80, dpi)
    ensures ReceiptPixelWidth(Mm58, 203) == 464 && ReceiptPixelWidth(Mm80, 203) == 639
  {
  }

  /** One glyph dot per hundred dots of resolution; a line is nine glyph dots high. */
  lemma GlyphsScale(dpi: nat)
    ensures GoesAtLeastOnce(GlyphScale(dpi), 100, dpi)
    ensures LineHeight(dpi) == GlyphScale(dpi) * 9
    ensures forall n: nat :: Lines(n, dpi) == n * (GlyphScale(dpi) * 9)
  {
    assert dpi * 3 / 300 == dpi / 100;
    QuotientAtLeastOne(dpi, 100);
  }

  /** As many columns of eight glyph dots as fit. */
  lemma ColumnsFit(width: nat, dpi: nat)
    ensures GoesAtLeastOnce(MaxChars(width, dpi), GlyphScale(dpi) * 8, width)
  {
    QuotientAtLeastOne(width, 8 * GlyphScale(dpi));
  }

  /** The left cell gets three fifths of the columns, the right one what is left behind a blank. */
  lemma CellsShareColumns(columns: nat)
    ensures GoesAtLeastOnce(LeftChars(columns), 5, 3 * columns)
    ensures columns >= 3 ==> LeftChars(columns) + 1 + RightChars(columns) == columns
    ensures columns < 3 ==> LeftChars(columns) == 1 && RightChars(columns) == 1
    ensures GoesAtLeastOnce(EstimatedRightChars(columns), 5, 2 * columns)
  {
    QuotientAtLeastOne(columns * 3, 5);
    QuotientAtLeastOne(columns * 2, 5);
  }

  // ---------- Where a line starts ----------

  /** Flush left, centred up to one dot, or flush right; a line that is too wide starts at the left edge. */
  lemma LineMargins(length: nat, p: Placement)
    ensures var x, w := LineStart(length, p) - p.left, length * (8 * p.scale);
      && x >= 0 && (p.maxWidth < w ==> x == 0)
      && (w <= p.maxWidth ==>
            var rest := p.maxWidth - w - x;
            match p.alignment
            case Left => x == 0
            case Center => x == rest || x + 1 == rest
            case Right => rest == 0)
  {
  }

  // ---------- Images ----------

  /** Dots at one resolution as whole dots at another. */
  lemma DotsScale(dots: nat, dpi: nat, sourceDpi: nat)
    requires dots * dpi < 0xFFFF_FFFF
    ensures Goes(ScaledDots(dots, dpi, sourceDpi), if sourceDpi == 0 then 1 else sourceDpi, dots * dpi)
  {
    QuotientGoes(dots * dpi, AtLeast(sourceDpi, 1));
  }

  /** The sample for a target column is the source column it falls into, and likewise for rows. */
  lemma SamplesFallInto(image: ReceiptImage, tw: nat, th: nat, tx: nat, ty: nat)
    requires tx < tw && ty < th && tw * image.width < 0xFFFF_FFFF && th * image.height < 0xFFFF_FFFF
    ensures exists sx: nat, sy: nat ::
      && Goes(sx, tw, tx * image.width) && Goes(sy, th, ty * image.height)
      && (Sample(image, tw, th, tx, ty) <==> MaskSet(image.data, sy * image.stride + sx / 8, sx % 8))
  {
    MulMonotone(tx, tw, image.width);
    MulMonotone(ty, th, image.height);
    var sx, sy := tx * image.width / tw, ty * image.height / th;
    QuotientGoes(tx * image.width, tw);
    QuotientGoes(ty * image.height, th);
    BlackIsMask(image.data, image.stride, sx, sy);
    assert Sample(image, tw, th, tx, ty) <==> Black(image.data, image.stride, sx, sy);
  }

  /** a / b rounded: the nearest whole number, halves upwards. */
  lemma RoundIsNearest(a: nat, b: nat)
    requires b >= 1
    ensures Round(a, b) * (2 * b) <= 2 * a + b < Round(a, b) * (2 * b) + 2 * b
  {
    QuotientGoes(2 * a + b, 2 * b);
  }

  /** A picture that fits keeps its size; any other is as large as fits, and its other side keeps the proportion. */
  lemma FitsInProportion(sw: nat, sh: nat, mw: nat, mh: nat)
    requires sw > 0 && sh > 0 && mw > 0 && mh > 0
    ensures var (w, h) := FitDimensions(sw, sh, mw, mh);
      if sw <= mw && sh <= mh then w == sw && h == sh
      else if mw * sh <= mh * sw then
        w == mw && (h * (2 * sw) <= 2 * (sh * mw) + sw < h * (2 * sw) + 2 * sw || (h == 1 && 2 * (sh * mw) < sw))
      else h == mh && (w * (2 * sh) <= 2 * (sw * mh) + sh < w * (2 * sh) + 2 * sh || (w == 1 && 2 * (sw * mh) < sh))
  {
    RoundIsNearest(sh * mw, sw);
    RoundIsNearest(sw * mh, sh);
    RoundToNothing(sh * mw, sw);
    RoundToNothing(sw * mh, sh);
    hide Round;
  }

  lemma RoundToNothing(a: nat, b: nat)
    requires b >= 1
    ensures Round(a, b) == 0 <==> 2 * a < b
  {
    StepsAtMost(2 * a + b, 1, 2 * b);
  }

  // ---------- Codes ----------

  /** QR dots are 6 at 203 DPI and in proportion elsewhere. */
  lemma NominalDots(dpi: nat)
    ensures GoesAtLeastOnce(NominalDot(dpi), 203, 6 * dpi) && NominalDot(203) == 6
  {
    QuotientAtLeastOne(6 * dpi, 203);
    assert dpi * 6 == 6 * dpi;
  }

  lemma WidestDot(q: nat, total: nat, width: nat)
    requires total >= 1 && q == width / total
    ensures total * q <= width < total * (q + 1)
  {
    QuotientGoes(width, total);
    OneMoreTimes(q, total);
    Turned(q, total);
    Turned(q + 1, total);
  }

  /** And they are no wider than the receipt lets the code with its margins be, down to one dot. */
  lemma QrDotIsLargest(modules: nat, g: Geometry)
    ensures var dot := QrDot(modules, g);
      && 1 <= dot <= NominalDot(g.dpi) && CodeWidth(modules, dot) == (modules + 8) * dot
      && (dot > 1 ==> (modules + 8) * dot <= g.receiptWidth)
      && (dot < NominalDot(g.dpi) ==> g.receiptWidth < (modules + 8) * (dot + 1))
  {
    var q := g.receiptWidth / (modules + 8);
    WidestDot(q, modules + 8, g.receiptWidth);
    AtLeastOneDot(g.dpi);
    var dot := QrDot(modules, g);
    hide NominalDot;
    MulMonotone(dot, q, modules + 8);
    MulMonotone(q + 1, dot + 1, modules + 8);
    Turned(dot, modules + 8);
    Turned(q, modules + 8);
    Turned(q + 1, modules + 8);
    Turned(dot + 1, modules + 8);
  }

  lemma AtLeastOneDot(dpi: nat)
    ensures NominalDot(dpi) >= 1
  {
  }

  lemma Turned(a: nat, b: nat)
    ensures a * b == b * a
  {
  }

  /** Bars are as wide as the receipt without ten dots on each side allows, up to one dot per hundred of resolution. */
  lemma BarsAreWidest(bars: Bars, g: Geometry)
    requires |bars| <= BarsAvailable(g)
    ensures BarsAvailable(g) == if g.receiptWidth <= 20 then 1 else g.receiptWidth - 20
    ensures var m := ModuleScale(bars, g);
      && 1 <= m && |bars| * m <= BarsAvailable(g) && m <= AtLeast(g.dpi / 100, 1)
      && (m == AtLeast(g.dpi / 100, 1) || BarsAvailable(g) < |bars| * (m + 1))
  {
    var q := BarsAvailable(g) / |bars|;
    QuotientGoes(BarsAvailable(g), |bars|);
    StepsAtMost(BarsAvailable(g), 1, |bars|);
    OneMoreTimes(q, |bars|);
    Turned(q, |bars|);
    Turned(q + 1, |bars|);
    hide BarsAvailable;
    MulMonotone(ModuleScale(bars, g), q, |bars|);
    Turned(ModuleScale(bars, g), |bars|);
  }

  /** Barcode heights are given in dots at 203 DPI; a barcode is at least one dot high. */
  lemma BarHeights(heightDots: byte, dpi: nat)
    ensures Goes(ScaledTo203(heightDots, dpi), 203, dpi * heightDots as nat)
    ensures GoesAtLeastOnce(BarHeight(heightDots, dpi), 203, dpi * heightDots as nat)
  {
    QuotientGoes(dpi * heightDots as nat, 203);
    QuotientAtLeastOne(dpi * heightDots as nat, 203);
  }

  // ---------- Rows ----------

  /** Below images, QR codes and barcodes two glyph dots stay blank; text takes its lines, and a cut nothing. */
  lemma RowsTaken(g: Geometry, codecs: Codecs, y: nat, value: Ascii, alignment: Alignment, bold: bool, n: byte, image: ReceiptImage)
    ensures Advance(Text(value, alignment, bold), g, codecs, y)
         == Ok(|Wrapped(value, MaxChars(g.receiptWidth, g.dpi))| * (GlyphScale(g.dpi) * 9))
    ensures Advance(Divider, g, codecs, y) == Ok(GlyphScale(g.dpi) * 9)
    ensures Advance(Feed(n), g, codecs, y) == Ok(n as nat * (GlyphScale(g.dpi) * 9))
    ensures Advance(Cut, g, codecs, y) == Ok(0)
    ensures Advance(Image(image), g, codecs, y) == Ok(TargetSize(image, g, y).1 + GlyphScale(g.dpi) * 2)
  {
    hide GlyphScale, TargetSize, Wrapped, MaxChars;
  }

  lemma CodeRowsTaken(g: Geometry, codecs: Codecs, y: nat, content: seq<byte>, format: BarcodeFormat, code: Ascii, heightDots: byte)
    ensures var gap := GlyphScale(g.dpi) * 2;
      && (codecs.modules(content).Some? ==>
            Advance(Qr(content), g, codecs, y)
              == Ok(CodeWidth(codecs.modules(content).value, QrDot(codecs.modules(content).value, g)) + gap))
      && (codecs.bars(format, code).Some? && |codecs.bars(format, code).value| <= BarsAvailable(g) ==>
            && Advance(Barcode(format, code, heightDots, false), g, codecs, y) == Ok(BarHeight(heightDots, g.dpi) + gap)
            && Advance(Barcode(format, code, heightDots, true), g, codecs, y)
               == Ok(BarHeight(heightDots, g.dpi) + gap + GlyphScale(g.dpi) * 9))
  {
    hide GlyphScale, QrDot, BarHeight, CodeWidth, BarsAvailable;
  }
}
