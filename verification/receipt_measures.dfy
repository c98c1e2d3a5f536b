/** How large a receipt preview and its elements are: the drawn heights, and the heights the estimate reserves. */
module ReceiptMeasures {
  import opened Bytes
  import opened Results
  import opened Layout
  import opened Wrapping
  import opened Rows
  import opened Raster

  type Glyph = g: seq<byte> | |g| == 8 witness [0, 0, 0, 0, 0, 0, 0, 0]

  const QUESTION: byte := 63

  type Bars = b: seq<bool> | b != [] witness [true]

  /** The font and the QR and barcode encoders, as functions of their input. */
  datatype Codecs = Codecs(
    font: byte -> Option<Glyph>,
    modules: seq<byte> -> Option<nat>, dark: (seq<byte>, nat, nat) -> bool,
    bars: (BarcodeFormat, Ascii) -> Option<Bars>)

  datatype ReceiptError =
    | InvalidPageOptions | InvalidImage | BarcodeRender | PageOverflow | OutputTooLarge | InvalidPage(page: PageError)

  const MAX_PAGE_PIXELS: nat := 42_000_000
  const MAX_RECEIPT_IMAGE_HEIGHT: nat := 8_192

  // ---------- Measures ----------

  function AtLeast(a: int, b: nat): nat { if a < b then b else a }

  /** How high a number of lines is. */
  function Lines(n: nat, dpi: nat): nat { n * LineHeight(dpi) }

  lemma NextLine(k: nat, n: nat, dpi: nat)
    requires k < n
    ensures Lines(k, dpi) + LineHeight(dpi) == Lines(k + 1, dpi) <= Lines(n, dpi)
  {
    var h := LineHeight(dpi);
    hide LineHeight;
    MulMonotone(k + 1, n, h);
    OneMoreTimes(k, h);
  }

  lemma OneMoreTimes(k: nat, h: nat)
    ensures (k + 1) * h == k * h + h
  {
  }

  lemma GlyphFitsLine(dpi: nat)
    ensures 8 * GlyphScale(dpi) <= LineHeight(dpi) && Lines(0, dpi) == 0
  {
  }

  function Less(a: nat, b: nat): nat { if a < b then 0 else a - b }

  function MmToPx(mm: nat, dpi: nat): nat { (mm * dpi * 10 + 127) / 254 }

  function ReceiptPixelWidth(width: ReceiptWidth, dpi: nat): nat {
    match width case Mm58 => MmToPx(58, dpi) case Mm80 => MmToPx(80, dpi)
  }

  function GlyphScale(dpi: nat): (s: nat)
    ensures s >= 1 && dpi / 150 <= s
  {
    AtLeast(dpi * 3 / 300, 1)
  }

  function LineHeight(dpi: nat): nat { 9 * GlyphScale(dpi) }

  function MaxChars(width: nat, dpi: nat): nat {
    var glyph := 8 * GlyphScale(dpi);
    AtLeast(width / glyph, 1)
  }

  function LeftChars(maxChars: nat): nat { AtLeast(maxChars * 3 / 5, 1) }

  /** The width the drawing gives the right cell. */
  function RightChars(maxChars: nat): nat { AtLeast(Less(maxChars, maxChars * 3 / 5 + 1), 1) }

  /** The width the estimate gives the right cell. */
  function EstimatedRightChars(maxChars: nat): nat { AtLeast(maxChars * 2 / 5, 1) }

  /** The two formulas agree except at multiples of five, where the drawing is one column narrower. */
  lemma RightCharsAgree(maxChars: nat)
    requires maxChars >= 1
    ensures RightChars(maxChars) == EstimatedRightChars(maxChars) <==> maxChars % 5 != 0
    ensures maxChars % 5 == 0 ==> RightChars(maxChars) + 1 == EstimatedRightChars(maxChars)
  {
    var q, r := maxChars / 5, maxChars % 5;
    assert maxChars * 3 / 5 == 3 * q + r * 3 / 5;
    assert maxChars * 2 / 5 == 2 * q + r * 2 / 5;
  }

  /** a / b rounded half up. */
  function Round(a: nat, b: nat): nat
    requires b > 0
  {
    (2 * a + b) / (2 * b)
  }

  /** Scales down to fit, keeping the proportions, and never below one dot. */
  function FitDimensions(sw: nat, sh: nat, mw: nat, mh: nat): (nat, nat) {
    if sw == 0 || sh == 0 || mw == 0 || mh == 0 then (0, 0)
    else if sw <= mw && sh <= mh then (sw, sh)
    else if mw * sh <= mh * sw then (mw, AtLeast(Round(sh * mw, sw), 1))
    else (AtLeast(Round(sw * mh, sh), 1), mh)
  }

  lemma MulMonotone(a: nat, b: nat, c: nat)
    ensures a <= b ==> a * c <= b * c
  {
    if a <= b {
      assert b * c == a * c + (b - a) * c;
    }
  }

  lemma QuotientBound(x: nat, d: nat)
    requires d > 0
    ensures x / d * d <= x
  {
  }

  lemma RoundAtMost(a: nat, b: nat, n: nat)
    requires b > 0 && a <= n * b
    ensures Round(a, b) <= n
  {
    var q, d := Round(a, b), 2 * b;
    QuotientBound(2 * a + b, d);
    MulMonotone(n + 1, q, d);
    assert (n + 1) * d == 2 * (n * b) + 2 * b;
  }

  lemma {:induction false} FitStaysInside(sw: nat, sh: nat, mw: nat, mh: nat)
    ensures var (w, h) := FitDimensions(sw, sh, mw, mh); w <= mw && h <= mh && w <= sw && h <= sh
  {
    if sw > 0 && sh > 0 && mw > 0 && mh > 0 && !(sw <= mw && sh <= mh) {
      if mw * sh <= mh * sw {
        assert sh * mw == mw * sh;
        RoundAtMost(sh * mw, sw, mh);
        NarrowerThanSource(sw, sh, mw, mh);
        ScaledDown(sh, mw, sw);
        RoundAtMost(sh * mw, sw, sh);
      } else {
        assert sw * mh <= mw * sh;
        RoundAtMost(sw * mh, sh, mw);
        NarrowerThanSource(sh, sw, mh, mw);
        ScaledDown(sw, mh, sh);
        RoundAtMost(sw * mh, sh, sw);
      }
    }
  }

  lemma ScaledDown(a: nat, small: nat, large: nat)
    requires small <= large
    ensures a * small <= a * large
  {
    MulMonotone(small, large, a);
  }

  /** The tighter ratio is below one unless both dimensions fit. */
  lemma NarrowerThanSource(sw: nat, sh: nat, mw: nat, mh: nat)
    requires mw * sh <= mh * sw && !(sw <= mw && sh <= mh) && sh > 0 && sw > 0
    ensures mw <= sw
  {
    MulMonotone(sw + 1, mw, sh);
    assert (sw + 1) * sh == sh * sw + sh;
    MulMonotone(mh, sh, sw);
  }

  // ---------- How far each element advances ----------

  /** The page geometry the elements are drawn on. */
  datatype Geometry = Geometry(dpi: nat, receiptWidth: nat, canvasHeight: nat)

  function ScaledDots(dots: nat, dpi: nat, sourceDpi: nat): nat { SatMul(dots, dpi) / AtLeast(sourceDpi, 1) }

  function TargetSize(image: ReceiptImage, g: Geometry, y: nat): (nat, nat) {
    FitDimensions(
      AtLeast(ScaledDots(image.width, g.dpi, image.dpi), 1), AtLeast(ScaledDots(image.height, g.dpi, image.dpi), 1),
      g.receiptWidth, Min(MAX_RECEIPT_IMAGE_HEIGHT, Less(g.canvasHeight, y)))
  }

  function NominalDot(dpi: nat): nat { AtLeast(dpi * 6 / 203, 1) }

  function QrDot(modules: nat, g: Geometry): nat {
    AtLeast(Min(NominalDot(g.dpi), g.receiptWidth / (modules + 8)), 1)
  }

  function BarsAvailable(g: Geometry): nat { AtLeast(Less(g.receiptWidth, 20), 1) }

  function CodeWidth(modules: nat, dot: nat): nat { (modules + 8) * dot }

  function ScaledTo203(heightDots: byte, dpi: nat): nat { dpi * heightDots as nat / 203 }

  function BarHeight(heightDots: byte, dpi: nat): nat { AtLeast(ScaledTo203(heightDots, dpi), 1) }

  /** The rows an element takes when drawn from row `y`, or why it cannot be drawn. */
  function Advance(e: Element, g: Geometry, codecs: Codecs, y: nat): Result<nat, ReceiptError> {
    var scale, maxChars := GlyphScale(g.dpi), MaxChars(g.receiptWidth, g.dpi);
    match e
    case Text(value, _, _) => Ok(Lines(|Wrapped(value, maxChars)|, g.dpi))
    case Row(left, right) =>
      Ok(Lines(AtLeast(|Wrapped(left, LeftChars(maxChars))|, |Wrapped(right, RightChars(maxChars))|), g.dpi))
    case Divider => Ok(LineHeight(g.dpi))
    case Image(image) => Ok(TargetSize(image, g, y).1 + 2 * scale)
    case Qr(content) =>
      (match codecs.modules(content)
       case None => Err(InvalidImage)
       case Some(modules) => Ok(CodeWidth(modules, QrDot(modules, g)) + 2 * scale))
    case Barcode(format, code, heightDots, humanReadable) =>
      (match codecs.bars(format, code)
       case None => Err(BarcodeRender)
       case Some(bars) =>
         if |bars| > BarsAvailable(g) then Err(BarcodeRender)
         else Ok(BarHeight(heightDots, g.dpi) + 2 * scale + (if humanReadable then LineHeight(g.dpi) else 0)))
    case Feed(lines) => Ok(Lines(lines as nat, g.dpi))
    case Cut => Ok(0)
  }

  /** The row after the last element; running past the canvas is an error. */
  function FinalY(elements: seq<Element>, g: Geometry, codecs: Codecs, y: nat): (r: Result<nat, ReceiptError>)
    ensures r.Ok? && elements != [] ==> r.value <= g.canvasHeight
    ensures r.Ok? ==> y <= r.value
    decreases |elements|
  {
    if elements == [] then Ok(y)
    else
      match Advance(elements[0], g, codecs, y)
      case Err(error) => Err(error)
      case Ok(rows) =>
        if y + rows > g.canvasHeight then Err(PageOverflow) else FinalY(elements[1..], g, codecs, y + rows)
  }

  // ---------- The estimate ----------

  /** The rows the estimate reserves for an element, or why it cannot be encoded. */
  function Estimated(e: Element, width: nat, dpi: nat, codecs: Codecs): Result<nat, ReceiptError> {
    var scale, maxChars := GlyphScale(dpi), MaxChars(width, dpi);
    match e
    case Text(value, _, _) => Ok(Lines(AtLeast(|Wrapped(value, maxChars)|, 1), dpi))
    case Row(left, right) =>
      Ok(Lines(
        AtLeast(AtLeast(|Wrapped(left, LeftChars(maxChars))|, |Wrapped(right, EstimatedRightChars(maxChars))|), 1), dpi))
    case Divider => Ok(LineHeight(dpi))
    case Image(image) => Ok(Min(ScaledDots(image.height, dpi, image.dpi), MAX_RECEIPT_IMAGE_HEIGHT) + 2 * scale)
    case Qr(content) =>
      (match codecs.modules(content)
       case None => Err(InvalidImage)
       case Some(modules) => Ok(CodeWidth(modules, NominalDot(dpi)) + 2 * scale))
    case Barcode(format, code, heightDots, humanReadable) =>
      (match codecs.bars(format, code)
       case None => Err(BarcodeRender)
       case Some(_) =>
         Ok(ScaledTo203(heightDots, dpi) + (if humanReadable then LineHeight(dpi) else 0) + 2 * scale))
    case Feed(lines) => Ok(Lines(lines as nat, dpi))
    case Cut => Ok(0)
  }

  function EstimatedFrom(elements: seq<Element>, width: nat, dpi: nat, codecs: Codecs, height: nat): Result<nat, ReceiptError>
    decreases |elements|
  {
    if elements == [] then Ok(height)
    else
      match Estimated(elements[0], width, dpi, codecs)
      case Err(error) => Err(error)
      case Ok(rows) => EstimatedFrom(elements[1..], width, dpi, codecs, height + rows)
  }

  function EstimatedHeight(layout: PrintLayout, dpi: nat, codecs: Codecs): Result<nat, ReceiptError> {
    EstimatedFrom(layout.elements, ReceiptPixelWidth(layout.width, dpi), dpi, codecs, 4 * GlyphScale(dpi))
  }

  /** Images and barcodes that are at least one dot high at this resolution. */
  predicate Measurable(e: Element, dpi: nat) {
    match e
    case Image(image) => ScaledDots(image.height, dpi, image.dpi) >= 1
    case Barcode(_, _, heightDots, _) => ScaledTo203(heightDots, dpi) >= 1
    case _ => true
  }

  /** The rows needed are never more than the rows reserved, exactly for measurable elements. */
  lemma {:induction false} EstimateCovers(e: Element, g: Geometry, codecs: Codecs, y: nat)
    requires y < g.canvasHeight && g.receiptWidth > 0 && !e.Row?
    requires Advance(e, g, codecs, y).Ok? && Estimated(e, g.receiptWidth, g.dpi, codecs).Ok?
    ensures Advance(e, g, codecs, y).value <= Estimated(e, g.receiptWidth, g.dpi, codecs).value <==> Measurable(e, g.dpi)
  {
    hide Wrapped, FitDimensions, LineHeight, GlyphScale;
    match e {
      case Text(value, _, _) =>
        MulMonotone(|Wrapped(value, MaxChars(g.receiptWidth, g.dpi))|,
          AtLeast(|Wrapped(value, MaxChars(g.receiptWidth, g.dpi))|, 1), LineHeight(g.dpi));
      case Image(image) => ImageFits(image, g, y);
      case Qr(content) =>
        var modules := codecs.modules(content).value;
        ScaledDown(modules + 8, QrDot(modules, g), NominalDot(g.dpi));
      case _ =>
    }
  }

  lemma ImageFits(image: ReceiptImage, g: Geometry, y: nat)
    requires y < g.canvasHeight && g.receiptWidth > 0
    ensures var scaled := ScaledDots(image.height, g.dpi, image.dpi);
      TargetSize(image, g, y).1 <= Min(scaled, MAX_RECEIPT_IMAGE_HEIGHT) <==> scaled >= 1
  {
    var w, h := AtLeast(ScaledDots(image.width, g.dpi, image.dpi), 1), AtLeast(ScaledDots(image.height, g.dpi, image.dpi), 1);
    FitStaysInside(w, h, g.receiptWidth, Min(MAX_RECEIPT_IMAGE_HEIGHT, Less(g.canvasHeight, y)));
  }

  /** A row's two formulas give the same lines unless the column count is a multiple of five. */
  lemma EstimateCoversRows(e: Element, g: Geometry, codecs: Codecs, y: nat)
    requires e.Row? && MaxChars(g.receiptWidth, g.dpi) % 5 != 0
    ensures Advance(e, g, codecs, y).value <= Estimated(e, g.receiptWidth, g.dpi, codecs).value
  {
    hide Wrapped, LineHeight, FitDimensions;
    var maxChars := MaxChars(g.receiptWidth, g.dpi);
    RightCharsAgree(maxChars);
    var lines := AtLeast(|Wrapped(e.left, LeftChars(maxChars))|, |Wrapped(e.right, RightChars(maxChars))|);
    MulMonotone(lines, AtLeast(lines, 1), LineHeight(g.dpi));
  }

  /** At a multiple of five a row needs at least the lines the estimate counted, exactly when it has a line at all. */
  lemma NarrowRowsNeedMore(e: Element, g: Geometry, codecs: Codecs, y: nat)
    requires e.Row? && MaxChars(g.receiptWidth, g.dpi) % 5 == 0
    ensures Advance(e, g, codecs, y).value >= Estimated(e, g.receiptWidth, g.dpi, codecs).value
       <==> Wrapped(e.left, LeftChars(MaxChars(g.receiptWidth, g.dpi))) != []
            || Wrapped(e.right, RightChars(MaxChars(g.receiptWidth, g.dpi))) != []
  {
    hide Wrapped, LineHeight, FitDimensions, GlyphScale;
    var maxChars := MaxChars(g.receiptWidth, g.dpi);
    RightCharsAgree(maxChars);
    WiderNeverNeedsMoreLines(e.right, RightChars(maxChars), EstimatedRightChars(maxChars));
    var drawn := AtLeast(|Wrapped(e.left, LeftChars(maxChars))|, |Wrapped(e.right, RightChars(maxChars))|);
    var reserved := AtLeast(AtLeast(|Wrapped(e.left, LeftChars(maxChars))|, |Wrapped(e.right, EstimatedRightChars(maxChars))|), 1);
    hide MaxChars, LeftChars, RightChars, EstimatedRightChars;
    MulMonotone(reserved, drawn, LineHeight(g.dpi));
    LinesArePositive(reserved, g.dpi);
    NoLines(g.dpi);
  }

  lemma LinesArePositive(n: nat, dpi: nat)
    ensures n >= 1 ==> Lines(n, dpi) >= 1
  {
    MulMonotone(1, n, LineHeight(dpi));
  }

  lemma NoLines(dpi: nat)
    ensures Lines(0, dpi) == 0
  {
  }

  /** How many images and barcodes vanish at this resolution. */
  function Unmeasurable(elements: seq<Element>, dpi: nat): nat {
    if elements == [] then 0 else (if Measurable(elements[0], dpi) then 0 else 1) + Unmeasurable(elements[1..], dpi)
  }

  /** What vanishes is drawn one dot high, so it takes at most one row more than was reserved. */
  lemma CostsAtMostOne(e: Element, g: Geometry, codecs: Codecs, y: nat)
    requires MaxChars(g.receiptWidth, g.dpi) % 5 != 0
    requires Advance(e, g, codecs, y).Ok? && Estimated(e, g.receiptWidth, g.dpi, codecs).Ok?
    ensures Advance(e, g, codecs, y).value
         <= Estimated(e, g.receiptWidth, g.dpi, codecs).value + (if Measurable(e, g.dpi) then 0 else 1)
  {
    hide Wrapped, FitDimensions, LineHeight, GlyphScale;
    match e {
      case Text(value, _, _) =>
        MulMonotone(|Wrapped(value, MaxChars(g.receiptWidth, g.dpi))|,
          AtLeast(|Wrapped(value, MaxChars(g.receiptWidth, g.dpi))|, 1), LineHeight(g.dpi));
      case Row(_, _) => EstimateCoversRows(e, g, codecs, y);
      case Image(image) =>
        FitStaysInside(
          AtLeast(ScaledDots(image.width, g.dpi, image.dpi), 1), AtLeast(ScaledDots(image.height, g.dpi, image.dpi), 1),
          g.receiptWidth, Min(MAX_RECEIPT_IMAGE_HEIGHT, Less(g.canvasHeight, y)));
      case Qr(content) =>
        ScaledDown(codecs.modules(content).value + 8, QrDot(codecs.modules(content).value, g), NominalDot(g.dpi));
      case _ =>
    }
  }

  lemma EstimateGrows(elements: seq<Element>, width: nat, dpi: nat, codecs: Codecs, height: nat)
    ensures var r := EstimatedFrom(elements, width, dpi, codecs, height); r.Ok? ==> r.value >= height
    decreases |elements|
  {
    hide Estimated;
  }

  /** As long as the rows to spare cover what vanishes, drawing never runs past the canvas. */
  lemma {:induction false} NeverPastTheCanvas(elements: seq<Element>, g: Geometry, codecs: Codecs, y: nat, height: nat)
    requires MaxChars(g.receiptWidth, g.dpi) % 5 != 0 && y + Unmeasurable(elements, g.dpi) <= height
    requires EstimatedFrom(elements, g.receiptWidth, g.dpi, codecs, height) == Ok(g.canvasHeight)
    ensures FinalY(elements, g, codecs, y) != Err(PageOverflow)
    decreases |elements|
  {
    hide Advance, Estimated, Measurable, MaxChars;
    if elements != [] {
      AdvanceErrors(elements[0], g, codecs, y);
      if Advance(elements[0], g, codecs, y).Ok? {
        var rows := Estimated(elements[0], g.receiptWidth, g.dpi, codecs).value;
        EstimateGrows(elements[1..], g.receiptWidth, g.dpi, codecs, height + rows);
        CostsAtMostOne(elements[0], g, codecs, y);
        NeverPastTheCanvas(elements[1..], g, codecs, y + Advance(elements[0], g, codecs, y).value, height + rows);
      }
    }
  }

  lemma AdvanceErrors(e: Element, g: Geometry, codecs: Codecs, y: nat)
    ensures Advance(e, g, codecs, y) != Err(PageOverflow)
  {
  }

  // ---------- The preview ----------

  /** The size of the finished preview, or why there is none. */
  function PreviewSize(layout: PrintLayout, dpi: nat, codecs: Codecs): Result<(nat, nat), ReceiptError> {
    var width := ReceiptPixelWidth(layout.width, dpi);
    if !(72 <= dpi <= 600) then Err(InvalidPageOptions)
    else
      match EstimatedHeight(layout, dpi, codecs)
      case Err(error) => Err(error)
      case Ok(height) =>
        if width * height > MAX_PAGE_PIXELS then Err(OutputTooLarge)
        else
          match FinalY(layout.elements, Geometry(dpi, width, height), codecs, 0)
          case Err(error) => Err(error)
          case Ok(y) => Ok((width, Min(AtLeast(y, 1), height)))
  }

  lemma EstimateIsPositive(layout: PrintLayout, dpi: nat, codecs: Codecs)
    ensures EstimatedHeight(layout, dpi, codecs).Ok? ==> EstimatedHeight(layout, dpi, codecs).value >= 4
  {
    hide Estimated;
    EstimateGrows(layout.elements, ReceiptPixelWidth(layout.width, dpi), dpi, codecs, 4 * GlyphScale(dpi));
  }

  lemma WidthIsPositive(width: ReceiptWidth, dpi: nat)
    requires dpi >= 72
    ensures ReceiptPixelWidth(width, dpi) >= 1
  {
  }
}
