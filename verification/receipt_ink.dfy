/** The pixels a receipt is made of: for every element the exact region it blackens. */
module ReceiptInk {
  import opened Arithmetic
  import opened Bytes
  import opened Results
  import opened Layout
  import opened Wrapping
  import opened Raster
  import opened ReceiptMeasures

  type Region = (nat, nat) -> bool

  /** The packed canvas the regions are drawn on. */
  datatype Sheet = Sheet(stride: nat, width: nat, height: nat)

  // ---------- Painting regions ----------

  /** `after` is `before` with exactly the pixels of `region` on the sheet blackened; nothing is erased. */
  ghost predicate Drawn(before: seq<byte>, after: seq<byte>, s: Sheet, region: Region) {
    && |after| == |before|
    && forall u: nat, v: nat :: u < 8 * s.stride ==>
         (Black(after, s.stride, u, v) <==> Black(before, s.stride, u, v) || (u < s.width && v < s.height && region(u, v)))
  }

  ghost function Nothing(): Region { (u: nat, v: nat) => false }

  ghost function Either(a: Region, b: Region): Region { (u: nat, v: nat) => a(u, v) || b(u, v) }

  /** The union of the first n parts. */
  ghost function Any(part: nat -> Region, n: nat): Region {
    (u: nat, v: nat) => exists k: nat :: k < n && part(k)(u, v)
  }

  ghost predicate Same(a: Region, b: Region) { forall u: nat, v: nat :: a(u, v) <==> b(u, v) }

  lemma NothingDrawn(data: seq<byte>, s: Sheet)
    ensures Drawn(data, data, s, Nothing())
  {
    hide Black;
  }

  lemma DrawnBoth(a: seq<byte>, b: seq<byte>, c: seq<byte>, s: Sheet, first: Region, second: Region)
    requires Drawn(a, b, s, first) && Drawn(b, c, s, second)
    ensures Drawn(a, c, s, Either(first, second))
  {
    hide Black;
  }

  lemma DrawnSame(before: seq<byte>, after: seq<byte>, s: Sheet, region: Region, same: Region)
    requires Drawn(before, after, s, region) && Same(region, same)
    ensures Drawn(before, after, s, same)
  {
    hide Black;
  }

  lemma NonePart(part: nat -> Region)
    ensures Same(Nothing(), Any(part, 0))
  {
  }

  lemma NextPart(part: nat -> Region, n: nat)
    ensures Same(Either(Any(part, n), part(n)), Any(part, n + 1))
  {
    forall u: nat, v: nat
      ensures Either(Any(part, n), part(n))(u, v) <==> Any(part, n + 1)(u, v)
    {
      if part(n)(u, v) {
        assert n < n + 1 && part(n)(u, v);
      }
    }
  }

  /** Nothing is drawn before the first part. */
  lemma PartsStart(data: seq<byte>, s: Sheet, part: nat -> Region)
    ensures Drawn(data, data, s, Any(part, 0))
  {
    hide Drawn, Any;
    NothingDrawn(data, s);
    NonePart(part);
    DrawnSame(data, data, s, Nothing(), Any(part, 0));
  }

  /** One more part drawn. */
  lemma PartsNext(a: seq<byte>, b: seq<byte>, c: seq<byte>, s: Sheet, part: nat -> Region, n: nat)
    requires Drawn(a, b, s, Any(part, n)) && Drawn(b, c, s, part(n))
    ensures Drawn(a, c, s, Any(part, n + 1))
  {
    hide Drawn, Any;
    DrawnBoth(a, b, c, s, Any(part, n), part(n));
    NextPart(part, n);
    DrawnSame(a, c, s, Either(Any(part, n), part(n)), Any(part, n + 1));
  }

  /** A filled rectangle is drawn up to the edges of the sheet. */
  lemma RectDrawn(before: seq<byte>, after: seq<byte>, s: Sheet, x: nat, y: nat, w: nat, h: nat)
    requires Painted(before, after, s.stride, Clipped(x, y, w, h, s.width, s.height))
    ensures Drawn(before, after, s, Box(x, y, w, h))
  {
    hide Black;
    forall u: nat, v: nat
      ensures Clipped(x, y, w, h, s.width, s.height)(u, v) <==> u < s.width && v < s.height && Box(x, y, w, h)(u, v)
    {
      assert Clipped(x, y, w, h, s.width, s.height)(u, v) <==> x <= u < Min(x + w, s.width) && y <= v < Min(y + h, s.height);
      assert Box(x, y, w, h)(u, v) <==> x <= u < x + w && y <= v < y + h;
    }
  }

  lemma SamplesDrawn(before: seq<byte>, after: seq<byte>, s: Sheet, image: ReceiptImage, x: nat, y: nat, tw: nat, th: nat)
    requires Painted(before, after, s.stride, Sampled(image, x, y, tw, th, s.height)) && x + tw <= s.width
    ensures Drawn(before, after, s, Samples(image, x, y, tw, th))
  {
    hide Black, Sample;
  }

  // ---------- The strokes ----------

  ghost function Box(x: nat, y: nat, w: nat, h: nat): Region {
    (u: nat, v: nat) => x <= u < x + w && y <= v < y + h
  }

  datatype Placement = Placement(alignment: Alignment, bold: bool, left: nat, y: nat, maxWidth: nat, scale: nat)

  /** One dot of a glyph; bold repeats its last column. */
  ghost function Dot(x: nat, y: nat, scale: nat, bold: bool): Region {
    Either(Box(x, y, scale, scale), if bold then Box(x + scale, y, 1, scale) else Nothing())
  }

  /** The set bits of one row of a glyph; the lowest bit is the leftmost dot. */
  ghost function GlyphRow(bits: byte, x: nat, y: nat, scale: nat, bold: bool): nat -> Region {
    (column: nat) => if LowBit(bits as nat, column) then Dot(x + column * scale, y, scale, bold) else Nothing()
  }

  function GlyphBits(glyph: Glyph, row: nat): byte { if row < 8 then glyph[row] else 0 }

  ghost function GlyphRows(glyph: Glyph, x: nat, y: nat, scale: nat, bold: bool): nat -> Region {
    (row: nat) => Any(GlyphRow(GlyphBits(glyph, row), x, y + row * scale, scale, bold), 8)
  }

  /** The glyph of a character, or that of a question mark, or none. */
  function GlyphOf(c: byte, codecs: Codecs): Option<Glyph> {
    if codecs.font(c).Some? then codecs.font(c) else codecs.font(QUESTION)
  }

  /** Where a line of text starts. */
  function LineStart(length: nat, p: Placement): nat {
    var textWidth := length * (8 * p.scale);
    p.left
    + match p.alignment
      case Left => 0
      case Center => Less(p.maxWidth, textWidth) / 2
      case Right => Less(p.maxWidth, textWidth)
  }

  ghost function CharacterInk(c: byte, x: nat, p: Placement, codecs: Codecs): Region {
    match GlyphOf(c, codecs)
    case Some(glyph) => Any(GlyphRows(glyph, x, p.y, p.scale, p.bold), 8)
    case None => Nothing()
  }

  ghost function Characters(value: Ascii, p: Placement, codecs: Codecs): nat -> Region {
    (k: nat) =>
      if k < |value| then CharacterInk(value[k], LineStart(|value|, p) + k * (8 * p.scale), p, codecs) else Nothing()
  }

  /** One line of text. */
  ghost function LineInk(value: Ascii, p: Placement, codecs: Codecs): Region {
    Any(Characters(value, p, codecs), |value|)
  }

  ghost function TextLines(lines: seq<Ascii>, alignment: Alignment, bold: bool, left: nat, y: nat, width: nat, dpi: nat, codecs: Codecs): nat -> Region {
    (k: nat) =>
      if k < |lines|
      then LineInk(lines[k], Placement(alignment, bold, left, y + Lines(k, dpi), width, GlyphScale(dpi)), codecs)
      else Nothing()
  }

  /** Both cells of a row, line by line: the left ones flush left, the right ones flush right. */
  ghost function RowLines(lefts: seq<Ascii>, rights: seq<Ascii>, left: nat, y: nat, width: nat, dpi: nat, codecs: Codecs): nat -> Region {
    (k: nat) => Either(TextLines(lefts, Left, false, left, y, width, dpi, codecs)(k),
                       TextLines(rights, Right, false, left, y, width, dpi, codecs)(k))
  }

  ghost function Samples(image: ReceiptImage, x: nat, y: nat, tw: nat, th: nat): Region {
    (u: nat, v: nat) => x <= u < x + tw && y <= v < y + th && Sample(image, tw, th, u - x, v - y)
  }

  predicate DarkModule(content: seq<byte>, column: nat, row: nat, codecs: Codecs) { codecs.dark(content, column, row) }

  ghost function ModuleRow(content: seq<byte>, row: nat, x: nat, y: nat, dot: nat, codecs: Codecs): nat -> Region {
    (column: nat) =>
      if DarkModule(content, column, row, codecs)
      then Box(x + 4 * dot + column * dot, y + 4 * dot + row * dot, dot, dot) else Nothing()
  }

  ghost function ModuleRows(content: seq<byte>, modules: nat, x: nat, y: nat, dot: nat, codecs: Codecs): nat -> Region {
    (row: nat) => Any(ModuleRow(content, row, x, y, dot, codecs), modules)
  }

  predicate DarkBar(bars: Bars, k: nat) { k < |bars| && bars[k] }

  ghost function DarkBars(bars: Bars, x: nat, y: nat, moduleScale: nat, height: nat): nat -> Region {
    (k: nat) => if DarkBar(bars, k) then Box(x + k * moduleScale, y, moduleScale, height) else Nothing()
  }

  // ---------- Elements and layouts ----------

  ghost function QrInk(content: seq<byte>, modules: nat, left: nat, g: Geometry, y: nat, codecs: Codecs): Region {
    var dot := QrDot(modules, g);
    Any(ModuleRows(content, modules, left + Less(g.receiptWidth, CodeWidth(modules, dot)) / 2, y, dot, codecs), modules)
  }

  function ModuleScale(bars: Bars, g: Geometry): nat {
    Min(AtLeast(BarsAvailable(g) / |bars|, 1), AtLeast(g.dpi / 100, 1))
  }

  /** The bars, and below them the code in small type. */
  ghost function BarcodeInk(bars: Bars, code: Ascii, heightDots: byte, humanReadable: bool, left: nat, g: Geometry, y: nat, codecs: Codecs): Region {
    var x := left + Less(g.receiptWidth, |bars| * ModuleScale(bars, g)) / 2;
    var height, scale := BarHeight(heightDots, g.dpi), GlyphScale(g.dpi);
    Either(
      Any(DarkBars(bars, x, y, ModuleScale(bars, g), height), |bars|),
      if humanReadable
      then LineInk(code, Placement(Center, false, left, y + height + 2 * scale, g.receiptWidth, Min(2, scale)), codecs)
      else Nothing())
  }

  /** The pixels of an element drawn from row `y`. */
  ghost function ElementInk(e: Element, left: nat, g: Geometry, y: nat, codecs: Codecs): Region {
    var maxChars := MaxChars(g.receiptWidth, g.dpi);
    match e
    case Text(value, alignment, bold) =>
      var lines := Wrapped(value, maxChars);
      Any(TextLines(lines, alignment, bold, left, y, g.receiptWidth, g.dpi, codecs), |lines|)
    case Row(first, right) =>
      var lefts, rights := Wrapped(first, LeftChars(maxChars)), Wrapped(right, RightChars(maxChars));
      Any(RowLines(lefts, rights, left, y, g.receiptWidth, g.dpi, codecs), AtLeast(|lefts|, |rights|))
    case Divider => Box(left, y + LineHeight(g.dpi) / 2, g.receiptWidth, AtLeast(g.dpi / 150, 1))
    case Image(image) => var (tw, th) := TargetSize(image, g, y); Samples(image, left, y, tw, th)
    case Qr(content) =>
      (match codecs.modules(content)
       case Some(modules) => QrInk(content, modules, left, g, y, codecs)
       case None => Nothing())
    case Barcode(format, code, heightDots, humanReadable) =>
      (match codecs.bars(format, code)
       case Some(bars) => BarcodeInk(bars, code, heightDots, humanReadable, left, g, y, codecs)
       case None => Nothing())
    case Feed(_) => Nothing()
    case Cut => Nothing()
  }

  /** The pixels of the elements drawn below each other from row `y`. */
  ghost function LayoutInk(elements: seq<Element>, left: nat, g: Geometry, y: nat, codecs: Codecs): Region
    decreases |elements|
  {
    if elements == [] || Advance(elements[0], g, codecs, y).Err? then Nothing()
    else
      Either(ElementInk(elements[0], left, g, y, codecs),
             LayoutInk(elements[1..], left, g, y + Advance(elements[0], g, codecs, y).value, codecs))
  }

  // ---------- Ink stays in its element's rows ----------

  ghost predicate Within(region: Region, top: nat, bottom: nat) {
    forall u: nat, v: nat :: region(u, v) ==> top <= v < bottom
  }

  lemma AnyWithin(part: nat -> Region, n: nat, top: nat, bottom: nat)
    requires forall k: nat :: k < n ==> Within(part(k), top, bottom)
    ensures Within(Any(part, n), top, bottom)
  {
    forall u: nat, v: nat | Any(part, n)(u, v) ensures top <= v < bottom {
      var k: nat :| k < n && part(k)(u, v);
    }
  }

  lemma EitherWithin(a: Region, b: Region, top: nat, middle: nat, low: nat, bottom: nat)
    requires Within(a, top, middle) && Within(b, low, bottom) && top <= low && middle <= bottom
    ensures Within(Either(a, b), top, bottom)
  {
  }

  lemma NothingWithin(top: nat, bottom: nat)
    ensures Within(Nothing(), top, bottom)
  {
  }

  lemma BoxWithin(x: nat, y: nat, w: nat, h: nat, top: nat, bottom: nat)
    requires top <= y && y + h <= bottom
    ensures Within(Box(x, y, w, h), top, bottom)
  {
  }

  lemma DotWithin(x: nat, y: nat, scale: nat, bold: bool, top: nat, bottom: nat)
    requires top <= y && y + scale <= bottom
    ensures Within(Dot(x, y, scale, bold), top, bottom)
  {
    hide Box, Within, Nothing, Either;
    BoxWithin(x, y, scale, scale, top, bottom);
    BoxWithin(x + scale, y, 1, scale, top, bottom);
    NothingWithin(top, bottom);
    EitherWithin(Box(x, y, scale, scale), if bold then Box(x + scale, y, 1, scale) else Nothing(), top, bottom, top, bottom);
  }

  lemma GlyphWithin(glyph: Glyph, x: nat, y: nat, scale: nat, bold: bool)
    ensures Within(Any(GlyphRows(glyph, x, y, scale, bold), 8), y, y + 8 * scale)
  {
    hide Within, Any, Dot;
    forall row: nat | row < 8 ensures Within(GlyphRows(glyph, x, y, scale, bold)(row), y, y + 8 * scale) {
      var part := GlyphRow(GlyphBits(glyph, row), x, y + row * scale, scale, bold);
      MulMonotone(row + 1, 8, scale);
      OneMoreTimes(row, scale);
      forall column: nat | column < 8 ensures Within(part(column), y, y + 8 * scale) {
        NothingWithin(y, y + 8 * scale);
        DotWithin(x + column * scale, y + row * scale, scale, bold, y, y + 8 * scale);
      }
      AnyWithin(part, 8, y, y + 8 * scale);
    }
    AnyWithin(GlyphRows(glyph, x, y, scale, bold), 8, y, y + 8 * scale);
  }

  lemma LineWithin(value: Ascii, p: Placement, codecs: Codecs, top: nat, bottom: nat)
    requires top <= p.y && p.y + 8 * p.scale <= bottom
    ensures Within(LineInk(value, p, codecs), top, bottom)
  {
    hide Any, GlyphRows, Nothing;
    forall k: nat | k < |value| ensures Within(Characters(value, p, codecs)(k), top, bottom) {
      NothingWithin(top, bottom);
      var glyph := GlyphOf(value[k], codecs);
      if glyph.Some? {
        GlyphWithin(glyph.value, LineStart(|value|, p) + k * (8 * p.scale), p.y, p.scale, p.bold);
      }
    }
    AnyWithin(Characters(value, p, codecs), |value|, top, bottom);
  }

  lemma TextLineWithin(lines: seq<Ascii>, alignment: Alignment, bold: bool, left: nat, y: nat, width: nat, dpi: nat, codecs: Codecs, k: nat, n: nat)
    requires k < n
    ensures Within(TextLines(lines, alignment, bold, left, y, width, dpi, codecs)(k), y, y + Lines(n, dpi))
  {
    hide Lines, LineHeight, GlyphScale, LineInk, Within, Nothing;
    NothingWithin(y, y + Lines(n, dpi));
    NextLine(k, n, dpi);
    GlyphFitsLine(dpi);
    if k < |lines| {
      LineWithin(lines[k], Placement(alignment, bold, left, y + Lines(k, dpi), width, GlyphScale(dpi)), codecs, y, y + Lines(n, dpi));
    }
  }

  lemma QrWithin(content: seq<byte>, modules: nat, x: nat, y: nat, dot: nat, codecs: Codecs)
    ensures Within(Any(ModuleRows(content, modules, x, y, dot, codecs), modules), y, y + CodeWidth(modules, dot))
  {
    hide Within, Any, Box, Nothing;
    var bottom := y + CodeWidth(modules, dot);
    forall row: nat | row < modules ensures Within(ModuleRows(content, modules, x, y, dot, codecs)(row), y, bottom) {
      var part := ModuleRow(content, row, x, y, dot, codecs);
      MulMonotone(row + 5, modules + 8, dot);
      assert (row + 5) * dot == 4 * dot + row * dot + dot;
      forall column: nat | column < modules ensures Within(part(column), y, bottom) {
        NothingWithin(y, bottom);
        BoxWithin(x + 4 * dot + column * dot, y + 4 * dot + row * dot, dot, dot, y, bottom);
      }
      AnyWithin(part, modules, y, bottom);
    }
    AnyWithin(ModuleRows(content, modules, x, y, dot, codecs), modules, y, bottom);
  }

  lemma BarcodeWithin(bars: Bars, code: Ascii, heightDots: byte, humanReadable: bool, left: nat, g: Geometry, y: nat, codecs: Codecs)
    ensures Within(BarcodeInk(bars, code, heightDots, humanReadable, left, g, y, codecs), y,
      y + BarHeight(heightDots, g.dpi) + 2 * GlyphScale(g.dpi) + (if humanReadable then LineHeight(g.dpi) else 0))
  {
    hide Within, Any, Box, Nothing, LineInk, GlyphScale, LineHeight, BarHeight, Either;
    var x := left + Less(g.receiptWidth, |bars| * ModuleScale(bars, g)) / 2;
    var height, scale := BarHeight(heightDots, g.dpi), GlyphScale(g.dpi);
    var bottom := y + height + 2 * scale + (if humanReadable then LineHeight(g.dpi) else 0);
    var part := DarkBars(bars, x, y, ModuleScale(bars, g), height);
    forall k: nat | k < |bars| ensures Within(part(k), y, bottom) {
      NothingWithin(y, bottom);
      BoxWithin(x + k * ModuleScale(bars, g), y, ModuleScale(bars, g), height, y, bottom);
    }
    AnyWithin(part, |bars|, y, bottom);
    var p := Placement(Center, false, left, y + height + 2 * scale, g.receiptWidth, Min(2, scale));
    NothingWithin(y, bottom);
    if humanReadable {
      GlyphFitsLine(g.dpi);
      LineWithin(code, p, codecs, y, bottom);
    }
    EitherWithin(Any(part, |bars|), if humanReadable then LineInk(code, p, codecs) else Nothing(), y, bottom, y, bottom);
  }

  lemma DividerFits(dpi: nat)
    ensures LineHeight(dpi) / 2 + AtLeast(dpi / 150, 1) <= LineHeight(dpi)
  {
    hide GlyphScale;
  }

  /** An element's pixels are in the rows it takes. */
  lemma ElementWithin(e: Element, left: nat, g: Geometry, y: nat, codecs: Codecs)
    requires Advance(e, g, codecs, y).Ok?
    ensures Within(ElementInk(e, left, g, y, codecs), y, y + Advance(e, g, codecs, y).value)
  {
    hide Within, Any, Nothing, Wrapped, LineHeight, GlyphScale, MaxChars, TargetSize, Lines, LeftChars, RightChars, TextLines;
    hide Box, ModuleRows, BarcodeInk, Samples, RowLines;
    var rows, maxChars := Advance(e, g, codecs, y).value, MaxChars(g.receiptWidth, g.dpi);
    match e {
      case Text(value, alignment, bold) =>
        var lines := Wrapped(value, maxChars);
        var part := TextLines(lines, alignment, bold, left, y, g.receiptWidth, g.dpi, codecs);
        forall k: nat | k < |lines| ensures Within(part(k), y, y + rows) {
          TextLineWithin(lines, alignment, bold, left, y, g.receiptWidth, g.dpi, codecs, k, |lines|);
        }
        AnyWithin(part, |lines|, y, y + rows);
      case Row(first, right) =>
        RowWithin(Wrapped(first, LeftChars(maxChars)), Wrapped(right, RightChars(maxChars)), left, y, g.receiptWidth, g.dpi, codecs);
      case Divider =>
        DividerFits(g.dpi);
        BoxWithin(left, y + LineHeight(g.dpi) / 2, g.receiptWidth, AtLeast(g.dpi / 150, 1), y, y + rows);
      case Image(image) =>
        var (tw, th) := TargetSize(image, g, y);
        SamplesWithin(image, left, y, tw, th, y + rows);
      case Qr(content) =>
        var modules := codecs.modules(content).value;
        var dot := QrDot(modules, g);
        QrWithin(content, modules, left + Less(g.receiptWidth, CodeWidth(modules, dot)) / 2, y, dot, codecs);
        Widen(QrInk(content, modules, left, g, y, codecs), y, y + CodeWidth(modules, dot), y + rows);
      case Barcode(format, code, heightDots, humanReadable) =>
        BarcodeWithin(codecs.bars(format, code).value, code, heightDots, humanReadable, left, g, y, codecs);
      case Feed(_) => NothingWithin(y, y + rows);
      case Cut => NothingWithin(y, y + rows);
    }
  }

  lemma Widen(region: Region, top: nat, bottom: nat, lower: nat)
    requires Within(region, top, bottom) && bottom <= lower
    ensures Within(region, top, lower)
  {
  }

  lemma SamplesWithin(image: ReceiptImage, x: nat, y: nat, tw: nat, th: nat, bottom: nat)
    requires y + th <= bottom
    ensures Within(Samples(image, x, y, tw, th), y, bottom)
  {
    hide Sample;
  }

  lemma RowWithin(lefts: seq<Ascii>, rights: seq<Ascii>, left: nat, y: nat, width: nat, dpi: nat, codecs: Codecs)
    ensures var n := AtLeast(|lefts|, |rights|);
      Within(Any(RowLines(lefts, rights, left, y, width, dpi, codecs), n), y, y + Lines(n, dpi))
  {
    hide Within, Any, TextLines, Lines, Either;
    var n, part := AtLeast(|lefts|, |rights|), RowLines(lefts, rights, left, y, width, dpi, codecs);
    forall k: nat | k < n ensures Within(part(k), y, y + Lines(n, dpi)) {
      TextLineWithin(lefts, Left, false, left, y, width, dpi, codecs, k, n);
      TextLineWithin(rights, Right, false, left, y, width, dpi, codecs, k, n);
      EitherWithin(TextLines(lefts, Left, false, left, y, width, dpi, codecs)(k),
        TextLines(rights, Right, false, left, y, width, dpi, codecs)(k), y, y + Lines(n, dpi), y, y + Lines(n, dpi));
    }
    AnyWithin(part, n, y, y + Lines(n, dpi));
  }

  /** A layout's pixels are above the row after its last element. */
  lemma {:induction false} LayoutWithin(elements: seq<Element>, left: nat, g: Geometry, y: nat, codecs: Codecs)
    requires FinalY(elements, g, codecs, y).Ok?
    ensures y <= FinalY(elements, g, codecs, y).value
    ensures Within(LayoutInk(elements, left, g, y, codecs), y, FinalY(elements, g, codecs, y).value)
    decreases |elements|
  {
    hide Advance, ElementInk, Within, Nothing, Either;
    if elements == [] {
      NothingWithin(y, y);
    } else {
      var rows := Advance(elements[0], g, codecs, y).value;
      var end := FinalY(elements, g, codecs, y).value;
      ElementWithin(elements[0], left, g, y, codecs);
      LayoutWithin(elements[1..], left, g, y + rows, codecs);
      EitherWithin(ElementInk(elements[0], left, g, y, codecs), LayoutInk(elements[1..], left, g, y + rows, codecs),
        y, y + rows, y + rows, end);
    }
  }

  // ---------- Text, pixel by pixel ----------

  /** Pixel (u, v) falls in a set bit of a glyph row whose dots are s wide. */
  ghost predicate RowDot(bits: byte, x: nat, y: nat, s: nat, u: nat, v: nat)
    requires s >= 1
  {
    y <= v < y + s && x <= u < x + 8 * s && LowBit(bits as nat, Steps(u - x, s))
  }

  lemma BoxOfColumn(x: nat, y: nat, s: nat, c: nat, u: nat, v: nat)
    requires s >= 1
    ensures Box(x + c * s, y, s, s)(u, v) <==> y <= v < y + s && x <= u && Steps(u - x, s) == c
  {
    hide Steps;
    if x <= u {
      StepsAndLeftover(u - x, s);
      if x + c * s <= u < x + c * s + s {
        StepsAre(u - x, c, s);
      }
    }
  }

  /** When only two parts can hold a pixel, the union holds it iff one of them is among the first n and does. */
  lemma AnyIs(part: nat -> Region, n: nat, u: nat, v: nat, first: nat, inFirst: bool, second: nat, inSecond: bool)
    requires forall k: nat :: part(k)(u, v) <==> (inFirst && k == first) || (inSecond && k == second)
    ensures Any(part, n)(u, v) <==> (inFirst && first < n) || (inSecond && second < n)
  {
    assert inFirst ==> part(first)(u, v);
    assert inSecond ==> part(second)(u, v);
  }

  /** The column of a pixel right of x. */
  function ColumnOf(x: nat, s: nat, u: nat): nat
    requires s >= 1
  {
    if u >= x then Steps(u - x, s) else 0
  }

  lemma InRow(x: nat, s: nat, u: nat)
    requires s >= 1
    ensures u >= x ==> (ColumnOf(x, s, u) < 8 <==> u < x + 8 * s)
  {
    if u >= x {
      StepsAtMost(u - x, 8, s);
    }
  }

  lemma RowDots(bits: byte, x: nat, y: nat, s: nat, u: nat, v: nat)
    requires s >= 1
    ensures Any(GlyphRow(bits, x, y, s, false), 8)(u, v) <==> RowDot(bits, x, y, s, u, v)
  {
    hide LowBit, Steps, Box, Any;
    var part, c := GlyphRow(bits, x, y, s, false), ColumnOf(x, s, u);
    forall k: nat ensures part(k)(u, v) <==> (y <= v < y + s && x <= u && LowBit(bits as nat, c)) && k == c {
      BoxOfColumn(x, y, s, k, u, v);
    }
    InRow(x, s, u);
    AnyIs(part, 8, u, v, c, y <= v < y + s && x <= u && LowBit(bits as nat, c), 0, false);
  }

  /** The first column right of a dot. */
  ghost predicate RightOf(x: nat, s: nat, u: nat)
    requires s >= 1
  {
    u > x && Leftover(u - x, s) == 0
  }

  lemma EdgeOfColumn(x: nat, y: nat, s: nat, c: nat, u: nat, v: nat)
    requires s >= 1
    ensures Box(x + c * s + s, y, 1, s)(u, v)
       <==> RightOf(x, s, u) && y <= v < y + s && Steps(u - 1 - x, s) == c
  {
    hide Steps, Leftover;
    OneStepMore(c, s);
    if u == x + c * s + s {
      StepsAre(u - x, c + 1, s);
      StepsAre(u - 1 - x, c, s);
    }
    if RightOf(x, s, u) && Steps(u - 1 - x, s) == c {
      StepsAndLeftover(u - x, s);
      StepsAndLeftover(u - 1 - x, s);
      var q := Steps(u - x, s);
      LastOfStep(u - x, q, c, s);
    }
  }

  lemma LastOfStep(d: nat, q: nat, c: nat, s: nat)
    requires s >= 1 && d == q * s && d > 0 && c * s <= d - 1 < c * s + s
    ensures d == c * s + s
  {
    StepsBelow(d - 1, c, q - 1, s) by {
      OneStepMore(q - 1, s);
    }
    OneStepMore(c, s);
    if q <= c {
      MoreSteps(q, c, s);
    }
  }

  /** A bold dot is its square and the column right of it. */
  lemma BoldColumn(bits: byte, x: nat, y: nat, s: nat, k: nat, u: nat, v: nat)
    requires s >= 1
    ensures GlyphRow(bits, x, y, s, true)(k)(u, v) <==>
      ((y <= v < y + s && x <= u && LowBit(bits as nat, ColumnOf(x, s, u)) && k == ColumnOf(x, s, u))
       || (y <= v < y + s && RightOf(x, s, u) && LowBit(bits as nat, ColumnOf(x, s, u - 1)) && k == ColumnOf(x, s, u - 1)))
  {
    hide LowBit, Steps, Leftover, Box;
    BoxOfColumn(x, y, s, k, u, v);
    EdgeOfColumn(x, y, s, k, u, v);
  }

  lemma BoldRowDots(bits: byte, x: nat, y: nat, s: nat, u: nat, v: nat)
    requires s >= 1
    ensures Any(GlyphRow(bits, x, y, s, true), 8)(u, v)
       <==> RowDot(bits, x, y, s, u, v) || (RightOf(x, s, u) && RowDot(bits, x, y, s, u - 1, v))
  {
    hide LowBit, Steps, Leftover, Any, GlyphRow;
    var part, c, d := GlyphRow(bits, x, y, s, true), ColumnOf(x, s, u), if u > 0 then ColumnOf(x, s, u - 1) else 0;
    var plain := y <= v < y + s && x <= u && LowBit(bits as nat, c);
    var edge := y <= v < y + s && RightOf(x, s, u) && LowBit(bits as nat, d);
    forall k: nat ensures part(k)(u, v) <==> (plain && k == c) || (edge && k == d) {
      BoldColumn(bits, x, y, s, k, u, v);
    }
    InRow(x, s, u);
    if u > 0 {
      InRow(x, s, u - 1);
    }
    AnyIs(part, 8, u, v, c, plain, d, edge);
  }

  /** Pixel (u, v) falls in a set bit of the glyph at (x, y). */
  ghost predicate GlyphDot(glyph: Glyph, x: nat, y: nat, s: nat, u: nat, v: nat)
    requires s >= 1
  {
    y <= v < y + 8 * s && x <= u < x + 8 * s && LowBit(GlyphBits(glyph, Steps(v - y, s)) as nat, Steps(u - x, s))
  }

  lemma RowOfPixel(y: nat, s: nat, row: nat, v: nat)
    requires s >= 1
    ensures y + row * s <= v < y + row * s + s <==> v >= y && ColumnOf(y, s, v) == row
  {
    hide Steps;
    if v >= y {
      StepsAndLeftover(v - y, s);
      if y + row * s <= v < y + row * s + s {
        StepsAre(v - y, row, s);
      }
    }
  }

  lemma GlyphDots(glyph: Glyph, x: nat, y: nat, s: nat, bold: bool, u: nat, v: nat)
    requires s >= 1
    ensures Any(GlyphRows(glyph, x, y, s, bold), 8)(u, v)
       <==> GlyphDot(glyph, x, y, s, u, v) || (bold && RightOf(x, s, u) && GlyphDot(glyph, x, y, s, u - 1, v))
  {
    hide LowBit, Steps, Any, GlyphRow, RightOf, GlyphBits;
    var part, r := GlyphRows(glyph, x, y, s, bold), ColumnOf(y, s, v);
    var bits := GlyphBits(glyph, r);
    var inRow := v >= y && ((x <= u < x + 8 * s && LowBit(bits as nat, ColumnOf(x, s, u)))
      || (bold && RightOf(x, s, u) && x < u && u - 1 < x + 8 * s && LowBit(bits as nat, ColumnOf(x, s, u - 1))));
    forall k: nat ensures part(k)(u, v) <==> inRow && k == r {
      RightIsRight(x, s, u);
      RowOfPixel(y, s, k, v);
      if bold {
        BoldRowDots(GlyphBits(glyph, k), x, y + k * s, s, u, v);
      } else {
        RowDots(GlyphBits(glyph, k), x, y + k * s, s, u, v);
      }
    }
    RightIsRight(x, s, u);
    InRow(y, s, v);
    AnyIs(part, 8, u, v, r, inRow, 0, false);
  }

  lemma RightIsRight(x: nat, s: nat, u: nat)
    requires s >= 1
    ensures RightOf(x, s, u) ==> u > x
  {
  }

  /** Pixel (u, v) falls in a set bit of the glyph for the character of its cell. */
  ghost predicate LineDot(value: Ascii, p: Placement, codecs: Codecs, u: nat, v: nat)
    requires p.scale >= 1
  {
    var start, cell := LineStart(|value|, p), 8 * p.scale;
    u >= start && p.y <= v < p.y + cell
    && var k := Steps(u - start, cell);
       k < |value| && GlyphOf(value[k], codecs).Some?
       && LowBit(GlyphBits(GlyphOf(value[k], codecs).value, Steps(v - p.y, p.scale)) as nat, Steps(Leftover(u - start, cell), p.scale))
  }

  lemma InCell(start: nat, cell: nat, k: nat, u: nat)
    requires cell >= 1
    ensures start + k * cell <= u < start + k * cell + cell <==> u >= start && ColumnOf(start, cell, u) == k
    ensures u >= start && ColumnOf(start, cell, u) == k ==> u - (start + k * cell) == Leftover(u - start, cell)
  {
    hide Steps, Leftover;
    RowOfPixel(start, cell, k, u);
    if u >= start {
      StepsAndLeftover(u - start, cell);
    }
  }

  lemma CellDot(value: Ascii, p: Placement, codecs: Codecs, k: nat, u: nat, v: nat)
    requires p.scale >= 1 && k < |value| && GlyphOf(value[k], codecs).Some?
    ensures var start, cell := LineStart(|value|, p), 8 * p.scale;
      GlyphDot(GlyphOf(value[k], codecs).value, start + k * cell, p.y, p.scale, u, v)
      <==> LineDot(value, p, codecs, u, v) && u >= start && ColumnOf(start, cell, u) == k
  {
    hide LowBit, Steps, Leftover, GlyphBits, GlyphOf, LineStart;
    InCell(LineStart(|value|, p), 8 * p.scale, k, u);
  }

  lemma SameEdge(start: nat, k: nat, s: nat, u: nat)
    requires s >= 1 && u > start + k * (8 * s)
    ensures RightOf(start + k * (8 * s), s, u) <==> RightOf(start, s, u)
  {
    hide Steps, Leftover;
    var d := u - (start + k * (8 * s));
    assert k * (8 * s) == (8 * k) * s;
    LeftoverAfterSteps(d, 8 * k, s);
  }

  lemma CharacterDots(value: Ascii, p: Placement, codecs: Codecs, k: nat, u: nat, v: nat)
    requires p.scale >= 1 && k < |value|
    ensures var start, cell := LineStart(|value|, p), 8 * p.scale;
      Characters(value, p, codecs)(k)(u, v) <==>
        ((LineDot(value, p, codecs, u, v) && k == ColumnOf(start, cell, u))
         || (p.bold && RightOf(start, p.scale, u) && LineDot(value, p, codecs, u - 1, v) && k == ColumnOf(start, cell, u - 1)))
  {
    hide LineStart, GlyphRows, Any, GlyphDot, LowBit, Steps, Leftover, GlyphBits, GlyphOf, RightOf, ColumnOf;
    var start, cell := LineStart(|value|, p), 8 * p.scale;
    var x := start + k * cell;
    DotsAreInCells(value, p, codecs, u, v);
    RightIsRight(start, p.scale, u);
    RightIsRight(x, p.scale, u);
    InCell(start, cell, k, u);
    if u > 0 {
      DotsAreInCells(value, p, codecs, u - 1, v);
      InCell(start, cell, k, u - 1);
    }
    if u > x {
      SameEdge(start, k, p.scale, u);
    }
    hide LineDot;
    if GlyphOf(value[k], codecs).Some? {
      GlyphDots(GlyphOf(value[k], codecs).value, x, p.y, p.scale, p.bold, u, v);
      CellDot(value, p, codecs, k, u, v);
      if u > 0 {
        CellDot(value, p, codecs, k, u - 1, v);
      }
    }
  }

  lemma DotsAreInCells(value: Ascii, p: Placement, codecs: Codecs, u: nat, v: nat)
    requires p.scale >= 1
    ensures LineDot(value, p, codecs, u, v) ==>
      var start, cell := LineStart(|value|, p), 8 * p.scale;
      && u >= start && ColumnOf(start, cell, u) < |value| && GlyphOf(value[ColumnOf(start, cell, u)], codecs).Some?
  {
    hide LowBit, Steps, Leftover, GlyphBits, GlyphOf, LineStart;
  }

  /**
   A line of text in closed form: a pixel is black exactly if it falls in a set bit of the font's glyph for the
   character of its cell, at the line's alignment and scale; bold also blackens the column right of each dot.
   */
  lemma {:induction false} TextPixels(value: Ascii, p: Placement, codecs: Codecs, u: nat, v: nat)
    requires p.scale >= 1
    ensures LineInk(value, p, codecs)(u, v)
       <==> LineDot(value, p, codecs, u, v)
            || (p.bold && RightOf(LineStart(|value|, p), p.scale, u) && LineDot(value, p, codecs, u - 1, v))
  {
    hide LineStart, LowBit, Steps, Leftover, GlyphBits, GlyphOf, ColumnOf, CharacterInk, Any;
    var start, cell, part := LineStart(|value|, p), 8 * p.scale, Characters(value, p, codecs);
    var here := LineDot(value, p, codecs, u, v);
    var edge := p.bold && RightOf(start, p.scale, u) && LineDot(value, p, codecs, u - 1, v);
    var first, second := ColumnOf(start, cell, u), if u > 0 then ColumnOf(start, cell, u - 1) else 0;
    DotsAreInCells(value, p, codecs, u, v);
    RightIsRight(start, p.scale, u);
    if u > 0 {
      DotsAreInCells(value, p, codecs, u - 1, v);
    }
    hide LineDot, RightOf;
    assert (here ==> first < |value|) && (edge ==> u > 0 && second < |value|);
    forall k: nat ensures part(k)(u, v) <==> (here && k == first) || (edge && k == second) {
      if k < |value| {
        CharacterDots(value, p, codecs, k, u, v);
      } else {
        assert part(k) == Nothing();
      }
    }
    AnyIs(part, |value|, u, v, first, here, second, edge);
  }
}
