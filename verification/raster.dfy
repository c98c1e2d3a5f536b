/** Packed one-bit pixels, most significant bit first, as a refinement of a grid of booleans. */
module Raster {
  import opened Arithmetic
  import opened Bytes
  import opened Results
  import opened Layout

  // ---------- Bits of a byte ----------

  /** Bit `i` of `b`, counted from the least significant one. */
  predicate LowBit(b: nat, i: nat) {
    if i == 0 then b % 2 == 1 else LowBit(b / 2, i - 1)
  }

  /** `b & (0x80 >> k) != 0`. */
  predicate Bit(b: byte, k: nat)
    requires k < 8
  {
    LowBit(b as nat, 7 - k)
  }

  /** `b | (0x80 >> k)`: bit k is set and no other bit changes. */
  function WithBit(b: byte, k: nat): (r: byte)
    requires k < 8
    ensures forall j :: 0 <= j < 8 ==> (Bit(r, j) <==> Bit(b, j) || j == k)
  {
    if Bit(b, k) then b
    else
      SettingFits(b as nat, 7 - k, 8);
      assert Power(8) == 256 by { assert Power(4) == 16; }
      SettingAll(b as nat, 7 - k);
      (b as nat + Power(7 - k)) as byte
  }

  lemma {:induction false} SettingFits(b: nat, i: nat, n: nat)
    requires i < n && b < Power(n) && !LowBit(b, i)
    ensures b + Power(i) < Power(n)
  {
    var p := Power(n - 1);
    assert b < 2 * p;
    if i > 0 {
      SettingFits(b / 2, i - 1, n - 1);
      assert b / 2 + Power(i - 1) < p;
    }
  }

  lemma {:induction false} SettingBit(b: nat, i: nat, j: nat)
    requires !LowBit(b, i)
    ensures LowBit(b + Power(i), j) <==> LowBit(b, j) || i == j
  {
    if i > 0 && j > 0 {
      SettingBit(b / 2, i - 1, j - 1);
      assert (b + Power(i)) / 2 == b / 2 + Power(i - 1);
    }
  }

  lemma SettingAll(b: nat, i: nat)
    requires !LowBit(b, i)
    ensures forall j: nat :: LowBit(b + Power(i), j) <==> LowBit(b, j) || i == j
  {
    forall j: nat ensures LowBit(b + Power(i), j) <==> LowBit(b, j) || i == j {
      SettingBit(b, i, j);
    }
  }

  // ---------- Rows of packed bytes ----------

  /** Bytes in a row of `width` pixels. */
  function Stride(width: nat): (s: nat)
    ensures width <= 8 * s < width + 8
  {
    (width + 7) / 8
  }

  /** Whether the pixel is black; coordinates outside the buffer are white. */
  predicate Black(data: seq<byte>, stride: nat, x: nat, y: nat) {
    var index := y * stride + x / 8;
    index < |data| && Bit(data[index], x % 8)
  }

  lemma RowAfter(stride: nat, y: nat, v: nat)
    requires y < v
    ensures y * stride + stride <= v * stride
  {
    assert v * stride == y * stride + stride + (v - y - 1) * stride;
  }

  lemma RowsApart(stride: nat, a: nat, y: nat, b: nat, v: nat)
    requires a < stride && b < stride
    ensures y * stride + a == v * stride + b <==> a == b && y == v
  {
    if y < v {
      RowAfter(stride, y, v);
    } else if v < y {
      RowAfter(stride, v, y);
    }
  }

  /** Two pixels of rows `stride` bytes wide share a byte and a bit only when they are the same pixel. */
  lemma IndexIsUnique(stride: nat, x: nat, y: nat, u: nat, v: nat)
    requires x < 8 * stride && u < 8 * stride
    ensures y * stride + x / 8 == v * stride + u / 8 && x % 8 == u % 8 ==> x == u && y == v
  {
    var a, b := x / 8, u / 8;
    RowsApart(stride, a, y, b, v);
  }

  /** Exactly the pixels above `height` have their byte in a buffer of that many rows. */
  lemma IndexInBuffer(stride: nat, height: nat, x: nat, y: nat)
    requires x < 8 * stride
    ensures y * stride + x / 8 < stride * height <==> y < height
  {
    var a := x / 8;
    if y < height {
      RowAfter(stride, y, height);
    } else if height < y {
      RowAfter(stride, height, y);
    }
  }

  /** What `set_packed_bit` does to the buffer; an index past its end is ignored. */
  function PackedBitSet(data: seq<byte>, stride: nat, x: nat, y: nat): (r: seq<byte>)
    ensures |r| == |data|
  {
    var index := y * stride + x / 8;
    if index < |data| then data[index := WithBit(data[index], x % 8)] else data
  }

  lemma OneBitSet(data: seq<byte>, i: nat, k: nat, j: nat, l: nat)
    requires k < 8 && l < 8 && i < |data|
    ensures j < |data| && Bit(data[i := WithBit(data[i], k)][j], l) <==> j < |data| && (Bit(data[j], l) || (i == j && k == l))
  {
    hide Bit, WithBit;
  }

  /** Inside its own row the pixel and only the pixel turns black. */
  lemma {:induction false} OnePixelSet(data: seq<byte>, stride: nat, x: nat, y: nat, u: nat, v: nat)
    requires x < 8 * stride && u < 8 * stride
    ensures Black(PackedBitSet(data, stride, x, y), stride, u, v)
       <==> Black(data, stride, u, v) || (u == x && v == y && y * stride + x / 8 < |data|)
  {
    hide Bit, WithBit;
    IndexIsUnique(stride, x, y, u, v);
    if y * stride + x / 8 < |data| {
      OneBitSet(data, y * stride + x / 8, x % 8, v * stride + u / 8, u % 8);
    }
  }

  lemma PixelSet(data: seq<byte>, stride: nat, height: nat, x: nat, y: nat)
    requires |data| == stride * height && x < 8 * stride
    ensures forall u: nat, v: nat :: u < 8 * stride ==>
      (Black(PackedBitSet(data, stride, x, y), stride, u, v) <==> Black(data, stride, u, v) || (u == x && v == y < height))
  {
    IndexInBuffer(stride, height, x, y);
    forall u: nat, v: nat | u < 8 * stride
      ensures Black(PackedBitSet(data, stride, x, y), stride, u, v) <==> Black(data, stride, u, v) || (u == x && v == y < height)
    {
      OnePixelSet(data, stride, x, y, u, v);
    }
  }

  // ---------- Pixels as masks ----------

  /** 0x80 >> k. */
  function Mask(k: nat): (m: nat)
    requires k < 8
    ensures m >= 1
  {
    match k case 0 => 128 case 1 => 64 case 2 => 32 case 3 => 16 case 4 => 8 case 5 => 4 case 6 => 2 case 7 => 1
  }

  /** The byte at an index has the mask's bit, if there is such a byte. */
  predicate MaskSet(data: seq<byte>, index: nat, k: nat)
    requires k < 8
  {
    index < |data| && data[index] as nat / Mask(k) % 2 == 1
  }

  lemma LowBitIs(b: nat, i: nat)
    ensures LowBit(b, i) <==> b / Power(i) % 2 == 1
  {
    if i > 0 {
      LowBitIs(b / 2, i - 1);
      HalfThenRest(b, Power(i - 1));
    }
  }

  lemma HalfThenRest(b: nat, p: nat)
    requires p >= 1
    ensures b / 2 / p == b / (2 * p)
  {
    StepsAndLeftover(b / 2, p);
    var q := Steps(b / 2, p);
    Doubled(q, p);
    StepsAre(b, q, 2 * p);
  }

  lemma Doubled(q: nat, p: nat)
    ensures q * (2 * p) == 2 * (q * p)
  {
  }

  lemma BitIsMask(b: byte, k: nat)
    requires k < 8
    ensures Bit(b, k) <==> b as nat / Mask(k) % 2 == 1
  {
    LowBitIs(b as nat, 7 - k);
    assert Power(7 - k) == Mask(k) by {
      assert Power(3) == 8 && Power(4) == 16 && Power(7) == 8 * Power(4);
    }
  }

  /** Pixel (x, y) of rows `stride` bytes long is bit 0x80 >> x % 8 of byte y * stride + x / 8. */
  lemma BlackIsMask(data: seq<byte>, stride: nat, x: nat, y: nat)
    ensures Black(data, stride, x, y) <==> MaskSet(data, y * stride + x / 8, x % 8)
  {
    hide Bit, Mask;
    if y * stride + x / 8 < |data| {
      BitIsMask(data[y * stride + x / 8], x % 8);
    }
  }

  // ---------- Regions ----------

  /** `after` is `before` with exactly the pixels of `region` blackened. */
  ghost predicate Painted(before: seq<byte>, after: seq<byte>, stride: nat, region: (nat, nat) -> bool) {
    && |after| == |before|
    && forall u: nat, v: nat :: u < 8 * stride ==>
         (Black(after, stride, u, v) <==> Black(before, stride, u, v) || region(u, v))
  }

  /** One more pixel painted. */
  lemma PaintOne(before: seq<byte>, data: seq<byte>, stride: nat, height: nat, x: nat, y: nat,
      region: (nat, nat) -> bool, wider: (nat, nat) -> bool)
    requires Painted(before, data, stride, region) && |data| == stride * height && x < 8 * stride
    requires forall u: nat, v: nat :: u < 8 * stride ==> (wider(u, v) <==> region(u, v) || (u == x && v == y < height))
    ensures Painted(before, PackedBitSet(data, stride, x, y), stride, wider)
  {
    PixelSet(data, stride, height, x, y);
  }

  lemma PaintNothing(before: seq<byte>, data: seq<byte>, stride: nat, region: (nat, nat) -> bool, same: (nat, nat) -> bool)
    requires Painted(before, data, stride, region)
    requires forall u: nat, v: nat :: u < 8 * stride ==> (same(u, v) <==> region(u, v))
    ensures Painted(before, data, stride, same)
  {
  }

  /** Saturating addition of 32-bit numbers. */
  const U32_MAX: nat := 0xFFFF_FFFF

  function SatMul(a: nat, b: nat): nat { if a * b < U32_MAX then a * b else U32_MAX }

  function Min(a: nat, b: nat): nat { if a < b then a else b }

  /** A rectangle clipped to the canvas. */
  ghost function Clipped(x: nat, y: nat, w: nat, h: nat, width: nat, height: nat): (nat, nat) -> bool {
    (u: nat, v: nat) => x <= u < Min(x + w, width) && y <= v < Min(y + h, height)
  }

  /** No bit past the last column is ever set. */
  ghost predicate PaddingClear(data: seq<byte>, stride: nat, width: nat) {
    forall u: nat, v: nat :: width <= u < 8 * stride ==> !Black(data, stride, u, v)
  }

  class MonoCanvas {
    const width: nat
    const height: nat
    const dpi: nat
    const stride: nat
    const data: array<byte>

    ghost predicate Valid()
      reads this, data
    {
      && stride == Stride(width) && data.Length == stride * height && width <= U32_MAX && height <= U32_MAX
      && PaddingClear(data[..], stride, width)
    }

    /** A white canvas. */
    constructor (width: nat, height: nat, dpi: nat)
      requires width <= U32_MAX && height <= U32_MAX
      ensures Valid() && fresh(data) && this.width == width && this.height == height && this.dpi == dpi
      ensures forall u: nat, v: nat :: !Black(data[..], stride, u, v)
    {
      this.width, this.height, this.dpi, stride := width, height, dpi, Stride(width);
      data := new byte[Stride(width) * height](_ => 0);
      new;
      forall u: nat, v: nat ensures !Black(data[..], stride, u, v) {
        NoBits(u % 8);
      }
    }

    /** Sets one bit; an index past the buffer is ignored. */
    method SetPackedBit(x: nat, y: nat)
      modifies data
      ensures data[..] == PackedBitSet(old(data[..]), stride, x, y)
    {
      var index := y * stride + x / 8;
      if index < data.Length {
        data[index] := WithBit(data[index], x % 8);
      }
    }

    /** Blackens exactly the rectangle clipped to the canvas. */
    method FillRect(x: nat, y: nat, w: nat, h: nat)
      requires Valid()
      modifies data
      ensures Valid() && Painted(old(data[..]), data[..], stride, Clipped(x, y, w, h, width, height))
    {
      hide Black, PackedBitSet;
      ghost var before := data[..];
      var right := Min(SatAdd(x, w, U32_MAX), width);
      var bottom := Min(SatAdd(y, h, U32_MAX), height);
      for py := Min(y, height) to bottom
        invariant Painted(before, data[..], stride, Rows(x, right, y, py))
      {
        for px := Min(x, width) to right
          invariant Painted(before, data[..], stride, RowsAndPart(x, right, y, py, px))
        {
          PaintOne(before, data[..], stride, height, px, py, RowsAndPart(x, right, y, py, px), RowsAndPart(x, right, y, py, px + 1));
          SetPackedBit(px, py);
        }
        PaintNothing(before, data[..], stride, RowsAndPart(x, right, y, py, right), Rows(x, right, y, py + 1));
      }
      assert right == Min(x + w, width) && bottom == Min(y + h, height);
      PaintNothing(before, data[..], stride, Rows(x, right, y, bottom), Clipped(x, y, w, h, width, height));
    }

    /**
     Draws a packed image scaled to the target size. When it ends inside the canvas width, exactly the
     pixels of its black samples turn black and no other row is touched.
     */
    method BlitReceiptImage(image: ReceiptImage, x: nat, y: nat, tw: nat, th: nat)
      requires Valid()
      modifies data
      ensures x + tw <= width ==>
        Valid() && Painted(old(data[..]), data[..], stride, Sampled(image, x, y, tw, th, height))
    {
      hide Black, PackedBitSet, SatMul, Painted;
      ghost var before := data[..];
      ghost var fits := x + tw <= width;
      SampledEnds(before, before, stride, image, x, y, tw, th, height);
      if tw == 0 || th == 0 {
        return;
      }
      for ty := 0 to th
        invariant fits ==> Painted(before, data[..], stride, SampledPart(image, x, y, tw, th, height, ty, 0))
      {
        var sourceY := SatMul(ty, image.height) / th;
        for tx := 0 to tw
          invariant fits ==> Painted(before, data[..], stride, SampledPart(image, x, y, tw, th, height, ty, tx))
        {
          var sourceX := SatMul(tx, image.width) / tw;
          SampleNext(before, data[..], this, image, x, y, tw, th, ty, tx);
          if Black(image.data, image.stride, sourceX, sourceY) {
            SetPackedBit(SatAdd(x, tx, U32_MAX), SatAdd(y, ty, U32_MAX));
          }
        }
        SampleNextRow(before, data[..], stride, image, x, y, tw, th, height, ty);
      }
      SampledEnds(before, data[..], stride, image, x, y, tw, th, height);
      if fits {
        PaddingStays(before, data[..], stride, width, Sampled(image, x, y, tw, th, height));
      }
    }
  }

  /** One step of the blit: the sampled pixel is set, or nothing changes. */
  lemma SampleNext(before: seq<byte>, data: seq<byte>, canvas: MonoCanvas, image: ReceiptImage,
      x: nat, y: nat, tw: nat, th: nat, ty: nat, tx: nat)
    requires canvas.stride == Stride(canvas.width) && canvas.width <= U32_MAX && canvas.height <= U32_MAX
    requires |data| == canvas.stride * canvas.height && tx < tw && ty < th
    ensures var part := SampledPart(image, x, y, tw, th, canvas.height, ty, tx);
      x + tw <= canvas.width && Painted(before, data, canvas.stride, part) ==>
        var next := if Sample(image, tw, th, tx, ty) then PackedBitSet(data, canvas.stride, SatAdd(x, tx, U32_MAX), SatAdd(y, ty, U32_MAX)) else data;
        Painted(before, next, canvas.stride, SampledPart(image, x, y, tw, th, canvas.height, ty, tx + 1))
  {
    var part := SampledPart(image, x, y, tw, th, canvas.height, ty, tx);
    var next := SampledPart(image, x, y, tw, th, canvas.height, ty, tx + 1);
    if x + tw <= canvas.width && Painted(before, data, canvas.stride, part) {
      SampledStep(image, x, y, tw, th, canvas.height, ty, tx);
      hide Sample, Painted, PackedBitSet;
      if Sample(image, tw, th, tx, ty) {
        PaintOne(before, data, canvas.stride, canvas.height, x + tx, SatAdd(y, ty, U32_MAX), part, next);
      } else {
        PaintNothing(before, data, canvas.stride, part, next);
      }
    }
  }

  lemma SampledStep(image: ReceiptImage, x: nat, y: nat, tw: nat, th: nat, height: nat, ty: nat, tx: nat)
    requires tx < tw && ty < th && height <= U32_MAX
    ensures forall u: nat, v: nat ::
      SampledPart(image, x, y, tw, th, height, ty, tx + 1)(u, v)
      <==> SampledPart(image, x, y, tw, th, height, ty, tx)(u, v)
           || (Sample(image, tw, th, tx, ty) && u == x + tx && v == SatAdd(y, ty, U32_MAX) < height)
  {
    hide Sample;
  }

  lemma SampleNextRow(before: seq<byte>, data: seq<byte>, stride: nat, image: ReceiptImage,
      x: nat, y: nat, tw: nat, th: nat, height: nat, ty: nat)
    ensures Painted(before, data, stride, SampledPart(image, x, y, tw, th, height, ty, tw)) ==>
      Painted(before, data, stride, SampledPart(image, x, y, tw, th, height, ty + 1, 0))
  {
    hide Sample, Black;
  }

  lemma SampledEnds(before: seq<byte>, data: seq<byte>, stride: nat, image: ReceiptImage,
      x: nat, y: nat, tw: nat, th: nat, height: nat)
    ensures Painted(before, before, stride, SampledPart(image, x, y, tw, th, height, 0, 0))
    ensures tw == 0 || th == 0 ==> Painted(before, before, stride, Sampled(image, x, y, tw, th, height))
    ensures Painted(before, data, stride, SampledPart(image, x, y, tw, th, height, th, 0)) ==>
      Painted(before, data, stride, Sampled(image, x, y, tw, th, height))
  {
    hide Sample, Black;
  }

  lemma PaddingStays(before: seq<byte>, data: seq<byte>, stride: nat, width: nat, region: (nat, nat) -> bool)
    requires PaddingClear(before, stride, width) && Painted(before, data, stride, region)
    requires forall u: nat, v: nat :: width <= u < 8 * stride ==> !region(u, v)
    ensures PaddingClear(data, stride, width)
  {
    hide Black;
  }

  /** The source pixel sampled for column `tx` and row `ty` of a scaled image. */
  predicate Sample(image: ReceiptImage, tw: nat, th: nat, tx: nat, ty: nat)
    requires tw > 0 && th > 0
  {
    Black(image.data, image.stride, SatMul(tx, image.width) / tw, SatMul(ty, image.height) / th)
  }

  ghost function Sampled(image: ReceiptImage, x: nat, y: nat, tw: nat, th: nat, height: nat): (nat, nat) -> bool {
    (u: nat, v: nat) => x <= u < x + tw && y <= v < y + th && v < height && Sample(image, tw, th, u - x, v - y)
  }

  ghost function SampledPart(image: ReceiptImage, x: nat, y: nat, tw: nat, th: nat, height: nat, ty: nat, tx: nat): (nat, nat) -> bool {
    (u: nat, v: nat) =>
      x <= u < x + tw && y <= v < y + th && v < height && (v < y + ty || (v == y + ty && u < x + tx))
      && Sample(image, tw, th, u - x, v - y)
  }

  /** Past the last byte of a row the pixel is one of the next row: why the blit must end inside the canvas. */
  lemma SpillsIntoNextRow(data: seq<byte>, stride: nat, x: nat, y: nat)
    requires x >= 8 * stride
    ensures PackedBitSet(data, stride, x, y) == PackedBitSet(data, stride, x - 8 * stride, y + 1)
  {
    assert (y + 1) * stride + (x - 8 * stride) / 8 == y * stride + x / 8;
  }

  ghost function Rows(x: nat, right: nat, y: nat, py: nat): (nat, nat) -> bool {
    (u: nat, v: nat) => x <= u < right && y <= v < py
  }

  ghost function RowsAndPart(x: nat, right: nat, y: nat, py: nat, px: nat): (nat, nat) -> bool {
    (u: nat, v: nat) => (x <= u < right && y <= v < py) || (x <= u < px && v == py)
  }

  lemma NoBits(k: nat)
    requires k < 8
    ensures !Bit(0, k)
  {
    assert forall i: nat :: !LowBit(0, i) by {
      forall i: nat ensures !LowBit(0, i) {
        NoLowBits(i);
      }
    }
  }

  lemma NoLowBits(i: nat)
    ensures !LowBit(0, i)
  {
  }

  // ---------- Pages ----------

  datatype PixelFormat = Mono1 | Gray8 | Rgb24 | Rgba32

  datatype RasterPage = RasterPage(width: nat, height: nat, dpiX: nat, dpiY: nat, format: PixelFormat, data: seq<byte>)

  datatype PageError = RowSizeOverflow | ZeroDimension | WrongLength

  function BytesPerRow(format: PixelFormat, width: nat): nat {
    match format case Mono1 => Stride(width) case Gray8 => width case Rgb24 => 3 * width case Rgba32 => 4 * width
  }

  /** Exactly the pages whose dimensions are positive and whose buffer is as long as its rows in 32-bit range say. */
  lemma PageIsValidIff(page: RasterPage)
    ensures Validate(page).Ok? <==>
      var row := match page.format
                 case Mono1 => (page.width + 7) / 8 case Gray8 => page.width case Rgb24 => page.width * 3 case Rgba32 => page.width * 4;
      && row < 0x1_0000_0000 && |page.data| == row * page.height
      && page.width > 0 && page.height > 0 && page.dpiX > 0 && page.dpiY > 0
  {
  }

  /** `RasterPage::validate`: the buffer must be exactly as long as the dimensions say. */
  function Validate(page: RasterPage): Result<(), PageError> {
    var row := BytesPerRow(page.format, page.width);
    if row > U32_MAX then Err(RowSizeOverflow)
    else if page.width == 0 || page.height == 0 || page.dpiX == 0 || page.dpiY == 0 then Err(ZeroDimension)
    else if |page.data| != row * page.height then Err(WrongLength)
    else Ok(())
  }

  /** `mono_page_pixel`. */
  predicate PagePixel(page: RasterPage, x: nat, y: nat) {
    page.format == Mono1 && x < page.width && y < page.height && Black(page.data, Stride(page.width), x, y)
  }

  lemma PagePixelIsMask(page: RasterPage, x: nat, y: nat)
    ensures PagePixel(page, x, y) <==>
      && page.format == Mono1 && x < page.width && y < page.height
      && MaskSet(page.data, y * ((page.width + 7) / 8) + x / 8, x % 8)
  {
    BlackIsMask(page.data, Stride(page.width), x, y);
  }

  /** Drops the rows from `height` on. */
  method CropPageHeight(page: RasterPage, height: nat) returns (r: Result<RasterPage, PageError>)
    requires page.format == Mono1 && Validate(page).Ok?
    ensures r.Ok? <==> height > 0
    ensures r.Ok? ==>
      && r.value.width == page.width && r.value.height == Min(height, page.height) && r.value.format == Mono1
      && r.value.dpiX == page.dpiX && r.value.dpiY == page.dpiY && Validate(r.value).Ok?
      && forall x: nat, y: nat :: PagePixel(r.value, x, y) <==> PagePixel(page, x, y) && y < height
  {
    if height >= page.height {
      return Ok(page);
    }
    var stride := Stride(page.width);
    CropIsPrefix(stride, page.height, height);
    var cropped := page.(data := page.data[..stride * height], height := height);
    var v := Validate(cropped);
    if v.Err? {
      return Err(v.error);
    }
    CroppedPixels(page, cropped);
    return Ok(cropped);
  }

  lemma CroppedPixels(page: RasterPage, cropped: RasterPage)
    requires page.format == Mono1 && |page.data| == Stride(page.width) * page.height
    requires cropped.height <= page.height && 0 <= Stride(page.width) * cropped.height <= |page.data|
    requires cropped == page.(data := page.data[..Stride(page.width) * cropped.height], height := cropped.height)
    ensures forall x: nat, y: nat :: PagePixel(cropped, x, y) <==> PagePixel(page, x, y) && y < cropped.height
  {
    forall x: nat, y: nat ensures PagePixel(cropped, x, y) <==> PagePixel(page, x, y) && y < cropped.height {
      if x < page.width && y < cropped.height {
        CroppedPixel(page.data, cropped.data, Stride(page.width), cropped.height, x, y);
      }
    }
  }

  lemma CroppedPixel(data: seq<byte>, cropped: seq<byte>, stride: nat, height: nat, x: nat, y: nat)
    requires x < 8 * stride && y < height && |cropped| == stride * height && cropped <= data
    ensures Black(cropped, stride, x, y) <==> Black(data, stride, x, y)
  {
    IndexInBuffer(stride, height, x, y);
    var index := y * stride + x / 8;
    assert cropped[index] == data[index];
  }

  lemma CropIsPrefix(stride: nat, height: nat, cropped: nat)
    requires cropped <= height
    ensures 0 <= stride * cropped <= stride * height
  {
    assert stride * height == stride * cropped + stride * (height - cropped);
  }

  /** Bytes in a row of a device-independent bitmap: whole 32-bit words. */
  function DibStride(width: nat): nat { (width + 31) / 32 * 4 }

  const U16_RANGE: nat := 0x1_0000

  datatype Colour = Colour(red: byte, green: byte, blue: byte, alpha: byte)

  /** The weighted sum of the channels. */
  function Weighted(c: Colour): nat { c.red as nat * 299 + c.green as nat * 587 + c.blue as nat * 114 }

  /** What that sum becomes in sixteen bits, where products and sums wrap around. */
  function WrappedSum(c: Colour): nat {
    (c.red as nat * 299 % U16_RANGE + c.green as nat * 587 % U16_RANGE) % U16_RANGE + c.blue as nat * 114
  }

  /** Over white; these terms stay within sixteen bits. */
  function Composited(luminance: nat, alpha: byte): int { (luminance * alpha as int + 255 * (255 - alpha as int)) / 255 }

  predicate DarkColour(c: Colour) { Composited(WrappedSum(c) % U16_RANGE / 1_000, c.alpha) < 128 }

  /** The bytes of a pixel that has whole bytes. */
  function Channels(format: PixelFormat): nat { match format case Rgb24 => 3 case Rgba32 => 4 case _ => 1 }

  lemma BufferLength(page: RasterPage)
    requires Validate(page).Ok? && page.format != Mono1
    ensures |page.data| == Channels(page.format) * page.width * page.height
  {
  }

  /** Where the bytes of a pixel start. */
  function PixelIndex(page: RasterPage, x: nat, y: nat): nat { (y * page.width + x) * Channels(page.format) }

  lemma PixelInBuffer(page: RasterPage, x: nat, y: nat)
    requires Validate(page).Ok? && page.format != Mono1 && x < page.width && y < page.height
    ensures PixelIndex(page, x, y) + Channels(page.format) <= |page.data|
  {
    BufferLength(page);
    hide Validate, Channels;
    PixelFits(page.width, page.height, Channels(page.format), x, y);
  }

  lemma PixelFits(w: nat, h: nat, c: nat, x: nat, y: nat)
    requires x < w && y < h
    ensures (y * w + x) * c + c <= c * w * h
  {
    PixelsBefore(w, h, x, y);
    ScaledAtMost(y * w + x + 1, w * h, c);
    Distributes(y * w + x, c);
    Regroups(w, h, c);
  }

  lemma Distributes(a: nat, c: nat)
    ensures (a + 1) * c == a * c + c
  {
  }

  lemma Regroups(w: nat, h: nat, c: nat)
    ensures w * h * c == c * w * h
  {
  }

  lemma PixelsBefore(w: nat, h: nat, x: nat, y: nat)
    requires x < w && y < h
    ensures y * w + x + 1 <= w * h
  {
    ScaledAtMost(y + 1, h, w);
    Distributes(y, w);
  }

  lemma ScaledAtMost(a: nat, b: nat, c: nat)
    requires a <= b
    ensures a * c <= b * c
  {
    assert b * c == a * c + (b - a) * c;
  }

  function PixelAt(page: RasterPage, x: nat, y: nat): (s: seq<byte>)
    requires Validate(page).Ok? && page.format != Mono1 && x < page.width && y < page.height
    ensures |s| == Channels(page.format)
  {
    PixelInBuffer(page, x, y);
    var index := PixelIndex(page, x, y);
    page.data[index..index + Channels(page.format)]
  }

  predicate DarkPixel(format: PixelFormat, s: seq<byte>)
    requires format != Mono1 && |s| == Channels(format)
  {
    match format
    case Gray8 => s[0] < 128
    case Rgb24 => DarkColour(Colour(s[0], s[1], s[2], 255))
    case Rgba32 => DarkColour(Colour(s[0], s[1], s[2], s[3]))
  }

  /** What the bitmap shows of a pixel of a valid page. */
  predicate Dark(page: RasterPage, x: nat, y: nat)
    requires Validate(page).Ok?
  {
    x < page.width && y < page.height
    && if page.format == Mono1 then Black(page.data, Stride(page.width), x, y) else DarkPixel(page.format, PixelAt(page, x, y))
  }

  /** The page's dark pixels in the rows before `y`, and in row `y` before column `x`. */
  ghost function PageRows(page: RasterPage, y: nat, x: nat): (nat, nat) -> bool
    requires Validate(page).Ok?
  {
    (u: nat, v: nat) => Dark(page, u, v) && (v < y || (v == y && u < x))
  }

  /** The bitmap so far: dark exactly at the dark pixels before this one. */
  ghost predicate DibSoFar(page: RasterPage, white: seq<byte>, data: seq<byte>, y: nat, x: nat)
    requires Validate(page).Ok?
  {
    && |data| == DibStride(page.width) * page.height
    && Painted(white, data, DibStride(page.width), PageRows(page, y, x))
  }

  lemma DibStart(page: RasterPage, white: seq<byte>)
    requires Validate(page).Ok? && |white| == DibStride(page.width) * page.height
    ensures DibSoFar(page, white, white, 0, 0)
  {
    hide Black, Dark, Validate, DibStride;
  }

  lemma DibStep(page: RasterPage, white: seq<byte>, data: seq<byte>, y: nat, x: nat)
    requires Validate(page).Ok? && DibSoFar(page, white, data, y, x) && x < page.width && y < page.height
    ensures x < 8 * DibStride(page.width)
    ensures DibSoFar(page, white, if Dark(page, x, y) then PackedBitSet(data, DibStride(page.width), x, y) else data, y, x + 1)
  {
    WidthFitsStride(page.width);
    hide Black, Dark, Validate, PackedBitSet, Painted, DibStride;
    if Dark(page, x, y) {
      PaintOne(white, data, DibStride(page.width), page.height, x, y, PageRows(page, y, x), PageRows(page, y, x + 1));
    } else {
      PaintNothing(white, data, DibStride(page.width), PageRows(page, y, x), PageRows(page, y, x + 1));
    }
  }

  lemma WidthFitsStride(width: nat)
    ensures width <= 8 * DibStride(width)
  {
  }

  lemma DibRow(page: RasterPage, white: seq<byte>, data: seq<byte>, y: nat)
    requires Validate(page).Ok? && DibSoFar(page, white, data, y, page.width)
    ensures DibSoFar(page, white, data, y + 1, 0)
  {
    DarkIsInside(page);
    hide Black, Dark, Validate, Painted, DibStride;
    PaintNothing(white, data, DibStride(page.width), PageRows(page, y, page.width), PageRows(page, y + 1, 0));
  }

  lemma DibEnd(page: RasterPage, white: seq<byte>, data: seq<byte>)
    requires Validate(page).Ok? && DibSoFar(page, white, data, page.height, 0)
    requires forall x: nat, y: nat :: !Black(white, DibStride(page.width), x, y)
    ensures forall x: nat, y: nat :: x < 8 * DibStride(page.width) ==> (Black(data, DibStride(page.width), x, y) <==> Dark(page, x, y))
  {
    DarkIsInside(page);
    hide Black, Dark, Validate, DibStride;
  }

  lemma DarkIsInside(page: RasterPage)
    requires Validate(page).Ok?
    ensures forall x: nat, y: nat :: Dark(page, x, y) ==> x < page.width && y < page.height
  {
    hide Black, DarkPixel, Validate;
  }

  /** The value of a byte of the buffer. */
  function Value(data: seq<byte>, i: nat): nat { if i < |data| then data[i] as nat else 0 }

  /** Rec. 601 luminance in sixteen bits. */
  function Luminance16(data: seq<byte>, i: nat): nat {
    Sixteen(Value(data, i), Value(data, i + 1), Value(data, i + 2))
  }

  /** When a pixel prints black, read off the bytes of the page. */
  predicate PrintsBlack(page: RasterPage, x: nat, y: nat) {
    x < page.width && y < page.height &&
    match page.format
    case Mono1 => MaskSet(page.data, y * ((page.width + 7) / 8) + x / 8, x % 8)
    case Gray8 => Value(page.data, y * page.width + x) < 128
    case Rgb24 => Luminance16(page.data, (y * page.width + x) * 3) < 128
    case Rgba32 =>
      var i := (y * page.width + x) * 4;
      (Luminance16(page.data, i) * Value(page.data, i + 3) + 255 * (255 - Value(page.data, i + 3))) / 255 < 128
  }

  function Sixteen(r: nat, g: nat, b: nat): nat { (r * 299 + g * 587 + b * 114) % 65_536 / 1_000 }

  lemma WrapsOnce(a: nat, b: nat)
    ensures (a % U16_RANGE + b) % U16_RANGE == (a + b) % U16_RANGE
  {
  }

  lemma SumWraps(c: Colour)
    ensures WrappedSum(c) % U16_RANGE / 1_000 == Sixteen(c.red as nat, c.green as nat, c.blue as nat)
  {
    var r, g, b := c.red as nat * 299, c.green as nat * 587, c.blue as nat * 114;
    WrapsOnce(r % U16_RANGE + g % U16_RANGE, b);
    WrapsOnce(r, g % U16_RANGE + b);
    WrapsOnce(g, r + b);
  }

  lemma OpaqueColour(c: Colour)
    requires c.alpha == 255
    ensures DarkColour(c) <==> Sixteen(c.red as nat, c.green as nat, c.blue as nat) < 128
  {
    SumWraps(c);
    hide WrappedSum, Sixteen;
    var luminance := Sixteen(c.red as nat, c.green as nat, c.blue as nat);
    assert Composited(luminance, 255) == luminance;
  }

  lemma TranslucentColour(c: Colour)
    ensures DarkColour(c) <==>
      (Sixteen(c.red as nat, c.green as nat, c.blue as nat) * c.alpha as nat + 255 * (255 - c.alpha as nat)) / 255 < 128
  {
    SumWraps(c);
    hide WrappedSum, Sixteen;
    CompositedIs(Sixteen(c.red as nat, c.green as nat, c.blue as nat), c.alpha);
  }

  lemma DarkPrintsBlack(page: RasterPage, x: nat, y: nat)
    requires Validate(page).Ok?
    ensures Dark(page, x, y) <==> PrintsBlack(page, x, y)
  {
    if x < page.width && y < page.height {
      if page.format == Mono1 {
        BlackIsMask(page.data, Stride(page.width), x, y);
        hide Black, MaskSet;
      } else {
        PixelInBuffer(page, x, y);
        ColourPrintsBlack(page, x, y);
      }
    }
  }

  lemma ColourPrintsBlack(page: RasterPage, x: nat, y: nat)
    requires Validate(page).Ok? && page.format != Mono1 && x < page.width && y < page.height
    ensures DarkPixel(page.format, PixelAt(page, x, y)) <==> PrintsBlack(page, x, y)
  {
    PixelInBuffer(page, x, y);
    PixelIsSlice(page, x, y);
    ColourIsDark(page.format, page.data, PixelIndex(page, x, y));
    IndexIs(page, x, y);
    hide Validate, DarkPixel, PixelAt, Luminance16, PixelIndex, Value;
  }

  lemma IndexIs(page: RasterPage, x: nat, y: nat)
    ensures PixelIndex(page, x, y) ==
      match page.format
      case Rgb24 => (y * page.width + x) * 3
      case Rgba32 => (y * page.width + x) * 4
      case _ => y * page.width + x
  {
  }

  lemma PixelIsSlice(page: RasterPage, x: nat, y: nat)
    requires Validate(page).Ok? && page.format != Mono1 && x < page.width && y < page.height
    ensures PixelIndex(page, x, y) + Channels(page.format) <= |page.data|
    ensures PixelAt(page, x, y) == page.data[PixelIndex(page, x, y)..PixelIndex(page, x, y) + Channels(page.format)]
  {
    PixelInBuffer(page, x, y);
    hide Validate, Channels, PixelIndex;
  }

  lemma SliceValue(data: seq<byte>, i: nat, n: nat, k: nat)
    requires i + n <= |data| && k < n
    ensures data[i..i + n][k] as nat == Value(data, i + k)
  {
  }

  lemma ColourIsDark(format: PixelFormat, data: seq<byte>, i: nat)
    requires format != Mono1 && i + Channels(format) <= |data|
    ensures DarkPixel(format, data[i..i + Channels(format)]) <==>
      match format
      case Gray8 => Value(data, i) < 128
      case Rgb24 => Luminance16(data, i) < 128
      case Rgba32 => (Luminance16(data, i) * Value(data, i + 3) + 255 * (255 - Value(data, i + 3))) / 255 < 128
  {
    hide DarkColour, Sixteen;
    var s := data[i..i + Channels(format)];
    SliceValue(data, i, |s|, 0);
    if format != Gray8 {
      SliceValue(data, i, |s|, 1);
      SliceValue(data, i, |s|, 2);
    }
    match format {
      case Gray8 =>
      case Rgb24 => OpaqueColour(Colour(s[0], s[1], s[2], 255));
      case Rgba32 =>
        SliceValue(data, i, |s|, 3);
        TranslucentColour(Colour(s[0], s[1], s[2], s[3]));
    }
  }

  lemma CompositedIs(luminance: nat, alpha: byte)
    ensures Composited(luminance, alpha) == (luminance * alpha as nat + 255 * (255 - alpha as nat)) / 255
  {
  }

  /** Rows of whole 32-bit words in which exactly the bits of the pixels that print black are set. */
  ghost predicate DibShows(page: RasterPage, data: seq<byte>) {
    forall x: nat, y: nat :: x < (page.width + 31) / 32 * 32 ==>
      (MaskSet(data, y * ((page.width + 31) / 32 * 4) + x / 8, x % 8) <==> PrintsBlack(page, x, y))
  }

  /**
   Packs a page with 32-bit aligned rows: one-bit pixels are kept, gray ones are black below the middle, colours
   by their luminance over white as sixteen-bit arithmetic computes it. Every padding bit is clear.
   */
  method MakeTopDownDib(page: RasterPage) returns (output: array<byte>)
    requires Validate(page).Ok?
    ensures fresh(output) && output.Length == DibStride(page.width) * page.height
    ensures forall x: nat, y: nat :: x < 8 * DibStride(page.width) ==>
      (Black(output[..], DibStride(page.width), x, y) <==> Dark(page, x, y))
    ensures DibShows(page, output[..])
  {
    var dibStride := DibStride(page.width);
    output := new byte[dibStride * page.height](_ => 0);
    ghost var white := output[..];
    AllWhite(white, dibStride);
    hide Black, PackedBitSet, Dark, PageBit, Validate, DibSoFar, DibStride, DibShows;
    DibStart(page, white);
    for y := 0 to page.height
      invariant DibSoFar(page, white, output[..], y, 0)
    {
      for x := 0 to page.width
        invariant DibSoFar(page, white, output[..], y, x)
      {
        DibStep(page, white, output[..], y, x);
        PageBitIsDark(page, x, y);
        if PageBit(page, x, y) {
          SetBitIn(output, dibStride, page.height, x, y);
        }
      }
      DibRow(page, white, output[..], y);
    }
    DibEnd(page, white, output[..]);
    DibIsMasks(page, output[..]);
  }

  lemma DibIsMasks(page: RasterPage, data: seq<byte>)
    requires Validate(page).Ok?
    requires forall x: nat, y: nat :: x < 8 * DibStride(page.width) ==> (Black(data, DibStride(page.width), x, y) <==> Dark(page, x, y))
    ensures DibShows(page, data)
  {
    hide Black, Dark, MaskSet, PrintsBlack, Validate;
    forall x: nat, y: nat | x < (page.width + 31) / 32 * 32
      ensures MaskSet(data, y * ((page.width + 31) / 32 * 4) + x / 8, x % 8) <==> PrintsBlack(page, x, y)
    {
      BlackIsMask(data, DibStride(page.width), x, y);
      DarkPrintsBlack(page, x, y);
    }
  }

  /** Whether a pixel of a valid page comes out black. */
  predicate PageBit(page: RasterPage, x: nat, y: nat)
    requires Validate(page).Ok? && x < page.width && y < page.height
  {
    if page.format == Mono1 then
      MonoInBuffer(page, x, y);
      Bit(page.data[y * Stride(page.width) + x / 8], x % 8)
    else DarkPixel(page.format, PixelAt(page, x, y))
  }

  lemma PageBitIsDark(page: RasterPage, x: nat, y: nat)
    requires Validate(page).Ok? && x < page.width && y < page.height
    ensures PageBit(page, x, y) <==> Dark(page, x, y)
  {
    hide Validate, Stride, Bit, DarkPixel, PixelAt;
    if page.format == Mono1 {
      MonoInBuffer(page, x, y);
    }
  }

  lemma MonoInBuffer(page: RasterPage, x: nat, y: nat)
    requires Validate(page).Ok? && page.format == Mono1 && x < page.width && y < page.height
    ensures y * Stride(page.width) + x / 8 < |page.data|
  {
    IndexInBuffer(Stride(page.width), page.height, x, y);
  }

  method SetBitIn(output: array<byte>, stride: nat, height: nat, x: nat, y: nat)
    requires output.Length == stride * height && x < 8 * stride && y < height
    modifies output
    ensures output[..] == PackedBitSet(old(output[..]), stride, x, y)
  {
    IndexInBuffer(stride, height, x, y);
    var index := y * stride + x / 8;
    output[index] := WithBit(output[index], x % 8);
  }

  lemma AllWhite(data: seq<byte>, stride: nat)
    requires forall i :: 0 <= i < |data| ==> data[i] == 0
    ensures forall x: nat, y: nat :: !Black(data, stride, x, y)
  {
    forall x: nat, y: nat ensures !Black(data, stride, x, y) {
      NoBits(x % 8);
    }
  }

  // ---------- What sixteen bits do to colours ----------

  /** A sixteen-bit luminance is at most 65, so every opaque colour comes out black, white included. */
  lemma OpaqueIsAlwaysBlack(c: Colour)
    requires c.alpha == 255
    ensures DarkColour(c)
  {
    var luminance := WrappedSum(c) % U16_RANGE / 1_000;
    assert luminance <= 65;
  }

  /** The exact condition: an opaque colour comes out as its luminance says if and only if it is a dark one. */
  lemma OpaqueShowsItsLuminanceIffDark(c: Colour)
    requires c.alpha == 255
    ensures (DarkColour(c) <==> Composited(Weighted(c) / 1_000, c.alpha) < 128) <==> Weighted(c) < 128_000
  {
    OpaqueIsAlwaysBlack(c);
    var luminance := Weighted(c) / 1_000;
    assert Composited(luminance, 255) == luminance;
  }

  /** So the bitmap of a colour page without transparency is black from edge to edge. */
  lemma OpaquePagesPrintSolidBlack(page: RasterPage, x: nat, y: nat)
    requires Validate(page).Ok? && page.format == Rgb24 && x < page.width && y < page.height
    ensures Dark(page, x, y)
  {
    var s := PixelAt(page, x, y);
    OpaqueIsAlwaysBlack(Colour(s[0], s[1], s[2], 255));
    hide DarkColour, PixelAt, Validate;
  }
}
