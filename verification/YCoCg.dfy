/** The YCoCg-R colour transform (libxpp/XppYCoCgR.c): the lossless 16-bit form. */
module YCoCg {
  import Bytes
  import opened Planes

  type Byte = Bytes.Byte

  datatype Pixel = Pixel(b: int, g: int, r: int)

  datatype Ycc = Ycc(y: int, co: int, cg: int)

  /** The lifting steps; shifting right rounds down, as division here does. */
  function Forward(p: Pixel): Ycc {
    var co := p.r - p.b;
    var t := p.b + co / 2;
    var cg := p.g - t;
    Ycc(t + cg / 2, co, cg)
  }

  function Clamp(v: int): Byte {
    if v < 0 then 0 else if v > 255 then 255 else v
  }

  /** The lifting steps undone, and the result forced into a byte. */
  function Backward(c: Ycc): Pixel {
    var t := c.y - c.cg / 2;
    var g := c.cg + t;
    var b := t - c.co / 2;
    Pixel(Clamp(b), Clamp(g), Clamp(b + c.co))
  }

  predicate IsRgb(p: Pixel) {
    0 <= p.b < 256 && 0 <= p.g < 256 && 0 <= p.r < 256
  }

  /** Lifting loses nothing, and its three results fit 8 and 9 bits. */
  lemma LiftingInverts(p: Pixel)
    requires IsRgb(p)
    ensures Backward(Forward(p)) == p
    ensures 0 <= Forward(p).y < 256 && -255 <= Forward(p).co <= 255 && -255 <= Forward(p).cg <= 255
  {
  }

  /** What the three samples are: orange is red less blue, green is green less the mean of red and blue, rounded up, and
      luma is a quarter of red, blue and twice green, rounded down. */
  lemma SamplesMean(p: Pixel)
    ensures Forward(p).co == p.r - p.b
    ensures 0 <= 2 * Forward(p).cg - (2 * p.g - p.r - p.b) <= 1
    ensures 0 <= p.r + 2 * p.g + p.b - 4 * Forward(p).y <= 3
  {
  }

  /** Any three samples are those of one colour, and what is decoded is the byte nearest to it in each part. */
  lemma NearestDecoded(c: Ycc) returns (p: Pixel)
    ensures Forward(p) == c
    ensures Nearest(Backward(c).b, p.b) && Nearest(Backward(c).g, p.g) && Nearest(Backward(c).r, p.r)
  {
    var t := c.y - c.cg / 2;
    var b := t - c.co / 2;
    p := Pixel(b, c.cg + t, b + c.co);
  }

  /** No byte is nearer. */
  predicate Nearest(byte: int, v: int) {
    0 <= byte <= 255 && (byte < v ==> byte == 255) && (byte > v ==> byte == 0)
  }

  function PixelAt(src: seq<Byte>, at: nat): (p: Pixel)
    requires at + 4 <= |src|
    ensures IsRgb(p)
  {
    Pixel(src[at], src[at + 1], src[at + 2])
  }

  /** The bytes of a pixel as stored: blue, green, red and an opaque alpha. */
  function Stored(p: Pixel): (bs: seq<Byte>)
    ensures |bs| == 4
  {
    [Clamp(p.b), Clamp(p.g), Clamp(p.r), 0xFF]
  }

  /** A row of pixels as stored. */
  function StoredRow(pixels: seq<Pixel>): (bs: seq<Byte>)
    ensures |bs| == 4 * |pixels|
  {
    if |pixels| == 0 then [] else StoredRow(pixels[..|pixels| - 1]) + Stored(pixels[|pixels| - 1])
  }

  lemma StoredOne(pixels: seq<Pixel>, p: Pixel)
    ensures StoredRow(pixels + [p]) == StoredRow(pixels) + Stored(p)
  {
    assert (pixels + [p])[..|pixels|] == pixels;
  }

  lemma {:induction false} StoredMore(a: seq<Pixel>, b: seq<Pixel>)
    ensures StoredRow(a + b) == StoredRow(a) + StoredRow(b)
    decreases |b|
  {
    if |b| == 0 {
      assert a + b == a;
    } else {
      var rest, p := b[..|b| - 1], b[|b| - 1];
      assert a + b == (a + rest) + [p] && b == rest + [p];
      StoredOne(a + rest, p);
      StoredOne(rest, p);
      StoredMore(a, rest);
    }
  }

  lemma {:induction false} StoredAt(pixels: seq<Pixel>, x: nat)
    requires x < |pixels|
    ensures StoredRow(pixels)[4 * x..4 * x + 4] == Stored(pixels[x])
  {
    var last := |pixels| - 1;
    if x < last {
      StoredAt(pixels[..last], x);
      assert StoredRow(pixels)[4 * x..4 * x + 4] == StoredRow(pixels[..last])[4 * x..4 * x + 4];
    }
  }

  // ----- 16 bits, lossless

  /** One of the three planes. */
  datatype Channel = Luma | Orange | Green

  function Pick(ch: Channel, c: Ycc): int {
    match ch
    case Luma => c.y
    case Orange => c.co
    case Green => c.cg
  }

  /** What one plane holds of `n` pixels; luma is shifted to be signed. */
  function PlaneRow(ch: Channel, src: seq<Byte>, from: nat, n: nat): (row: seq<int>)
    requires from + 4 * n <= |src|
    ensures |row| == n
  {
    seq(n, x requires 0 <= x < n => Sample(ch, PixelAt(src, from + 4 * x)))
  }

  function Sample(ch: Channel, p: Pixel): int {
    Pick(ch, Forward(p)) - if ch.Luma? then 128 else 0
  }

  function PlaneRows(ch: Channel, src: seq<Byte>, step: nat, width: nat, height: nat): (rows: seq<seq<int>>)
    requires Fits(|src|, step, 4 * width, height)
    ensures |rows| == height && Even(rows, width)
  {
    seq(height, r requires 0 <= r < height =>
      (RowFits(|src|, step, 4 * width, height, r); PlaneRow(ch, src, Off(step, r), width)))
  }

  /** A 32-bit value stored in 16 bits. */
  function ToInt16(v: int): int {
    (v + 0x8000) % 0x1_0000 - 0x8000
  }

  lemma SampleFits(ch: Channel, p: Pixel)
    requires IsRgb(p)
    ensures ToInt16(Sample(ch, p)) == Sample(ch, p)
  {
    LiftingInverts(p);
    hide Forward;
    FitsInt16(Sample(ch, p));
  }

  lemma FitsInt16(v: int)
    requires -0x8000 <= v < 0x8000
    ensures ToInt16(v) == v
  {
  }

  /** One row of pixels into the three planes. */
  method EncodeRow(src: seq<Byte>, from: nat, width: nat, pY: array<int>, iY: nat, pCo: array<int>, iCo: nat,
                   pCg: array<int>, iCg: nat)
    requires from + 4 * width <= |src| && pY != pCo && pY != pCg && pCo != pCg
    requires iY + width <= pY.Length && iCo + width <= pCo.Length && iCg + width <= pCg.Length
    modifies pY, pCo, pCg
    ensures pY[..] == Put(old(pY[..]), iY, PlaneRow(Luma, src, from, width))
    ensures pCo[..] == Put(old(pCo[..]), iCo, PlaneRow(Orange, src, from, width))
    ensures pCg[..] == Put(old(pCg[..]), iCg, PlaneRow(Green, src, from, width))
  {
    hide Put, PlaneRow, Sample, PixelAt, ToInt16, Forward;
    ghost var y0, co0, cg0 := pY[..], pCo[..], pCg[..];
    NoSamples(src, from, y0, iY);
    NoSamples(src, from, co0, iCo);
    NoSamples(src, from, cg0, iCg);
    var s := from;
    for x := 0 to width
      invariant s == from + 4 * x
      invariant pY[..] == Put(y0, iY, PlaneRow(Luma, src, from, x))
      invariant pCo[..] == Put(co0, iCo, PlaneRow(Orange, src, from, x))
      invariant pCg[..] == Put(cg0, iCg, PlaneRow(Green, src, from, x))
    {
      var b: int, g: int, r: int := src[s], src[s + 1], src[s + 2];
      s := s + 4;
      var co := r - b;
      var t := b + co / 2;
      var cg := g - t;
      var y := t + cg / 2;
      y := y - 128;
      ReadPixel(src, s - 4);
      Samples(b, g, r, y, co, cg);
      MoreSamples(Luma, src, from, x, y0, iY);
      MoreSamples(Orange, src, from, x, co0, iCo);
      MoreSamples(Green, src, from, x, cg0, iCg);
      pY[iY + x] := ToInt16(y);
      pCo[iCo + x] := ToInt16(co);
      pCg[iCg + x] := ToInt16(cg);
    }
  }

  lemma NoSamples(src: seq<Byte>, from: nat, plane: seq<int>, i: nat)
    requires from <= |src| && i <= |plane|
    ensures forall ch: Channel :: Put(plane, i, PlaneRow(ch, src, from, 0)) == plane
  {
  }

  lemma ReadPixel(src: seq<Byte>, at: nat)
    requires at + 4 <= |src|
    ensures PixelAt(src, at) == Pixel(src[at], src[at + 1], src[at + 2])
  {
  }

  lemma Samples(b: int, g: int, r: int, y: int, co: int, cg: int)
    requires IsRgb(Pixel(b, g, r))
    requires co == r - b && cg == g - (b + co / 2) && y == b + co / 2 + cg / 2 - 128
    ensures var p := Pixel(b, g, r);
            ToInt16(y) == Sample(Luma, p) && ToInt16(co) == Sample(Orange, p) && ToInt16(cg) == Sample(Green, p)
  {
    var p := Pixel(b, g, r);
    ForwardIs(b, g, r, y, co, cg);
    hide ToInt16, Forward;
    SampleFits(Luma, p);
    SampleFits(Orange, p);
    SampleFits(Green, p);
  }

  lemma ForwardIs(b: int, g: int, r: int, y: int, co: int, cg: int)
    requires co == r - b && cg == g - (b + co / 2) && y == b + co / 2 + cg / 2 - 128
    ensures Forward(Pixel(b, g, r)) == Ycc(y + 128, co, cg)
  {
  }

  lemma MoreSamples(ch: Channel, src: seq<Byte>, from: nat, x: nat, plane: seq<int>, i: nat)
    requires from + 4 * (x + 1) <= |src| && i + x < |plane|
    ensures Put(plane, i, PlaneRow(ch, src, from, x))[i + x := Sample(ch, PixelAt(src, from + 4 * x))]
         == Put(plane, i, PlaneRow(ch, src, from, x + 1))
  {
    hide Sample, PixelAt;
    assert PlaneRow(ch, src, from, x + 1) == PlaneRow(ch, src, from, x) + [Sample(ch, PixelAt(src, from + 4 * x))];
    PutOne(plane, i, PlaneRow(ch, src, from, x), Sample(ch, PixelAt(src, from + 4 * x)));
  }

  /** Interleaved pixels to three 16-bit planes. */
  method Encode(src: seq<Byte>, srcStep: nat, pY: array<int>, stepY: nat, pCo: array<int>, stepCo: nat,
                pCg: array<int>, stepCg: nat, width: nat, height: nat)
    requires pY != pCo && pY != pCg && pCo != pCg && Fits(|src|, srcStep, 4 * width, height)
    requires Fits(pY.Length, stepY, width, height) && Fits(pCo.Length, stepCo, width, height)
    requires Fits(pCg.Length, stepCg, width, height)
    modifies pY, pCo, pCg
    ensures pY[..] == Painted(old(pY[..]), stepY, PlaneRows(Luma, src, srcStep, width, height), width, height)
    ensures pCo[..] == Painted(old(pCo[..]), stepCo, PlaneRows(Orange, src, srcStep, width, height), width, height)
    ensures pCg[..] == Painted(old(pCg[..]), stepCg, PlaneRows(Green, src, srcStep, width, height), width, height)
  {
    ghost var ys, cos := PlaneRows(Luma, src, srcStep, width, height), PlaneRows(Orange, src, srcStep, width, height);
    ghost var cgs := PlaneRows(Green, src, srcStep, width, height);
    hide Put, PlaneRow, Off, Fits, Even;
    ghost var y0, co0, cg0 := pY[..], pCo[..], pCg[..];
    var s, iY, iCo, iCg := 0, 0, 0, 0;
    ZeroOff(srcStep);
    ZeroOff(stepY);
    ZeroOff(stepCo);
    ZeroOff(stepCg);
    for r := 0 to height
      invariant s == Off(srcStep, r) && iY == Off(stepY, r) && iCo == Off(stepCo, r) && iCg == Off(stepCg, r)
      invariant pY[..] == Painted(y0, stepY, ys, width, r)
      invariant pCo[..] == Painted(co0, stepCo, cos, width, r)
      invariant pCg[..] == Painted(cg0, stepCg, cgs, width, r)
    {
      RowFits(|src|, srcStep, 4 * width, height, r);
      RowFits(pY.Length, stepY, width, height, r);
      RowFits(pCo.Length, stepCo, width, height, r);
      RowFits(pCg.Length, stepCg, width, height, r);
      EncodeRow(src, s, width, pY, iY, pCo, iCo, pCg, iCg);
      OffNext(srcStep, r);
      OffNext(stepY, r);
      OffNext(stepCo, r);
      OffNext(stepCg, r);
      s, iY, iCo, iCg := s + srcStep, iY + stepY, iCo + stepCo, iCg + stepCg;
    }
  }

  lemma ZeroOff(step: nat)
    ensures Off(step, 0) == 0
  {
  }

  /** Three planes with their steps. */
  datatype Picture = Picture(y: seq<int>, stepY: nat, co: seq<int>, stepCo: nat, cg: seq<int>, stepCg: nat)

  predicate PictureFits(pic: Picture, width: nat, height: nat) {
    && Fits(|pic.y|, pic.stepY, width, height) && Fits(|pic.co|, pic.stepCo, width, height)
    && Fits(|pic.cg|, pic.stepCg, width, height)
  }

  lemma PictureRow(pic: Picture, width: nat, height: nat, r: nat)
    requires PictureFits(pic, width, height) && r < height
    ensures Off(pic.stepY, r) + width <= |pic.y| && Off(pic.stepCo, r) + width <= |pic.co|
    ensures Off(pic.stepCg, r) + width <= |pic.cg|
  {
    RowFits(|pic.y|, pic.stepY, width, height, r);
    RowFits(|pic.co|, pic.stepCo, width, height, r);
    RowFits(|pic.cg|, pic.stepCg, width, height, r);
  }

  /** The first `n` pixels of a row of a picture. */
  function PixelRow(pic: Picture, r: nat, n: nat): (row: seq<Pixel>)
    requires Off(pic.stepY, r) + n <= |pic.y| && Off(pic.stepCo, r) + n <= |pic.co| &&
             Off(pic.stepCg, r) + n <= |pic.cg|
    ensures |row| == n
  {
    seq(n, x requires 0 <= x < n =>
      Backward(Ycc(pic.y[Off(pic.stepY, r) + x] + 128, pic.co[Off(pic.stepCo, r) + x], pic.cg[Off(pic.stepCg, r) + x])))
  }

  function StoredRows(pic: Picture, width: nat, height: nat): (rows: seq<seq<Byte>>)
    requires PictureFits(pic, width, height)
    ensures |rows| == height && Even(rows, 4 * width)
  {
    seq(height, r requires 0 <= r < height => (PictureRow(pic, width, height, r); StoredRow(PixelRow(pic, r, width))))
  }

  /** Writes the four bytes of a pixel. */
  method StorePixel(rgb: array<Byte>, d: nat, ghost p: Pixel, b: Byte, g: Byte, r: Byte)
    requires d + 4 <= rgb.Length && p == Pixel(b, g, r)
    modifies rgb
    ensures rgb[..] == Put(old(rgb[..]), d, Stored(p))
  {
    rgb[d], rgb[d + 1], rgb[d + 2], rgb[d + 3] := b, g, r, 0xFF;
    assert rgb[..] == Put(old(rgb[..]), d, Stored(p));
  }

  method DecodeRow(pic: Picture, iY: nat, iCo: nat, iCg: nat, ghost row: nat, rgb: array<Byte>, d0: nat, width: nat)
    requires iY == Off(pic.stepY, row) && iCo == Off(pic.stepCo, row) && iCg == Off(pic.stepCg, row)
    requires iY + width <= |pic.y| && iCo + width <= |pic.co| && iCg + width <= |pic.cg| && d0 + 4 * width <= rgb.Length
    modifies rgb
    ensures rgb[..] == Put(old(rgb[..]), d0, StoredRow(PixelRow(pic, row, width)))
  {
    hide Put, PixelRow, Stored, StoredRow, Backward, Clamp, Off;
    ghost var before := rgb[..];
    var d := d0;
    NoPixels(pic, row, before, d0);
    for x := 0 to width
      invariant d == d0 + 4 * x && rgb[..] == Put(before, d0, StoredRow(PixelRow(pic, row, x)))
    {
      var y, co, cg := pic.y[iY + x], pic.co[iCo + x], pic.cg[iCg + x];
      y := y + 128;
      var t := y - cg / 2;
      var g := cg + t;
      var b := t - co / 2;
      var r := b + co;
      ghost var p := Lowered(y, co, cg, b, g, r);
      StorePixel(rgb, d, p, Clamp(b), Clamp(g), Clamp(r));
      MorePixels(pic, row, x, p, before, d0);
      d := d + 4;
    }
  }

  lemma Lowered(y: int, co: int, cg: int, b: int, g: int, r: int) returns (p: Pixel)
    requires g == cg + (y - cg / 2) && b == y - cg / 2 - co / 2 && r == b + co
    ensures p == Backward(Ycc(y, co, cg)) == Pixel(Clamp(b), Clamp(g), Clamp(r))
  {
    p := Backward(Ycc(y, co, cg));
  }

  lemma NoPixels(pic: Picture, r: nat, before: seq<Byte>, d: nat)
    requires Off(pic.stepY, r) <= |pic.y| && Off(pic.stepCo, r) <= |pic.co| && Off(pic.stepCg, r) <= |pic.cg|
    requires d <= |before|
    ensures Put(before, d, StoredRow(PixelRow(pic, r, 0))) == before
  {
    assert |PixelRow(pic, r, 0)| == 0;
    hide PixelRow, Off;
    PutNothing(before, d);
  }

  lemma MorePixels(pic: Picture, r: nat, x: nat, p: Pixel, before: seq<Byte>, d: nat)
    requires Off(pic.stepY, r) + x < |pic.y| && Off(pic.stepCo, r) + x < |pic.co| && Off(pic.stepCg, r) + x < |pic.cg|
    requires d + 4 * (x + 1) <= |before|
    requires p == Backward(Ycc(pic.y[Off(pic.stepY, r) + x] + 128, pic.co[Off(pic.stepCo, r) + x],
                               pic.cg[Off(pic.stepCg, r) + x]))
    ensures Put(Put(before, d, StoredRow(PixelRow(pic, r, x))), d + 4 * x, Stored(p))
         == Put(before, d, StoredRow(PixelRow(pic, r, x + 1)))
  {
    hide Off, Backward, Put, StoredRow, Stored;
    assert PixelRow(pic, r, x + 1) == PixelRow(pic, r, x) + [p];
    StoredOne(PixelRow(pic, r, x), p);
    PutMore(before, d, StoredRow(PixelRow(pic, r, x)), Stored(p));
  }

  /** Three 16-bit planes to interleaved pixels. */
  method Decode(pic: Picture, rgb: array<Byte>, dstStep: nat, width: nat, height: nat)
    requires PictureFits(pic, width, height) && Fits(rgb.Length, dstStep, 4 * width, height)
    modifies rgb
    ensures rgb[..] == Painted(old(rgb[..]), dstStep, StoredRows(pic, width, height), 4 * width, height)
  {
    ghost var rows, before := StoredRows(pic, width, height), rgb[..];
    hide Put, PixelRow, StoredRow, Off, Fits, Even, PictureFits;
    var iY, iCo, iCg, d := 0, 0, 0, 0;
    ZeroOff(pic.stepY);
    ZeroOff(pic.stepCo);
    ZeroOff(pic.stepCg);
    ZeroOff(dstStep);
    for r := 0 to height
      invariant iY == Off(pic.stepY, r) && iCo == Off(pic.stepCo, r) && iCg == Off(pic.stepCg, r) &&
                d == Off(dstStep, r)
      invariant rgb[..] == Painted(before, dstStep, rows, 4 * width, r)
    {
      PictureRow(pic, width, height, r);
      RowFits(rgb.Length, dstStep, 4 * width, height, r);
      DecodeRow(pic, iY, iCo, iCg, r, rgb, d, width);
      OffNext(pic.stepY, r);
      OffNext(pic.stepCo, r);
      OffNext(pic.stepCg, r);
      OffNext(dstStep, r);
      iY, iCo, iCg, d := iY + pic.stepY, iCo + pic.stepCo, iCg + pic.stepCg, d + dstStep;
    }
  }

  /** What `Encode` leaves in three planes. */
  function Encoded(src: seq<Byte>, srcStep: nat, planes: Picture, width: nat, height: nat): (pic: Picture)
    requires Fits(|src|, srcStep, 4 * width, height) && PictureFits(planes, width, height)
    ensures PictureFits(pic, width, height)
  {
    Picture(Painted(planes.y, planes.stepY, PlaneRows(Luma, src, srcStep, width, height), width, height), planes.stepY,
            Painted(planes.co, planes.stepCo, PlaneRows(Orange, src, srcStep, width, height), width, height),
                planes.stepCo,
            Painted(planes.cg, planes.stepCg, PlaneRows(Green, src, srcStep, width, height), width, height),
                planes.stepCg)
  }

  /** Decoding what was encoded gives every pixel back, with an opaque alpha, whatever the steps. */
  lemma RoundTrip(src: seq<Byte>, srcStep: nat, planes: Picture, rgb: seq<Byte>, dstStep: nat, width: nat,
                  height: nat, r: nat, x: nat)
    requires Fits(|src|, srcStep, 4 * width, height) && PictureFits(planes, width, height)
    requires width <= planes.stepY && width <= planes.stepCo && width <= planes.stepCg
    requires Fits(|rgb|, dstStep, 4 * width, height) && 4 * width <= dstStep && r < height && x < width
    ensures var pic := Encoded(src, srcStep, planes, width, height);
            var after := Painted(rgb, dstStep, StoredRows(pic, width, height), 4 * width, height);
            var from, d := Off(srcStep, r) + 4 * x, Off(dstStep, r) + 4 * x;
            && from + 4 <= |src| && d + 4 <= |after|
            && after[d..d + 4] == [src[from], src[from + 1], src[from + 2], 0xFF]
  {
    hide Painted, PixelRow, Encoded, StoredRow, PictureFits, Off, PlaneRows;
    var pic := Encoded(src, srcStep, planes, width, height);
    var rows := StoredRows(pic, width, height);
    Recovered(src, srcStep, planes, width, height, r, x);
    StoredRowsAt(pic, width, height, r, x);
    PaintedSlice(rgb, dstStep, rows, 4 * width, height, r, 4 * x, 4 * x + 4);
  }

  lemma StoredRowsAt(pic: Picture, width: nat, height: nat, r: nat, x: nat)
    requires PictureFits(pic, width, height) && r < height && x < width
    ensures Off(pic.stepY, r) + width <= |pic.y| && Off(pic.stepCo, r) + width <= |pic.co|
    ensures Off(pic.stepCg, r) + width <= |pic.cg|
    ensures StoredRows(pic, width, height)[r][4 * x..4 * x + 4] == Stored(PixelRow(pic, r, width)[x])
  {
    PictureRow(pic, width, height, r);
    assert StoredRows(pic, width, height)[r] == StoredRow(PixelRow(pic, r, width));
    hide StoredRows, PixelRow, Stored, StoredRow;
    StoredAt(PixelRow(pic, r, width), x);
  }

  lemma Recovered(src: seq<Byte>, srcStep: nat, planes: Picture, width: nat, height: nat, r: nat, x: nat)
    requires Fits(|src|, srcStep, 4 * width, height) && PictureFits(planes, width, height)
    requires width <= planes.stepY && width <= planes.stepCo && width <= planes.stepCg && r < height && x < width
    ensures var pic := Encoded(src, srcStep, planes, width, height);
            var from := Off(srcStep, r) + 4 * x;
            && Off(pic.stepY, r) + width <= |pic.y| && Off(pic.stepCo, r) + width <= |pic.co|
            && Off(pic.stepCg, r) + width <= |pic.cg|
            && from + 4 <= |src| && PixelRow(pic, r, width)[x] == PixelAt(src, from)
            && Stored(PixelRow(pic, r, width)[x]) == [src[from], src[from + 1], src[from + 2], 0xFF]
  {
    hide Forward, Backward, PictureFits, Painted, PlaneRows, Off, Encoded;
    var pic := Encoded(src, srcStep, planes, width, height);
    RowFits(|src|, srcStep, 4 * width, height, r);
    PictureRow(pic, width, height, r);
    EncodedAt(src, srcStep, planes, width, height, r, x);
    LiftingInverts(PixelAt(src, Off(srcStep, r) + 4 * x));
  }

  lemma EncodedAt(src: seq<Byte>, srcStep: nat, planes: Picture, width: nat, height: nat, r: nat, x: nat)
    requires Fits(|src|, srcStep, 4 * width, height) && PictureFits(planes, width, height)
    requires width <= planes.stepY && width <= planes.stepCo && width <= planes.stepCg && r < height && x < width
    ensures var pic := Encoded(src, srcStep, planes, width, height);
            && Off(srcStep, r) + 4 * x + 4 <= |src|
            && Off(pic.stepY, r) + x < |pic.y| && Off(pic.stepCo, r) + x < |pic.co| && Off(pic.stepCg, r) + x < |pic.cg|
            && Ycc(pic.y[Off(pic.stepY, r) + x] + 128, pic.co[Off(pic.stepCo, r) + x], pic.cg[Off(pic.stepCg, r) + x])
            == Forward(PixelAt(src, Off(srcStep, r) + 4 * x))
  {
    hide Fits, Forward, PixelAt, Painted, PlaneRows, Off, PictureFits;
    Parts(planes, width, height);
    PlaneAt(Luma, src, srcStep, planes.y, planes.stepY, width, height, r, x);
    PlaneAt(Orange, src, srcStep, planes.co, planes.stepCo, width, height, r, x);
    PlaneAt(Green, src, srcStep, planes.cg, planes.stepCg, width, height, r, x);
  }

  lemma Parts(pic: Picture, width: nat, height: nat)
    requires PictureFits(pic, width, height)
    ensures Fits(|pic.y|, pic.stepY, width, height) && Fits(|pic.co|, pic.stepCo, width, height)
    ensures Fits(|pic.cg|, pic.stepCg, width, height)
  {
  }

  lemma PlaneAt(ch: Channel, src: seq<Byte>, srcStep: nat, plane: seq<int>, step: nat, width: nat, height: nat,
                r: nat, x: nat)
    requires Fits(|src|, srcStep, 4 * width, height) && Fits(|plane|, step, width, height) && width <= step
    requires r < height && x < width
    ensures Off(srcStep, r) + 4 * x + 4 <= |src| && Off(step, r) + x < |plane|
    ensures Painted(plane, step, PlaneRows(ch, src, srcStep, width, height), width, height)[Off(step, r) + x]
         == Sample(ch, PixelAt(src, Off(srcStep, r) + 4 * x))
  {
    hide Sample, Off, PixelAt, PlaneRows, Painted, Fits, PlaneRow;
    RowFits(|src|, srcStep, 4 * width, height, r);
    PlaneRowsAt(ch, src, srcStep, width, height, r, x);
    PaintedAt(plane, step, PlaneRows(ch, src, srcStep, width, height), width, height, r, x);
  }

  lemma PlaneRowsAt(ch: Channel, src: seq<Byte>, srcStep: nat, width: nat, height: nat, r: nat, x: nat)
    requires Fits(|src|, srcStep, 4 * width, height) && r < height && x < width
    requires Off(srcStep, r) + 4 * x + 4 <= |src|
    ensures PlaneRows(ch, src, srcStep, width, height)[r][x] == Sample(ch, PixelAt(src, Off(srcStep, r) + 4 * x))
  {
    hide Sample, Off, PixelAt, Fits;
    RowFits(|src|, srcStep, 4 * width, height, r);
    assert PlaneRows(ch, src, srcStep, width, height)[r] == PlaneRow(ch, src, Off(srcStep, r), width);
  }
}
