/** The vector kernels of the 4:2:0 transform (libxpp/simd/XppYCoCgR_neon.c): thirty-two columns of two rows
    at a time in eight 16-bit lanes, with even and odd pixels apart. */
module YCoCgNeon {
  import opened Planes
  import opened YCoCg
  import opened YCoCg420

  type Lanes = s: seq<int> | |s| == 8 witness [0, 0, 0, 0, 0, 0, 0, 0]
  type Bytes16 = s: seq<Byte> | |s| == 16 witness [0, 0, 0, 0, 0, 0, 0, 0, 0, 0, 0, 0, 0, 0, 0, 0]

  // Lane arithmetic wraps around in 16 bits.

  function AddLanes(a: Lanes, b: Lanes): Lanes {
    seq(8, i requires 0 <= i < 8 => ToInt16(a[i] + b[i]))
  }

  function SubLanes(a: Lanes, b: Lanes): Lanes {
    seq(8, i requires 0 <= i < 8 => ToInt16(a[i] - b[i]))
  }

  function ShiftRight(a: Lanes, divisor: nat): Lanes
    requires divisor > 0
  {
    seq(8, i requires 0 <= i < 8 => a[i] / divisor)
  }

  function ShiftLeft(a: Lanes): Lanes {
    seq(8, i requires 0 <= i < 8 => ToInt16(2 * a[i]))
  }

  function All(v: int): Lanes {
    seq(8, i requires 0 <= i < 8 => v)
  }

  /** Eight bytes widened to lanes. */
  function Widened(bytes: Bytes16, from: nat): Lanes
    requires from <= 8
  {
    seq(8, i requires 0 <= i < 8 => bytes[from + i] as int)
  }

  /** The even and the odd elements of sixteen. */
  function Evens(a: Lanes, b: Lanes): Lanes {
    seq(8, i requires 0 <= i < 8 => (a + b)[2 * i])
  }

  function Odds(a: Lanes, b: Lanes): Lanes {
    seq(8, i requires 0 <= i < 8 => (a + b)[2 * i + 1])
  }

  /** Two vectors interleaved: the first and the last eight of the result. */
  function ZipLow(a: Lanes, b: Lanes): Lanes {
    seq(8, i requires 0 <= i < 8 => if i % 2 == 0 then a[i / 2] else b[i / 2])
  }

  function ZipHigh(a: Lanes, b: Lanes): Lanes {
    seq(8, i requires 0 <= i < 8 => if i % 2 == 0 then a[4 + i / 2] else b[4 + i / 2])
  }

  /** Sums of neighbours. */
  function PairwiseAdd(a: Lanes, b: Lanes): Lanes {
    AddLanes(Evens(a, b), Odds(a, b))
  }

  function NarrowedLane(low: Lanes, high: Lanes, i: nat): Byte
    requires i < 16
  {
    Clamp(if i < 8 then low[i] else high[i - 8])
  }

  /** Lanes narrowed to bytes with saturation. */
  function Narrowed(low: Lanes, high: Lanes): Bytes16 {
    seq(16, i requires 0 <= i < 16 => NarrowedLane(low, high, i))
  }

  // ----- decoding

  /** Sixteen pixels as three vectors of bytes. */
  datatype Pixels16 = Pixels16(b: Bytes16, g: Bytes16, r: Bytes16)

  /** The decoding kernel for sixteen luma bytes and eight chroma pairs. */
  function DecodeLanes(y: Bytes16, co: Lanes, cg: Lanes): Pixels16 {
    var yl, yh := Widened(y, 0), Widened(y, 8);
    var cgs1 := ShiftRight(cg, 2);
    var tmpe, tmpo := SubLanes(Evens(yl, yh), cgs1), SubLanes(Odds(yl, yh), cgs1);
    var ge, go := AddLanes(cg, tmpe), AddLanes(cg, tmpo);
    var cos1 := ShiftRight(co, 2);
    var be, bo := SubLanes(tmpe, cos1), SubLanes(tmpo, cos1);
    var re, ro := AddLanes(be, co), AddLanes(bo, co);
    Pixels16(Narrowed(ZipLow(be, bo), ZipHigh(be, bo)), Narrowed(ZipLow(ge, go), ZipHigh(ge, go)),
             Narrowed(ZipLow(re, ro), ZipHigh(re, ro)))
  }

  /** One lane, with the wrap-around written out. */
  function LanePixel(y: int, co: int, cg: int): Pixel {
    var tmp := ToInt16(y - cg / 2);
    var b := ToInt16(tmp - co / 2);
    Pixel(Clamp(b), Clamp(ToInt16(cg + tmp)), Clamp(ToInt16(b + co)))
  }

  lemma LaneIsPixel(y: int, co: int, cg: int)
    requires 0 <= y < 256 && -255 <= co <= 255 && -255 <= cg <= 255
    ensures LanePixel(y, co, cg) == Backward(Ycc(y, co, cg))
  {
    var tmp := y - cg / 2;
    FitsInt16(tmp);
    FitsInt16(tmp - co / 2);
    FitsInt16(cg + tmp);
    FitsInt16(tmp - co / 2 + co);
    hide ToInt16;
  }

  /** Zipping what was unzipped puts every pixel in its place. */
  lemma DecodedLane(y: Bytes16, co: Lanes, cg: Lanes, p: nat)
    requires p < 16
    ensures var out := DecodeLanes(y, co, cg);
            Pixel(out.b[p], out.g[p], out.r[p]) == LanePixel(y[p], co[p / 2], cg[p / 2])
  {
    hide ToInt16, Clamp;
  }

  /** Three vectors and an opaque fourth, stored interleaved. */
  function Interleaved(p: Pixels16): (bs: seq<Byte>)
    ensures |bs| == 64
  {
    seq<Byte>(64, k requires 0 <= k < 64 =>
      if k % 4 == 0 then p.b[k / 4] else if k % 4 == 1 then p.g[k / 4] else if k % 4 == 2 then p.r[k / 4] else 0xFF)
  }

  /** Eight chroma bytes made signed. */
  function SignedLanes(c: Bytes16, from: nat): Lanes
    requires from <= 8
  {
    SubLanes(ShiftLeft(Widened(c, from)), All(255))
  }

  lemma SignedLane(c: Bytes16, from: nat, i: nat)
    requires from <= 8 && i < 8
    ensures SignedLanes(c, from)[i] == Signed(c[from + i]) && -255 <= SignedLanes(c, from)[i] <= 255
  {
    var v: int := c[from + i];
    FitsInt16(2 * v);
    FitsInt16(2 * v - 255);
    hide ToInt16;
  }

  /** The kernel stores the very bytes of eight blocks in a row. */
  lemma KernelDecodes(pic: Samples420, iY: nat, iCo: nat, iCg: nat, co: Lanes, cg: Lanes)
    requires iY + 16 <= |pic.y| && iCo + 8 <= |pic.co| && iCg + 8 <= |pic.cg|
    requires forall i :: 0 <= i < 8 ==> co[i] == Signed(pic.co[iCo + i]) && cg[i] == Signed(pic.cg[iCg + i])
    ensures Interleaved(DecodeLanes(pic.y[iY..iY + 16], co, cg)) == StoredRow(RowPixels(pic, iY, iCo, iCg, 8))
  {
    var out := DecodeLanes(pic.y[iY..iY + 16], co, cg);
    var pixels := RowPixels(pic, iY, iCo, iCg, 8);
    hide DecodeLanes, RowPixels, Interleaved, StoredRow, Signed;
    forall p | 0 <= p < 16 ensures Pixel(out.b[p], out.g[p], out.r[p]) == pixels[p] {
      KernelPixel(pic, iY, iCo, iCg, co, cg, p);
    }
    InterleavedIsStored(out, pixels);
  }

  lemma KernelPixel(pic: Samples420, iY: nat, iCo: nat, iCg: nat, co: Lanes, cg: Lanes, p: nat)
    requires iY + 16 <= |pic.y| && iCo + 8 <= |pic.co| && iCg + 8 <= |pic.cg| && p < 16
    requires co[p / 2] == Signed(pic.co[iCo + p / 2]) && cg[p / 2] == Signed(pic.cg[iCg + p / 2])
    ensures var out := DecodeLanes(pic.y[iY..iY + 16], co, cg);
            Pixel(out.b[p], out.g[p], out.r[p]) == RowPixels(pic, iY, iCo, iCg, 8)[p]
  {
    hide LanePixel, Backward, DecodeLanes;
    DecodedLane(pic.y[iY..iY + 16], co, cg, p);
    LaneIsPixel(pic.y[iY + p], co[p / 2], cg[p / 2]);
  }

  lemma InterleavedIsStored(out: Pixels16, pixels: seq<Pixel>)
    requires |pixels| == 16 && forall p :: 0 <= p < 16 ==> Pixel(out.b[p], out.g[p], out.r[p]) == pixels[p]
    ensures Interleaved(out) == StoredRow(pixels)
  {
    var row := StoredRow(pixels);
    hide StoredRow;
    forall k | 0 <= k < 64 ensures Interleaved(out)[k] == row[k] {
      StoredAt(pixels, k / 4);
      assert row[k] == row[4 * (k / 4)..4 * (k / 4) + 4][k % 4];
    }
  }

  method StoreBytes(a: array<Byte>, i: nat, bs: seq<Byte>)
    requires i + |bs| <= a.Length
    modifies a
    ensures a[..] == Put(old(a[..]), i, bs)
  {
    forall k | 0 <= k < |bs| { a[i + k] := bs[k]; }
    assert a[..] == Put(old(a[..]), i, bs);
  }

  /** Thirty-two columns of a pair of rows. */
  method DecodeColumns(q: Back, n: nat, rgb: array<Byte>, ghost before: seq<Byte>)
    requires |before| == rgb.Length && BackFits(q, n + 16, |before|) && rgb[..] == RgbDone(q, n, before)
    modifies rgb
    ensures rgb[..] == RgbDone(q, n + 16, before)
  {
    var pic, iY, iCo, iCg, d := q.pic, q.iY + 2 * n, q.iCo + n, q.iCg + n, q.d + 8 * n;
    hide RgbDone, Put, RowPixels, StoredRow, DecodeLanes, Interleaved, SignedLanes, Signed;
    var co, cg := pic.co[iCo..iCo + 16], pic.cg[iCg..iCg + 16];
    var col, coh := SignedLanes(co, 0), SignedLanes(co, 8);
    var cgl, cgh := SignedLanes(cg, 0), SignedLanes(cg, 8);
    forall i | 0 <= i < 8
      ensures col[i] == Signed(pic.co[iCo + i]) && coh[i] == Signed(pic.co[iCo + 8 + i])
      ensures cgl[i] == Signed(pic.cg[iCg + i]) && cgh[i] == Signed(pic.cg[iCg + 8 + i])
    {
      SignedLane(co, 0, i);
      SignedLane(co, 8, i);
      SignedLane(cg, 0, i);
      SignedLane(cg, 8, i);
    }
    Halves(q, n, rgb[..], before);
    DecodeSixteen(pic, iY, iCo, iCg, col, cgl, rgb, d);
    DecodeSixteen(pic, iY + 16, iCo + 8, iCg + 8, coh, cgh, rgb, d + 64);
    DecodeSixteen(pic, iY + pic.stepY, iCo, iCg, col, cgl, rgb, d + q.step);
    DecodeSixteen(pic, iY + pic.stepY + 16, iCo + 8, iCg + 8, coh, cgh, rgb, d + q.step + 64);
  }

  method DecodeSixteen(pic: Samples420, iY: nat, iCo: nat, iCg: nat, co: Lanes, cg: Lanes, rgb: array<Byte>, d: nat)
    requires iY + 16 <= |pic.y| && iCo + 8 <= |pic.co| && iCg + 8 <= |pic.cg| && d + 64 <= rgb.Length
    requires forall i :: 0 <= i < 8 ==> co[i] == Signed(pic.co[iCo + i]) && cg[i] == Signed(pic.cg[iCg + i])
    modifies rgb
    ensures rgb[..] == Put(old(rgb[..]), d, StoredRow(RowPixels(pic, iY, iCo, iCg, 8)))
  {
    hide StoredRow, RowPixels, DecodeLanes, Interleaved, Put;
    KernelDecodes(pic, iY, iCo, iCg, co, cg);
    StoreBytes(rgb, d, Interleaved(DecodeLanes(pic.y[iY..iY + 16], co, cg)));
  }

  /** The four stores of sixteen pixels are the two of thirty-two. */
  lemma Halves(q: Back, n: nat, rgb: seq<Byte>, before: seq<Byte>)
    requires BackFits(q, n + 16, |before|) && rgb == RgbDone(q, n, before)
    ensures var pic, iY, iCo, iCg, d := q.pic, q.iY + 2 * n, q.iCo + n, q.iCg + n, q.d + 8 * n;
            Put(Put(Put(Put(rgb, d, StoredRow(RowPixels(pic, iY, iCo, iCg, 8))),
                        d + 64, StoredRow(RowPixels(pic, iY + 16, iCo + 8, iCg + 8, 8))),
                    d + q.step, StoredRow(RowPixels(pic, iY + pic.stepY, iCo, iCg, 8))),
                d + q.step + 64, StoredRow(RowPixels(pic, iY + pic.stepY + 16, iCo + 8, iCg + 8, 8)))
            == RgbDone(q, n + 16, before)
  {
    hide RgbDone, Put, RowPixels, StoredRow;
    var pic, iY, iCo, iCg, d := q.pic, q.iY + 2 * n, q.iCo + n, q.iCg + n, q.d + 8 * n;
    MoreRgb(q, n, 16, before);
    RowPixelsMore(pic, iY, iCo, iCg, 8, 8);
    RowPixelsMore(pic, iY + pic.stepY, iCo, iCg, 8, 8);
    var a, b := StoredRow(RowPixels(pic, iY, iCo, iCg, 8)), StoredRow(RowPixels(pic, iY + 16, iCo + 8, iCg + 8, 8));
    PutMore(rgb, d, a, b);
    PutMore(Put(rgb, d, a + b), d + q.step, StoredRow(RowPixels(pic, iY + pic.stepY, iCo, iCg, 8)),
            StoredRow(RowPixels(pic, iY + pic.stepY + 16, iCo + 8, iCg + 8, 8)));
  }

  // ----- encoding

  /** Sixteen stored pixels taken apart into their colours. */
  function Split(src: seq<Byte>, s: nat): Pixels16
    requires s + 64 <= |src|
  {
    Pixels16(seq(16, i requires 0 <= i < 16 => src[s + 4 * i]), seq(16, i requires 0 <= i < 16 => src[s + 4 * i + 1]),
             seq(16, i requires 0 <= i < 16 => src[s + 4 * i + 2]))
  }

  datatype Sums = Sums(y: Bytes16, cosum: Lanes, cgsum: Lanes)

  /** The encoding kernel: luma for sixteen pixels, and their chroma added in pairs to running sums. */
  function EncodeLanes(p: Pixels16, cosum: Lanes, cgsum: Lanes): Sums {
    var bl, bh := Widened(p.b, 0), Widened(p.b, 8);
    var gl, gh := Widened(p.g, 0), Widened(p.g, 8);
    var rl, rh := Widened(p.r, 0), Widened(p.r, 8);
    var col, coh := SubLanes(rl, bl), SubLanes(rh, bh);
    var tmpl, tmph := AddLanes(ShiftRight(col, 2), bl), AddLanes(ShiftRight(coh, 2), bh);
    var cgl, cgh := SubLanes(gl, tmpl), SubLanes(gh, tmph);
    var yl, yh := AddLanes(ShiftRight(cgl, 2), tmpl), AddLanes(ShiftRight(cgh, 2), tmph);
    Sums(Narrowed(yl, yh), AddLanes(cosum, PairwiseAdd(col, coh)), AddLanes(cgsum, PairwiseAdd(cgl, cgh)))
  }

  /** One lane, with the wrap-around written out. */
  function LaneYcc(p: Pixel): Ycc {
    var co := ToInt16(p.r - p.b);
    var tmp := ToInt16(co / 2 + p.b);
    var cg := ToInt16(p.g - tmp);
    Ycc(ToInt16(cg / 2 + tmp), co, cg)
  }

  lemma LaneIsForward(p: Pixel)
    requires IsRgb(p)
    ensures LaneYcc(p) == Forward(p)
  {
    hide ToInt16;
    var co := p.r - p.b;
    var tmp := co / 2 + p.b;
    var cg := p.g - tmp;
    var y := cg / 2 + tmp;
    Halved(co);
    Halved(cg);
    FitsInt16(co);
    FitsInt16(tmp);
    FitsInt16(cg);
    FitsInt16(y);
    assert LaneYcc(p) == Ycc(y, co, cg);
  }

  lemma Halved(v: int)
    ensures 2 * (v / 2) <= v <= 2 * (v / 2) + 1
  {
  }

  function LaneAt(p: Pixels16, i: nat): Pixel
    requires i < 16
  {
    Pixel(p.b[i], p.g[i], p.r[i])
  }

  lemma EncodedLuma(p: Pixels16, cosum: Lanes, cgsum: Lanes, i: nat)
    requires i < 16
    ensures EncodeLanes(p, cosum, cgsum).y[i] == Clamp(LaneYcc(LaneAt(p, i)).y)
  {
    hide ToInt16, Clamp;
  }

  lemma EncodedSums(p: Pixels16, cosum: Lanes, cgsum: Lanes, i: nat)
    requires i < 8
    ensures var out := EncodeLanes(p, cosum, cgsum);
            var c, d := LaneYcc(LaneAt(p, 2 * i)), LaneYcc(LaneAt(p, 2 * i + 1));
            && out.cosum[i] == ToInt16(cosum[i] + ToInt16(c.co + d.co))
            && out.cgsum[i] == ToInt16(cgsum[i] + ToInt16(c.cg + d.cg))
  {
    hide ToInt16, Clamp;
  }

  /** The chroma of two neighbouring pixels. */
  function PairSum(ch: Channel, src: seq<Byte>, s: nat): int
    requires s + 8 <= |src|
  {
    Pick(ch, Forward(PixelAt(src, s))) + Pick(ch, Forward(PixelAt(src, s + 4)))
  }

  lemma PairSumBound(ch: Channel, src: seq<Byte>, s: nat)
    requires s + 8 <= |src| && !ch.Luma?
    ensures -510 <= PairSum(ch, src, s) <= 510
  {
    LiftingInverts(PixelAt(src, s));
    LiftingInverts(PixelAt(src, s + 4));
    hide Forward, Backward;
  }

  lemma SplitLane(src: seq<Byte>, s: nat, i: nat)
    requires s + 64 <= |src| && i < 16
    ensures LaneAt(Split(src, s), i) == PixelAt(src, s + 4 * i)
    ensures LaneYcc(LaneAt(Split(src, s), i)) == Forward(PixelAt(src, s + 4 * i))
  {
    hide Forward, LaneYcc;
    LaneIsForward(PixelAt(src, s + 4 * i));
  }

  /** The kernel computes the luma of sixteen pixels and adds the chroma of their eight pairs; sums of up to
      two rows do not wrap around. */
  lemma KernelEncodes(src: seq<Byte>, s: nat, cosum: Lanes, cgsum: Lanes)
    requires s + 64 <= |src|
    requires forall i :: 0 <= i < 8 ==> -510 <= cosum[i] <= 510 && -510 <= cgsum[i] <= 510
    ensures EncodeLanes(Split(src, s), cosum, cgsum).y == LumaRow(src, s, 16)
    ensures forall i :: 0 <= i < 8 ==>
              && EncodeLanes(Split(src, s), cosum, cgsum).cosum[i] == cosum[i] + PairSum(Orange, src, s + 8 * i)
              && EncodeLanes(Split(src, s), cosum, cgsum).cgsum[i] == cgsum[i] + PairSum(Green, src, s + 8 * i)
  {
    hide EncodeLanes, Split, LumaRow, PairSum, ToInt16;
    var out := EncodeLanes(Split(src, s), cosum, cgsum);
    forall i | 0 <= i < 16 ensures out.y[i] == LumaRow(src, s, 16)[i] {
      KernelLuma(src, s, cosum, cgsum, i);
    }
    forall i | 0 <= i < 8
      ensures out.cosum[i] == cosum[i] + PairSum(Orange, src, s + 8 * i)
      ensures out.cgsum[i] == cgsum[i] + PairSum(Green, src, s + 8 * i)
    {
      KernelSums(src, s, cosum, cgsum, i);
    }
  }

  lemma KernelLuma(src: seq<Byte>, s: nat, cosum: Lanes, cgsum: Lanes, i: nat)
    requires s + 64 <= |src| && i < 16
    ensures EncodeLanes(Split(src, s), cosum, cgsum).y[i] == LumaRow(src, s, 16)[i]
  {
    hide EncodeLanes, Split, Forward, LaneYcc;
    EncodedLuma(Split(src, s), cosum, cgsum, i);
    SplitLane(src, s, i);
    LiftingInverts(PixelAt(src, s + 4 * i));
  }

  lemma KernelSums(src: seq<Byte>, s: nat, cosum: Lanes, cgsum: Lanes, i: nat)
    requires s + 64 <= |src| && i < 8 && -510 <= cosum[i] <= 510 && -510 <= cgsum[i] <= 510
    ensures EncodeLanes(Split(src, s), cosum, cgsum).cosum[i] == cosum[i] + PairSum(Orange, src, s + 8 * i)
    ensures EncodeLanes(Split(src, s), cosum, cgsum).cgsum[i] == cgsum[i] + PairSum(Green, src, s + 8 * i)
  {
    hide EncodeLanes, Split, Forward, LaneYcc, ToInt16, PixelAt, LaneAt;
    EncodedSums(Split(src, s), cosum, cgsum, i);
    SplitLane(src, s, 2 * i);
    SplitLane(src, s, 2 * i + 1);
    PairSumBound(Orange, src, s + 8 * i);
    PairSumBound(Green, src, s + 8 * i);
    assert s + 4 * (2 * i) == s + 8 * i && s + 4 * (2 * i + 1) == s + 8 * i + 4;
    var co, cg := PairSum(Orange, src, s + 8 * i), PairSum(Green, src, s + 8 * i);
    FitsInt16(co);
    FitsInt16(cg);
    FitsInt16(cosum[i] + co);
    FitsInt16(cgsum[i] + cg);
  }

  /** The mean of a block from the sums of its two rows. */
  function Means(low: Lanes, high: Lanes): Bytes16 {
    Narrowed(ShiftRight(AddLanes(low, All(1024)), 8), ShiftRight(AddLanes(high, All(1024)), 8))
  }

  lemma MeansAre(ch: Channel, src: seq<Byte>, s: nat, step: nat, low: Lanes, high: Lanes)
    requires s + step + 128 <= |src| && !ch.Luma?
    requires forall i :: 0 <= i < 8 ==>
      && low[i] == PairSum(ch, src, s + 8 * i) + PairSum(ch, src, s + step + 8 * i)
      && high[i] == PairSum(ch, src, s + 64 + 8 * i) + PairSum(ch, src, s + step + 64 + 8 * i)
    ensures Means(low, high) == ChromaRow(ch, src, s, step, 16)
  {
    hide Means, ChromaRow, PairSum;
    forall i | 0 <= i < 16 ensures Means(low, high)[i] == ChromaRow(ch, src, s, step, 16)[i] {
      if i >= 8 { assert s + 64 + 8 * (i - 8) == s + 8 * i && s + step + 64 + 8 * (i - 8) == s + step + 8 * i; }
      MeanIs(ch, src, s, step, low, high, i);
    }
  }

  lemma MeanIs(ch: Channel, src: seq<Byte>, s: nat, step: nat, low: Lanes, high: Lanes, i: nat)
    requires s + step + 128 <= |src| && !ch.Luma? && i < 16
    requires (if i < 8 then low[i] else high[i - 8]) == PairSum(ch, src, s + 8 * i) + PairSum(ch, src, s + step + 8 * i)
    ensures Means(low, high)[i] == ChromaRow(ch, src, s, step, 16)[i]
  {
    hide Forward, ToInt16, PixelAt, IsRgb;
    var at := s + 8 * i;
    PairSumBound(ch, src, at);
    PairSumBound(ch, src, s + step + 8 * i);
    FitsInt16(PairSum(ch, src, at) + PairSum(ch, src, s + step + 8 * i) + 1024);
  }

  method EncodeSixteen(src: seq<Byte>, s: nat, pY: array<Byte>, iY: nat, cosum: Lanes, cgsum: Lanes)
    returns (cosum': Lanes, cgsum': Lanes)
    requires s + 64 <= |src| && iY + 16 <= pY.Length
    requires forall i :: 0 <= i < 8 ==> -510 <= cosum[i] <= 510 && -510 <= cgsum[i] <= 510
    modifies pY
    ensures pY[..] == Put(old(pY[..]), iY, LumaRow(src, s, 16))
    ensures forall i :: 0 <= i < 8 ==> cosum'[i] == cosum[i] + PairSum(Orange, src, s + 8 * i)
    ensures forall i :: 0 <= i < 8 ==> cgsum'[i] == cgsum[i] + PairSum(Green, src, s + 8 * i)
  {
    hide EncodeLanes, Split, LumaRow, PairSum, Put;
    KernelEncodes(src, s, cosum, cgsum);
    var out := EncodeLanes(Split(src, s), cosum, cgsum);
    StoreBytes(pY, iY, out.y);
    cosum', cgsum' := out.cosum, out.cgsum;
  }

  lemma SumsBounded(src: seq<Byte>, s: nat)
    requires s + 64 <= |src|
    ensures forall i :: 0 <= i < 8 ==> -510 <= PairSum(Orange, src, s + 8 * i) <= 510
    ensures forall i :: 0 <= i < 8 ==> -510 <= PairSum(Green, src, s + 8 * i) <= 510
  {
    hide PairSum;
    forall i | 0 <= i < 8
      ensures -510 <= PairSum(Orange, src, s + 8 * i) <= 510 && -510 <= PairSum(Green, src, s + 8 * i) <= 510
    {
      PairSumBound(Orange, src, s + 8 * i);
      PairSumBound(Green, src, s + 8 * i);
    }
  }

  /** Thirty-two columns of a pair of rows. */
  method EncodeColumns(p: Pair, n: nat, pY: array<Byte>, pCo: array<Byte>, pCg: array<Byte>,
                       ghost y0: seq<Byte>, ghost co0: seq<Byte>, ghost cg0: seq<Byte>)
    requires pY != pCo && pY != pCg && pCo != pCg
    requires |y0| == pY.Length && |co0| == pCo.Length && |cg0| == pCg.Length
    requires PairFits(p, n + 16, |y0|, |co0|, |cg0|)
    requires pY[..] == LumaDone(p, n, y0)
    requires pCo[..] == ChromaDone(Orange, p, n, co0, p.iCo) && pCg[..] == ChromaDone(Green, p, n, cg0, p.iCg)
    modifies pY, pCo, pCg
    ensures pY[..] == LumaDone(p, n + 16, y0)
    ensures pCo[..] == ChromaDone(Orange, p, n + 16, co0, p.iCo) && pCg[..] == ChromaDone(Green, p, n + 16, cg0, p.iCg)
  {
    hide LumaDone, ChromaDone, LumaRow, ChromaRow, PairSum, Put, Means;
    var src, s, iY := p.src, p.at + 8 * n, p.iY + 2 * n;
    var q, jY := s + p.step, iY + p.stepY;
    SumsBounded(src, s);
    SumsBounded(src, s + 64);
    LumaHalves(p, n, pY[..], y0);
    var zero := All(0);
    var cosum0, cgsum0 := EncodeSixteen(src, s, pY, iY, zero, zero);
    var cosum1, cgsum1 := EncodeSixteen(src, s + 64, pY, iY + 16, zero, zero);
    cosum0, cgsum0 := EncodeSixteen(src, q, pY, jY, cosum0, cgsum0);
    cosum1, cgsum1 := EncodeSixteen(src, q + 64, pY, jY + 16, cosum1, cgsum1);
    MeansAre(Orange, src, s, p.step, cosum0, cosum1);
    MeansAre(Green, src, s, p.step, cgsum0, cgsum1);
    MoreChroma(Orange, p, n, 16, co0, p.iCo, Means(cosum0, cosum1));
    MoreChroma(Green, p, n, 16, cg0, p.iCg, Means(cgsum0, cgsum1));
    StoreBytes(pCo, p.iCo + n, Means(cosum0, cosum1));
    StoreBytes(pCg, p.iCg + n, Means(cgsum0, cgsum1));
  }

  lemma LumaHalves(p: Pair, n: nat, y: seq<Byte>, y0: seq<Byte>)
    requires PairFits(p, n + 16, |y0|, p.iCo + n + 16, p.iCg + n + 16) && y == LumaDone(p, n, y0)
    ensures var src, s, iY := p.src, p.at + 8 * n, p.iY + 2 * n;
            var q, jY := s + p.step, iY + p.stepY;
            Put(Put(Put(Put(y, iY, LumaRow(src, s, 16)), iY + 16, LumaRow(src, s + 64, 16)), jY, LumaRow(src, q, 16)),
                jY + 16, LumaRow(src, q + 64, 16))
            == LumaDone(p, n + 16, y0)
  {
    hide LumaDone, Put, LumaRow;
    var src, s, iY := p.src, p.at + 8 * n, p.iY + 2 * n;
    var q, jY := s + p.step, iY + p.stepY;
    LumaRowMore(src, s, 16, 16);
    LumaRowMore(src, q, 16, 16);
    MoreLuma(p, n, 16, y0, LumaRow(src, s, 32), LumaRow(src, q, 32));
    PutMore(y, iY, LumaRow(src, s, 16), LumaRow(src, s + 64, 16));
    PutMore(Put(y, iY, LumaRow(src, s, 32)), jY, LumaRow(src, q, 16), LumaRow(src, q + 64, 16));
  }
}
