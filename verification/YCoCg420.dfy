/** The 4:2:0 form of the transform (libxpp/XppYCoCgR.c): a luma sample for every pixel and one pair of
    chroma samples for every block of two by two pixels.  Odd last rows and columns are left out. */
module YCoCg420 {
  import opened Planes
  import opened YCoCg

  function LumaSample(p: Pixel): Byte
    requires IsRgb(p)
  {
    LiftingInverts(p);
    Forward(p).y
  }

  /** The chroma of a block: the mean of its four pixels, halved and made unsigned. */
  function ChromaSample(ch: Channel, p0: Pixel, p1: Pixel, p2: Pixel, p3: Pixel): (s: Byte)
    requires IsRgb(p0) && IsRgb(p1) && IsRgb(p2) && IsRgb(p3) && !ch.Luma?
  {
    ChromaFits(ch, p0, p1, p2, p3);
    ChromaSum(ch, p0, p1, p2, p3) / 8
  }

  function ChromaSum(ch: Channel, p0: Pixel, p1: Pixel, p2: Pixel, p3: Pixel): int {
    Pick(ch, Forward(p0)) + Pick(ch, Forward(p1)) + Pick(ch, Forward(p2)) + Pick(ch, Forward(p3)) + 1024
  }

  /** Chroma never overflows its byte. */
  lemma ChromaFits(ch: Channel, p0: Pixel, p1: Pixel, p2: Pixel, p3: Pixel)
    requires IsRgb(p0) && IsRgb(p1) && IsRgb(p2) && IsRgb(p3) && !ch.Luma?
    ensures 0 <= ChromaSum(ch, p0, p1, p2, p3) / 8 < 256
  {
    LiftingInverts(p0);
    LiftingInverts(p1);
    LiftingInverts(p2);
    LiftingInverts(p3);
    hide Forward, Backward;
  }

  /** A chroma byte made signed again. */
  function Signed(c: int): int {
    2 * c - 0xFF
  }

  /** What is decoded of the chroma of four pixels is within one of their mean. */
  lemma ChromaNear(p0: Pixel, p1: Pixel, p2: Pixel, p3: Pixel)
    requires IsRgb(p0) && IsRgb(p1) && IsRgb(p2) && IsRgb(p3)
    ensures var sum := p0.r - p0.b + (p1.r - p1.b) + (p2.r - p2.b) + (p3.r - p3.b);
            -4 <= sum - 4 * Signed(ChromaSample(Orange, p0, p1, p2, p3)) <= 3
    ensures var sum := Forward(p0).cg + Forward(p1).cg + Forward(p2).cg + Forward(p3).cg;
            -4 <= sum - 4 * Signed(ChromaSample(Green, p0, p1, p2, p3)) <= 3
  {
    SamplesMean(p0);
    SamplesMean(p1);
    SamplesMean(p2);
    SamplesMean(p3);
    hide Forward;
  }

  function Pixel420(y: int, co: int, cg: int): Pixel {
    Backward(Ycc(y, Signed(co), Signed(cg)))
  }

  /** A chroma value that four pixels share, as it is decoded: made odd. */
  function MadeOdd(c: int): int {
    c + 1 - c % 2
  }

  function MeanSample(c: int): int {
    (4 * c + 1024) / 8
  }

  lemma EqualChroma(c: int)
    ensures 2 * MeanSample(c) - 0xFF == MadeOdd(c)
  {
  }

  lemma MadeOddHalf(c: int)
    ensures MadeOdd(c) / 2 == c / 2
  {
  }

  /** What a colour value becomes when its chroma is made odd: itself, or one more. */
  function Raised(v: int, chroma: int): int {
    if chroma % 2 == 1 || v == 255 then v else v + 1
  }

  /** What a pixel of a block of four equal pixels is after encoding and decoding. */
  function EqualBlockBack(p: Pixel): Pixel
    requires IsRgb(p)
  {
    Pixel420(LumaSample(p), ChromaSample(Orange, p, p, p, p), ChromaSample(Green, p, p, p, p))
  }

  /** A block of four equal pixels comes back with blue exact and green and red exact or one higher:
      green is exact when its chroma is odd or it is at 255 already, and red likewise. */
  lemma EqualBlock(p: Pixel)
    requires IsRgb(p)
    ensures EqualBlockBack(p) == Pixel(p.b, Raised(p.g, Forward(p).cg), Raised(p.r, Forward(p).co))
  {
    hide Forward, Backward, ChromaSum, MeanSample, ChromaSample, MadeOdd, LumaSample, Raised, IsRgb;
    var c := Forward(p);
    EqualSum(p);
    EqualChroma(c.co);
    EqualChroma(c.cg);
    LiftedUp(c, p);
  }

  lemma EqualSum(p: Pixel)
    requires IsRgb(p)
    ensures LumaSample(p) == Forward(p).y
    ensures ChromaSample(Orange, p, p, p, p) == MeanSample(Forward(p).co)
    ensures ChromaSample(Green, p, p, p, p) == MeanSample(Forward(p).cg)
  {
    hide Forward;
    assert ChromaSum(Orange, p, p, p, p) == 4 * Forward(p).co + 1024;
    assert ChromaSum(Green, p, p, p, p) == 4 * Forward(p).cg + 1024;
  }

  lemma LiftedUp(c: Ycc, p: Pixel)
    requires IsRgb(p) && c == Forward(p)
    ensures Backward(Ycc(c.y, MadeOdd(c.co), MadeOdd(c.cg))) == Pixel(p.b, Raised(p.g, c.cg), Raised(p.r, c.co))
  {
    MadeOddHalf(c.co);
    MadeOddHalf(c.cg);
    var t := c.y - c.cg / 2;
    assert t - c.co / 2 == p.b && c.cg + t == p.g && p.b + c.co == p.r;
  }

  // ----- encoding

  function LumaRow(src: seq<Byte>, from: nat, n: nat): (row: seq<Byte>)
    requires from + 4 * n <= |src|
    ensures |row| == n
  {
    seq(n, x requires 0 <= x < n => LumaSample(PixelAt(src, from + 4 * x)))
  }

  /** The chroma of the block whose first pixel is at `at`. */
  function BlockSample(ch: Channel, src: seq<Byte>, at: nat, step: nat): Byte
    requires at + step + 8 <= |src| && !ch.Luma?
  {
    ChromaSample(ch, PixelAt(src, at), PixelAt(src, at + 4), PixelAt(src, at + step), PixelAt(src, at + step + 4))
  }

  function ChromaRow(ch: Channel, src: seq<Byte>, from: nat, step: nat, n: nat): (row: seq<Byte>)
    requires from + step + 8 * n <= |src| && !ch.Luma?
    ensures |row| == n
  {
    seq(n, x requires 0 <= x < n => BlockSample(ch, src, from + 8 * x, step))
  }

  /** The two rows of pixels from `at` on, and where their samples go. */
  datatype Pair = Pair(src: seq<Byte>, at: nat, step: nat, iY: nat, stepY: nat, iCo: nat, iCg: nat)

  /** `n` blocks of the pair lie inside the data and the three planes. */
  predicate PairFits(p: Pair, n: nat, sizeY: nat, sizeCo: nat, sizeCg: nat) {
    && p.at + p.step + 8 * n <= |p.src| && 2 * n <= p.stepY && p.iY + p.stepY + 2 * n <= sizeY
    && p.iCo + n <= sizeCo && p.iCg + n <= sizeCg
  }

  /** The planes with the samples of the first `n` blocks. */
  function LumaDone(p: Pair, n: nat, y0: seq<Byte>): (y: seq<Byte>)
    requires PairFits(p, n, |y0|, p.iCo + n, p.iCg + n)
    ensures |y| == |y0|
  {
    TwoRows(y0, p.iY, p.stepY, LumaRow(p.src, p.at, 2 * n), LumaRow(p.src, p.at + p.step, 2 * n))
  }

  function ChromaDone(ch: Channel, p: Pair, n: nat, c0: seq<Byte>, i: nat): (c: seq<Byte>)
    requires p.at + p.step + 8 * n <= |p.src| && i + n <= |c0| && !ch.Luma?
    ensures |c| == |c0|
  {
    Put(c0, i, ChromaRow(ch, p.src, p.at, p.step, n))
  }

  lemma NoBlocks(p: Pair, y0: seq<Byte>, co0: seq<Byte>, cg0: seq<Byte>)
    requires PairFits(p, 0, |y0|, |co0|, |cg0|)
    ensures LumaDone(p, 0, y0) == y0 && ChromaDone(Orange, p, 0, co0, p.iCo) == co0 &&
            ChromaDone(Green, p, 0, cg0, p.iCg) == cg0
  {
    assert LumaRow(p.src, p.at, 0) == [] && LumaRow(p.src, p.at + p.step, 0) == [];
    assert ChromaRow(Orange, p.src, p.at, p.step, 0) == [] && ChromaRow(Green, p.src, p.at, p.step, 0) == [];
    hide TwoRows, Put;
    TwoRowsStart(y0, p.iY, p.stepY);
    PutNothing(co0, p.iCo);
    PutNothing(cg0, p.iCg);
  }

  /** Luma for more blocks behind the first `n`. */
  lemma MoreLuma(p: Pair, n: nat, m: nat, y0: seq<Byte>, top: seq<Byte>, bottom: seq<Byte>)
    requires PairFits(p, n + m, |y0|, p.iCo + n + m, p.iCg + n + m)
    requires top == LumaRow(p.src, p.at + 8 * n, 2 * m) && bottom == LumaRow(p.src, p.at + p.step + 8 * n, 2 * m)
    ensures Put(Put(LumaDone(p, n, y0), p.iY + 2 * n, top), p.iY + p.stepY + 2 * n, bottom) == LumaDone(p, n + m, y0)
  {
    hide LumaRow, TwoRows, Put;
    LumaRowMore(p.src, p.at, 2 * n, 2 * m);
    LumaRowMore(p.src, p.at + p.step, 2 * n, 2 * m);
    TwoRowsMore(y0, p.iY, p.stepY, LumaRow(p.src, p.at, 2 * n), LumaRow(p.src, p.at + p.step, 2 * n), top, bottom);
  }

  lemma LumaRowMore(src: seq<Byte>, from: nat, n: nat, m: nat)
    requires from + 4 * (n + m) <= |src|
    ensures LumaRow(src, from, n + m) == LumaRow(src, from, n) + LumaRow(src, from + 4 * n, m)
  {
    hide LumaSample, PixelAt;
  }

  lemma MoreChroma(ch: Channel, p: Pair, n: nat, m: nat, c0: seq<Byte>, i: nat, row: seq<Byte>)
    requires p.at + p.step + 8 * (n + m) <= |p.src| && i + n + m <= |c0| && !ch.Luma?
    requires row == ChromaRow(ch, p.src, p.at + 8 * n, p.step, m)
    ensures Put(ChromaDone(ch, p, n, c0, i), i + n, row) == ChromaDone(ch, p, n + m, c0, i)
  {
    hide BlockSample, Put;
    assert ChromaRow(ch, p.src, p.at, p.step, n + m) == ChromaRow(ch, p.src, p.at, p.step, n) + row;
    PutMore(c0, i, ChromaRow(ch, p.src, p.at, p.step, n), row);
  }

  /** The blocks of a pair of rows one by one, from block `done` on. */
  method EncodeBlocks(p: Pair, done: nat, n: nat, pY: array<Byte>, pCo: array<Byte>, pCg: array<Byte>,
                      ghost y0: seq<Byte>, ghost co0: seq<Byte>, ghost cg0: seq<Byte>)
    requires pY != pCo && pY != pCg && pCo != pCg && done <= n
    requires |y0| == pY.Length && |co0| == pCo.Length && |cg0| == pCg.Length
    requires PairFits(p, n, |y0|, |co0|, |cg0|)
    requires pY[..] == LumaDone(p, done, y0)
    requires pCo[..] == ChromaDone(Orange, p, done, co0, p.iCo) && pCg[..] == ChromaDone(Green, p, done, cg0, p.iCg)
    modifies pY, pCo, pCg
    ensures pY[..] == LumaDone(p, n, y0)
    ensures pCo[..] == ChromaDone(Orange, p, n, co0, p.iCo) && pCg[..] == ChromaDone(Green, p, n, cg0, p.iCg)
  {
    hide LumaDone, ChromaDone, ChromaRow, LumaRow, Put;
    var s, iY, iCo, iCg := p.at + 8 * done, p.iY + 2 * done, p.iCo + done, p.iCg + done;
    for x := done to n
      invariant s == p.at + 8 * x && iY == p.iY + 2 * x && iCo == p.iCo + x && iCg == p.iCg + x
      invariant pY[..] == LumaDone(p, x, y0)
      invariant pCo[..] == ChromaDone(Orange, p, x, co0, p.iCo) && pCg[..] == ChromaDone(Green, p, x, cg0, p.iCg)
    {
      MoreLuma(p, x, 1, y0, LumaRow(p.src, s, 2), LumaRow(p.src, s + p.step, 2));
      MoreChroma(Orange, p, x, 1, co0, p.iCo, ChromaRow(Orange, p.src, s, p.step, 1));
      MoreChroma(Green, p, x, 1, cg0, p.iCg, ChromaRow(Green, p.src, s, p.step, 1));
      EncodeBlock(p.src, s, p.step, pY, iY, p.stepY, pCo, iCo, pCg, iCg);
      s, iY, iCo, iCg := s + 8, iY + 2, iCo + 1, iCg + 1;
    }
  }

  /** The samples of one pixel. */
  method EncodePixel(b: int, g: int, r: int) returns (y: int, co: int, cg: int)
    ensures Ycc(y, co, cg) == Forward(Pixel(b, g, r))
  {
    co := r - b;
    var t := b + co / 2;
    cg := g - t;
    y := t + cg / 2;
  }

  /** One block: four luma samples and the chroma they share, each cut to a byte. */
  method EncodeBlock(src: seq<Byte>, s: nat, step: nat, pY: array<Byte>, iY: nat, stepY: nat, pCo: array<Byte>,
                     iCo: nat,
                     pCg: array<Byte>, iCg: nat)
    requires pY != pCo && pY != pCg && pCo != pCg && s + step + 8 <= |src|
    requires 2 <= stepY && iY + stepY + 2 <= pY.Length && iCo < pCo.Length && iCg < pCg.Length
    modifies pY, pCo, pCg
    ensures pY[..] == Put(Put(old(pY[..]), iY, LumaRow(src, s, 2)), iY + stepY, LumaRow(src, s + step, 2))
    ensures pCo[..] == Put(old(pCo[..]), iCo, ChromaRow(Orange, src, s, step, 1))
    ensures pCg[..] == Put(old(pCg[..]), iCg, ChromaRow(Green, src, s, step, 1))
  {
    hide Forward;
    var y0, co0, cg0 := EncodePixel(src[s], src[s + 1], src[s + 2]);
    var y1, co1, cg1 := EncodePixel(src[s + 4], src[s + 5], src[s + 6]);
    var q := s + step;
    var y2, co2, cg2 := EncodePixel(src[q], src[q + 1], src[q + 2]);
    var y3, co3, cg3 := EncodePixel(src[q + 4], src[q + 5], src[q + 6]);
    BlockSamples(src, s, q, y0, y1, y2, y3, co0, co1, co2, co3, cg0, cg1, cg2, cg3);
    hide LumaRow, ChromaRow;
    var sCo, sCg := (co0 + co1 + co2 + co3 + 1024) / 8, (cg0 + cg1 + cg2 + cg3 + 1024) / 8;
    StoreTwo(pY, iY, y0 % 256, y1 % 256);
    pCo[iCo] := sCo % 256;
    pCg[iCg] := sCg % 256;
    StoreTwo(pY, iY + stepY, y2 % 256, y3 % 256);
  }

  method StoreTwo(a: array<Byte>, i: nat, v: Byte, w: Byte)
    requires i + 2 <= a.Length
    modifies a
    ensures a[..] == Put(old(a[..]), i, [v, w])
  {
    a[i], a[i + 1] := v, w;
    assert a[..] == Put(old(a[..]), i, [v, w]);
  }

  lemma BlockSamples(src: seq<Byte>, s: nat, q: nat, y0: int, y1: int, y2: int, y3: int,
                     co0: int, co1: int, co2: int, co3: int, cg0: int, cg1: int, cg2: int, cg3: int)
    requires s <= q && q + 8 <= |src|
    requires Forward(PixelAt(src, s)) == Ycc(y0, co0, cg0) && Forward(PixelAt(src, s + 4)) == Ycc(y1, co1, cg1)
    requires Forward(PixelAt(src, q)) == Ycc(y2, co2, cg2) && Forward(PixelAt(src, q + 4)) == Ycc(y3, co3, cg3)
    ensures LumaRow(src, s, 2) == [y0 % 256, y1 % 256] && LumaRow(src, q, 2) == [y2 % 256, y3 % 256]
    ensures ChromaRow(Orange, src, s, q - s, 1) == [(co0 + co1 + co2 + co3 + 1024) / 8 % 256]
    ensures ChromaRow(Green, src, s, q - s, 1) == [(cg0 + cg1 + cg2 + cg3 + 1024) / 8 % 256]
  {
    hide Forward, PixelAt, IsRgb;
  }

  // ----- decoding

  /** The three planes of a picture, with their steps. */
  datatype Samples420 = Samples420(y: seq<Byte>, stepY: nat, co: seq<Byte>, stepCo: nat, cg: seq<Byte>, stepCg: nat)

  /** The pixels of `n` blocks in one row, each chroma sample serving two of them. */
  function RowPixels(pic: Samples420, iY: nat, iCo: nat, iCg: nat, n: nat): (row: seq<Pixel>)
    requires iY + 2 * n <= |pic.y| && iCo + n <= |pic.co| && iCg + n <= |pic.cg|
    ensures |row| == 2 * n
  {
    seq(2 * n, x requires 0 <= x < 2 * n => Pixel420(pic.y[iY + x], pic.co[iCo + x / 2], pic.cg[iCg + x / 2]))
  }

  /** Where a pair of rows is in the picture, and where its pixels go. */
  datatype Back = Back(pic: Samples420, iY: nat, iCo: nat, iCg: nat, d: nat, step: nat)

  predicate BackFits(q: Back, n: nat, size: nat) {
    && q.iY + q.pic.stepY + 2 * n <= |q.pic.y| && q.iCo + n <= |q.pic.co| && q.iCg + n <= |q.pic.cg|
    && 8 * n <= q.step && q.d + q.step + 8 * n <= size
  }

  /** The output with the first `n` blocks of the pair decoded. */
  function RgbDone(q: Back, n: nat, before: seq<Byte>): (rgb: seq<Byte>)
    requires BackFits(q, n, |before|)
    ensures |rgb| == |before|
  {
    TwoRows(before, q.d, q.step, StoredRow(RowPixels(q.pic, q.iY, q.iCo, q.iCg, n)),
            StoredRow(RowPixels(q.pic, q.iY + q.pic.stepY, q.iCo, q.iCg, n)))
  }

  lemma NothingDecoded(q: Back, before: seq<Byte>)
    requires BackFits(q, 0, |before|)
    ensures RgbDone(q, 0, before) == before
  {
    assert |RowPixels(q.pic, q.iY, q.iCo, q.iCg, 0)| == 0 &&
        |RowPixels(q.pic, q.iY + q.pic.stepY, q.iCo, q.iCg, 0)| == 0;
    hide RowPixels, TwoRows;
    TwoRowsStart(before, q.d, q.step);
  }

  lemma RowPixelsMore(pic: Samples420, iY: nat, iCo: nat, iCg: nat, n: nat, m: nat)
    requires iY + 2 * (n + m) <= |pic.y| && iCo + n + m <= |pic.co| && iCg + n + m <= |pic.cg|
    ensures StoredRow(RowPixels(pic, iY, iCo, iCg, n + m))
         == StoredRow(RowPixels(pic, iY, iCo, iCg, n)) + StoredRow(RowPixels(pic, iY + 2 * n, iCo + n, iCg + n, m))
  {
    hide Pixel420, StoredRow;
    assert RowPixels(pic, iY, iCo, iCg, n + m)
        == RowPixels(pic, iY, iCo, iCg, n) + RowPixels(pic, iY + 2 * n, iCo + n, iCg + n, m);
    StoredMore(RowPixels(pic, iY, iCo, iCg, n), RowPixels(pic, iY + 2 * n, iCo + n, iCg + n, m));
  }

  lemma MoreRgb(q: Back, n: nat, m: nat, before: seq<Byte>)
    requires BackFits(q, n + m, |before|)
    ensures Put(Put(RgbDone(q, n, before), q.d + 8 * n,
                    StoredRow(RowPixels(q.pic, q.iY + 2 * n, q.iCo + n, q.iCg + n, m))),
                q.d + q.step + 8 * n, StoredRow(RowPixels(q.pic, q.iY + q.pic.stepY + 2 * n, q.iCo + n, q.iCg + n, m)))
         == RgbDone(q, n + m, before)
  {
    hide RowPixels, StoredRow, TwoRows, Put;
    RowPixelsMore(q.pic, q.iY, q.iCo, q.iCg, n, m);
    RowPixelsMore(q.pic, q.iY + q.pic.stepY, q.iCo, q.iCg, n, m);
    TwoRowsMore(before, q.d, q.step, StoredRow(RowPixels(q.pic, q.iY, q.iCo, q.iCg, n)),
                StoredRow(RowPixels(q.pic, q.iY + q.pic.stepY, q.iCo, q.iCg, n)),
                StoredRow(RowPixels(q.pic, q.iY + 2 * n, q.iCo + n, q.iCg + n, m)),
                StoredRow(RowPixels(q.pic, q.iY + q.pic.stepY + 2 * n, q.iCo + n, q.iCg + n, m)));
  }

  /** The blocks of a pair of rows one by one, from block `done` on. */
  method DecodeBlocks(q: Back, done: nat, n: nat, rgb: array<Byte>, ghost before: seq<Byte>)
    requires |before| == rgb.Length && done <= n && BackFits(q, n, |before|) && rgb[..] == RgbDone(q, done, before)
    modifies rgb
    ensures rgb[..] == RgbDone(q, n, before)
  {
    hide RgbDone, Put, RowPixels, StoredRow;
    for x := done to n
      invariant rgb[..] == RgbDone(q, x, before)
    {
      MoreRgb(q, x, 1, before);
      DecodeBlock(q.pic, q.iY + 2 * x, q.iCo + x, q.iCg + x, rgb, q.d + 8 * x, q.step);
    }
  }

  /** The three colours of one pixel, forced into bytes. */
  method DecodePixel(y: int, co: int, cg: int) returns (b: Byte, g: Byte, r: Byte)
    ensures Pixel(b, g, r) == Backward(Ycc(y, co, cg))
  {
    var t := y - cg / 2;
    var g' := cg + t;
    var b' := t - co / 2;
    var r' := b' + co;
    b, g, r := Clamp(b'), Clamp(g'), Clamp(r');
  }

  /** One block: four luma samples with the same chroma. */
  method DecodeBlock(pic: Samples420, iY: nat, iCo: nat, iCg: nat, rgb: array<Byte>, d: nat, step: nat)
    requires iY + pic.stepY + 2 <= |pic.y| && iCo < |pic.co| && iCg < |pic.cg| && 8 <= step &&
             d + step + 8 <= rgb.Length
    modifies rgb
    ensures rgb[..] == Put(Put(old(rgb[..]), d, StoredRow(RowPixels(pic, iY, iCo, iCg, 1))), d + step,
                           StoredRow(RowPixels(pic, iY + pic.stepY, iCo, iCg, 1)))
  {
    hide Backward, Put, RowPixels, StoredRow, Stored;
    var co, cg := Signed(pic.co[iCo]), Signed(pic.cg[iCg]);
    var b0, g0, r0 := DecodePixel(pic.y[iY], co, cg);
    var b1, g1, r1 := DecodePixel(pic.y[iY + 1], co, cg);
    var b2, g2, r2 := DecodePixel(pic.y[iY + pic.stepY], co, cg);
    var b3, g3, r3 := DecodePixel(pic.y[iY + pic.stepY + 1], co, cg);
    ghost var before := rgb[..];
    TwoPixels(pic, iY, iCo, iCg, Pixel(b0, g0, r0), Pixel(b1, g1, r1), before, d);
    StorePixel(rgb, d, Pixel(b0, g0, r0), b0, g0, r0);
    StorePixel(rgb, d + 4, Pixel(b1, g1, r1), b1, g1, r1);
    TwoPixels(pic, iY + pic.stepY, iCo, iCg, Pixel(b2, g2, r2), Pixel(b3, g3, r3), rgb[..], d + step);
    StorePixel(rgb, d + step, Pixel(b2, g2, r2), b2, g2, r2);
    StorePixel(rgb, d + step + 4, Pixel(b3, g3, r3), b3, g3, r3);
  }

  lemma TwoPixels(pic: Samples420, iY: nat, iCo: nat, iCg: nat, p0: Pixel, p1: Pixel, before: seq<Byte>, d: nat)
    requires iY + 2 <= |pic.y| && iCo < |pic.co| && iCg < |pic.cg| && d + 8 <= |before|
    requires p0 == Backward(Ycc(pic.y[iY], Signed(pic.co[iCo]), Signed(pic.cg[iCg])))
    requires p1 == Backward(Ycc(pic.y[iY + 1], Signed(pic.co[iCo]), Signed(pic.cg[iCg])))
    ensures Put(Put(before, d, Stored(p0)), d + 4, Stored(p1))
            == Put(before, d, StoredRow(RowPixels(pic, iY, iCo, iCg, 1)))
  {
    hide Backward, Put, Stored;
    assert RowPixels(pic, iY, iCo, iCg, 1) == [p0, p1];
    StoredTwo(p0, p1);
    hide StoredRow, RowPixels;
    PutMore(before, d, Stored(p0), Stored(p1));
  }

  lemma StoredTwo(p0: Pixel, p1: Pixel)
    ensures StoredRow([p0, p1]) == Stored(p0) + Stored(p1)
  {
    var none: seq<Pixel> := [];
    hide Stored;
    assert none + [p0] == [p0] && [p0] + [p1] == [p0, p1];
    StoredOne(none, p0);
    StoredOne([p0], p1);
    assert StoredRow(none) == [];
  }
}
