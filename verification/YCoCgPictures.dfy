/** Whole pictures in the 4:2:0 form: the portable loops (libxpp/XppYCoCgR.c) and the vector ones with their
    scalar tails (libxpp/simd/XppYCoCgR_neon.c) leave the same bytes. */
module YCoCgPictures {
  import opened Planes
  import opened YCoCg
  import opened YCoCg420
  import opened YCoCgNeon

  // ----- encoding

  function LumaRows(src: seq<Byte>, step: nat, halfWidth: nat, halfHeight: nat): (rows: seq<seq<Byte>>)
    requires Fits(|src|, step, 8 * halfWidth, 2 * halfHeight)
    ensures |rows| == 2 * halfHeight && Even(rows, 2 * halfWidth)
  {
    seq(2 * halfHeight, r requires 0 <= r < 2 * halfHeight =>
      (RowFits(|src|, step, 8 * halfWidth, 2 * halfHeight, r); LumaRow(src, Off(step, r), 2 * halfWidth)))
  }

  function ChromaRows(ch: Channel, src: seq<Byte>, step: nat, halfWidth: nat, halfHeight: nat): (rows: seq<seq<Byte>>)
    requires Fits(|src|, step, 8 * halfWidth, 2 * halfHeight) && !ch.Luma?
    ensures |rows| == halfHeight && Even(rows, halfWidth)
  {
    seq(halfHeight, r requires 0 <= r < halfHeight =>
      (PairInside(|src|, step, 8 * halfWidth, halfHeight, r); ChromaRow(ch, src, Off(step, 2 * r), step, halfWidth)))
  }

  /** The rows `2 * r` and `2 * r + 1`. */
  lemma PairInside(size: nat, step: nat, length: nat, halfHeight: nat, r: nat)
    requires Fits(size, step, length, 2 * halfHeight) && r < halfHeight
    ensures Off(step, 2 * r + 1) == Off(step, 2 * r) + step
    ensures Off(step, 2 * r) + step + length <= size
    ensures Off(step, 2 * (r + 1)) == Off(step, 2 * r) + 2 * step
  {
    RowFits(size, step, length, 2 * halfHeight, 2 * r + 1);
    OffNext(step, 2 * r);
    OffNext(step, 2 * r + 1);
  }

  /** The planes have room for a picture of that size, each row of luma in its own step. */
  predicate RoomFor(sizeY: nat, stepY: nat, sizeCo: nat, stepCo: nat, sizeCg: nat, stepCg: nat, halfWidth: nat,
                    halfHeight: nat) {
    && Fits(sizeY, stepY, 2 * halfWidth, 2 * halfHeight) && 2 * halfWidth <= stepY
    && Fits(sizeCo, stepCo, halfWidth, halfHeight) && Fits(sizeCg, stepCg, halfWidth, halfHeight)
  }

  /** The pair of rows number `r`. */
  function PairAt(src: seq<Byte>, step: nat, stepY: nat, stepCo: nat, stepCg: nat, r: nat): Pair {
    Pair(src, Off(step, 2 * r), step, Off(stepY, 2 * r), stepY, Off(stepCo, r), Off(stepCg, r))
  }

  lemma PairIs(src: seq<Byte>, step: nat, stepY: nat, stepCo: nat, stepCg: nat, r: nat)
    ensures var p := PairAt(src, step, stepY, stepCo, stepCg, r);
            && p.src == src && p.at == Off(step, 2 * r) && p.step == step && p.iY == Off(stepY, 2 * r) &&
                p.stepY == stepY
            && p.iCo == Off(stepCo, r) && p.iCg == Off(stepCg, r)
  {
  }

  lemma PairAtFits(src: seq<Byte>, step: nat, stepY: nat, stepCo: nat, stepCg: nat, r: nat,
                   sizeY: nat, sizeCo: nat, sizeCg: nat, halfWidth: nat, halfHeight: nat)
    requires Fits(|src|, step, 8 * halfWidth, 2 * halfHeight) && r < halfHeight
    requires RoomFor(sizeY, stepY, sizeCo, stepCo, sizeCg, stepCg, halfWidth, halfHeight)
    ensures PairFits(PairAt(src, step, stepY, stepCo, stepCg, r), halfWidth, sizeY, sizeCo, sizeCg)
  {
    PairInside(|src|, step, 8 * halfWidth, halfHeight, r);
    PairInside(sizeY, stepY, 2 * halfWidth, halfHeight, r);
    RowFits(sizeCo, stepCo, halfWidth, halfHeight, r);
    RowFits(sizeCg, stepCg, halfWidth, halfHeight, r);
    hide Off, Fits;
  }

  lemma LumaRowsAt(src: seq<Byte>, step: nat, halfWidth: nat, halfHeight: nat, r: nat)
    requires Fits(|src|, step, 8 * halfWidth, 2 * halfHeight) && r < halfHeight
    ensures Off(step, 2 * r) + step + 8 * halfWidth <= |src|
    ensures LumaRows(src, step, halfWidth, halfHeight)[2 * r] == LumaRow(src, Off(step, 2 * r), 2 * halfWidth)
    ensures LumaRows(src, step, halfWidth, halfHeight)[2 * r + 1]
            == LumaRow(src, Off(step, 2 * r) + step, 2 * halfWidth)
  {
    hide Off, LumaRow, Fits;
    PairInside(|src|, step, 8 * halfWidth, halfHeight, r);
  }

  lemma LumaPainted(src: seq<Byte>, step: nat, p: Pair, r: nat, before: seq<Byte>, halfWidth: nat, halfHeight: nat,
                    rows: seq<seq<Byte>>)
    requires Fits(|src|, step, 8 * halfWidth, 2 * halfHeight) && r < halfHeight
    requires Fits(|before|, p.stepY, 2 * halfWidth, 2 * halfHeight)
    requires p.src == src && p.at == Off(step, 2 * r) && p.step == step && p.iY == Off(p.stepY, 2 * r)
    requires PairFits(p, halfWidth, |before|, p.iCo + halfWidth, p.iCg + halfWidth)
    requires rows == LumaRows(src, step, halfWidth, halfHeight)
    ensures LumaDone(p, halfWidth, Painted(before, p.stepY, rows, 2 * halfWidth, 2 * r))
         == Painted(before, p.stepY, rows, 2 * halfWidth, 2 * r + 2)
  {
    hide Off, LumaRow, TwoRows, Painted, LumaRows, Fits, LumaDone;
    LumaRowsAt(src, step, halfWidth, halfHeight, r);
    LumaDoneIs(p, halfWidth, Painted(before, p.stepY, rows, 2 * halfWidth, 2 * r), rows[2 * r], rows[2 * r + 1]);
    PaintedTwo<Byte>(before, p.stepY, rows, 2 * halfWidth, 2 * r);
  }

  lemma LumaDoneIs(p: Pair, n: nat, y: seq<Byte>, top: seq<Byte>, bottom: seq<Byte>)
    requires PairFits(p, n, |y|, p.iCo + n, p.iCg + n)
    requires top == LumaRow(p.src, p.at, 2 * n) && bottom == LumaRow(p.src, p.at + p.step, 2 * n)
    ensures LumaDone(p, n, y) == TwoRows(y, p.iY, p.stepY, top, bottom)
  {
  }

  lemma ChromaPainted(ch: Channel, src: seq<Byte>, step: nat, p: Pair, r: nat, before: seq<Byte>, stepC: nat,
                      halfWidth: nat, halfHeight: nat, rows: seq<seq<Byte>>)
    requires Fits(|src|, step, 8 * halfWidth, 2 * halfHeight) && r < halfHeight && !ch.Luma?
    requires Fits(|before|, stepC, halfWidth, halfHeight)
    requires p.src == src && p.at == Off(step, 2 * r) && p.step == step
    requires rows == ChromaRows(ch, src, step, halfWidth, halfHeight)
    ensures p.at + p.step + 8 * halfWidth <= |src| && Off(stepC, r) + halfWidth <= |before|
    ensures ChromaDone(ch, p, halfWidth, Painted(before, stepC, rows, halfWidth, r), Off(stepC, r))
         == Painted(before, stepC, rows, halfWidth, r + 1)
  {
    hide Off, ChromaRow, Put;
    PairInside(|src|, step, 8 * halfWidth, halfHeight, r);
    RowFits(|before|, stepC, halfWidth, halfHeight, r);
    assert rows[r] == ChromaRow(ch, src, Off(step, 2 * r), step, halfWidth);
  }

  /** Interleaved pixels to the three planes, by the portable loop or by the vector one. */
  method Encode(src: seq<Byte>, srcStep: nat, pY: array<Byte>, stepY: nat, pCo: array<Byte>, stepCo: nat,
                pCg: array<Byte>, stepCg: nat, width: nat, height: nat, neon: bool)
    requires pY != pCo && pY != pCg && pCo != pCg
    requires Fits(|src|, srcStep, 8 * (width / 2), 2 * (height / 2))
    requires RoomFor(pY.Length, stepY, pCo.Length, stepCo, pCg.Length, stepCg, width / 2, height / 2)
    modifies pY, pCo, pCg
    ensures pY[..] == Painted(old(pY[..]), stepY, LumaRows(src, srcStep, width / 2, height / 2), 2 * (width / 2),
                              2 * (height / 2))
    ensures pCo[..] == Painted(old(pCo[..]), stepCo, ChromaRows(Orange, src, srcStep, width / 2, height / 2),
                               width / 2, height / 2)
    ensures pCg[..] == Painted(old(pCg[..]), stepCg, ChromaRows(Green, src, srcStep, width / 2, height / 2),
                               width / 2, height / 2)
  {
    var halfWidth, halfHeight := width / 2, height / 2;
    ghost var y0, co0, cg0 := pY[..], pCo[..], pCg[..];
    ghost var ys := LumaRows(src, srcStep, halfWidth, halfHeight);
    ghost var cos, cgs := ChromaRows(Orange, src, srcStep, halfWidth, halfHeight),
        ChromaRows(Green, src, srcStep, halfWidth, halfHeight);
    NothingPainted(y0, stepY, ys, 2 * halfWidth);
    NothingPainted(co0, stepCo, cos, halfWidth);
    NothingPainted(cg0, stepCg, cgs, halfWidth);
    hide Fits, LumaRows, ChromaRows, Painted, Even;
    for r := 0 to halfHeight
      invariant pY[..] == Painted(y0, stepY, ys, 2 * halfWidth, 2 * r)
      invariant pCo[..] == Painted(co0, stepCo, cos, halfWidth, r)
      invariant pCg[..] == Painted(cg0, stepCg, cgs, halfWidth, r)
    {
      EncodePairAt(src, srcStep, pY, stepY, pCo, stepCo, pCg, stepCg, halfWidth, halfHeight, r, neon, y0, co0, cg0,
                   ys, cos, cgs);
    }
  }

  lemma NothingPainted(s: seq<Byte>, step: nat, rows: seq<seq<Byte>>, length: nat)
    requires Even(rows, length) && Fits(|s|, step, length, |rows|)
    ensures Painted(s, step, rows, length, 0) == s
  {
  }

  method EncodePairAt(src: seq<Byte>, srcStep: nat, pY: array<Byte>, stepY: nat, pCo: array<Byte>, stepCo: nat,
                      pCg: array<Byte>, stepCg: nat, halfWidth: nat, halfHeight: nat, r: nat, neon: bool,
                      ghost y0: seq<Byte>, ghost co0: seq<Byte>, ghost cg0: seq<Byte>,
                      ghost ys: seq<seq<Byte>>, ghost cos: seq<seq<Byte>>, ghost cgs: seq<seq<Byte>>)
    requires pY != pCo && pY != pCg && pCo != pCg && r < halfHeight
    requires |y0| == pY.Length && |co0| == pCo.Length && |cg0| == pCg.Length
    requires Fits(|src|, srcStep, 8 * halfWidth, 2 * halfHeight)
    requires RoomFor(|y0|, stepY, |co0|, stepCo, |cg0|, stepCg, halfWidth, halfHeight)
    requires ys == LumaRows(src, srcStep, halfWidth, halfHeight)
    requires cos == ChromaRows(Orange, src, srcStep, halfWidth, halfHeight)
    requires cgs == ChromaRows(Green, src, srcStep, halfWidth, halfHeight)
    requires pY[..] == Painted(y0, stepY, ys, 2 * halfWidth, 2 * r)
    requires pCo[..] == Painted(co0, stepCo, cos, halfWidth, r) && pCg[..] == Painted(cg0, stepCg, cgs, halfWidth, r)
    modifies pY, pCo, pCg
    ensures pY[..] == Painted(y0, stepY, ys, 2 * halfWidth, 2 * (r + 1))
    ensures pCo[..] == Painted(co0, stepCo, cos, halfWidth, r + 1) &&
            pCg[..] == Painted(cg0, stepCg, cgs, halfWidth, r + 1)
  {
    hide Fits, Off, PairFits, LumaDone, ChromaDone, LumaRows, ChromaRows, Painted, PairAt, Even;
    var p := PairAt(src, srcStep, stepY, stepCo, stepCg, r);
    PairIs(src, srcStep, stepY, stepCo, stepCg, r);
    PairAtFits(src, srcStep, stepY, stepCo, stepCg, r, |y0|, |co0|, |cg0|, halfWidth, halfHeight);
    LumaFits(p, halfWidth, |y0|, |co0|, |cg0|);
    LumaPainted(src, srcStep, p, r, y0, halfWidth, halfHeight, ys);
    ChromaPainted(Orange, src, srcStep, p, r, co0, stepCo, halfWidth, halfHeight, cos);
    ChromaPainted(Green, src, srcStep, p, r, cg0, stepCg, halfWidth, halfHeight, cgs);
    EncodePair(p, halfWidth, pY, pCo, pCg, neon);
    assert 2 * (r + 1) == 2 * r + 2;
  }

  lemma LumaFits(p: Pair, n: nat, sizeY: nat, sizeCo: nat, sizeCg: nat)
    requires PairFits(p, n, sizeY, sizeCo, sizeCg)
    ensures PairFits(p, n, sizeY, p.iCo + n, p.iCg + n)
  {
  }

  /** One pair of rows: as many groups of thirty-two columns as there are, then block by block. */
  method EncodePair(p: Pair, n: nat, pY: array<Byte>, pCo: array<Byte>, pCg: array<Byte>, neon: bool)
    requires pY != pCo && pY != pCg && pCo != pCg && PairFits(p, n, pY.Length, pCo.Length, pCg.Length)
    modifies pY, pCo, pCg
    ensures pY[..] == LumaDone(p, n, old(pY[..]))
    ensures pCo[..] == ChromaDone(Orange, p, n, old(pCo[..]), p.iCo) &&
            pCg[..] == ChromaDone(Green, p, n, old(pCg[..]), p.iCg)
  {
    ghost var y0, co0, cg0 := pY[..], pCo[..], pCg[..];
    var done := 0;
    NoBlocks(p, y0, co0, cg0);
    hide LumaDone, ChromaDone;
    while neon && n - done >= 16
      invariant done <= n && pY[..] == LumaDone(p, done, y0)
      invariant pCo[..] == ChromaDone(Orange, p, done, co0, p.iCo) && pCg[..] == ChromaDone(Green, p, done, cg0, p.iCg)
      decreases n - done
    {
      EncodeColumns(p, done, pY, pCo, pCg, y0, co0, cg0);
      done := done + 16;
    }
    EncodeBlocks(p, done, n, pY, pCo, pCg, y0, co0, cg0);
  }

  // ----- decoding

  predicate SamplesFit(pic: Samples420, halfWidth: nat, halfHeight: nat) {
    && Fits(|pic.y|, pic.stepY, 2 * halfWidth, 2 * halfHeight)
    && Fits(|pic.co|, pic.stepCo, halfWidth, halfHeight) && Fits(|pic.cg|, pic.stepCg, halfWidth, halfHeight)
  }

  lemma SamplesRow(pic: Samples420, halfWidth: nat, halfHeight: nat, r: nat)
    requires SamplesFit(pic, halfWidth, halfHeight) && r < 2 * halfHeight
    ensures Off(pic.stepY, r) + 2 * halfWidth <= |pic.y| && Off(pic.stepCo, r / 2) + halfWidth <= |pic.co|
    ensures Off(pic.stepCg, r / 2) + halfWidth <= |pic.cg|
  {
    RowFits(|pic.y|, pic.stepY, 2 * halfWidth, 2 * halfHeight, r);
    RowFits(|pic.co|, pic.stepCo, halfWidth, halfHeight, r / 2);
    RowFits(|pic.cg|, pic.stepCg, halfWidth, halfHeight, r / 2);
  }

  /** Row `r` of the picture, two rows sharing each row of chroma. */
  function PictureRow420(pic: Samples420, halfWidth: nat, r: nat): (row: seq<Pixel>)
    requires Off(pic.stepY, r) + 2 * halfWidth <= |pic.y| && Off(pic.stepCo, r / 2) + halfWidth <= |pic.co|
    requires Off(pic.stepCg, r / 2) + halfWidth <= |pic.cg|
    ensures |row| == 2 * halfWidth
  {
    RowPixels(pic, Off(pic.stepY, r), Off(pic.stepCo, r / 2), Off(pic.stepCg, r / 2), halfWidth)
  }

  function RgbRows(pic: Samples420, halfWidth: nat, halfHeight: nat): (rows: seq<seq<Byte>>)
    requires SamplesFit(pic, halfWidth, halfHeight)
    ensures |rows| == 2 * halfHeight && Even(rows, 8 * halfWidth)
  {
    seq(2 * halfHeight, r requires 0 <= r < 2 * halfHeight =>
      (SamplesRow(pic, halfWidth, halfHeight, r); StoredRow(PictureRow420(pic, halfWidth, r))))
  }

  /** The three planes to interleaved pixels, by the portable loop or by the vector one. */
  method Decode(pic: Samples420, rgb: array<Byte>, dstStep: nat, width: nat, height: nat, neon: bool)
    requires SamplesFit(pic, width / 2, height / 2)
    requires Fits(rgb.Length, dstStep, 8 * (width / 2), 2 * (height / 2)) && 8 * (width / 2) <= dstStep
    modifies rgb
    ensures rgb[..] == Painted(old(rgb[..]), dstStep, RgbRows(pic, width / 2, height / 2), 8 * (width / 2),
                               2 * (height / 2))
  {
    var halfWidth, halfHeight := width / 2, height / 2;
    ghost var before, rows := rgb[..], RgbRows(pic, halfWidth, halfHeight);
    NothingPainted(before, dstStep, rows, 8 * halfWidth);
    hide Fits, RgbRows, Painted, Even, SamplesFit;
    for r := 0 to halfHeight
      invariant rgb[..] == Painted(before, dstStep, rows, 8 * halfWidth, 2 * r)
    {
      DecodePairAt(pic, rgb, dstStep, halfWidth, halfHeight, r, neon, before, rows);
    }
  }

  method DecodePairAt(pic: Samples420, rgb: array<Byte>, dstStep: nat, halfWidth: nat, halfHeight: nat, r: nat,
                      neon: bool,
                      ghost before: seq<Byte>, ghost rows: seq<seq<Byte>>)
    requires SamplesFit(pic, halfWidth, halfHeight) && r < halfHeight && |before| == rgb.Length
    requires Fits(|before|, dstStep, 8 * halfWidth, 2 * halfHeight) && 8 * halfWidth <= dstStep
    requires rows == RgbRows(pic, halfWidth, halfHeight) &&
             rgb[..] == Painted(before, dstStep, rows, 8 * halfWidth, 2 * r)
    modifies rgb
    ensures rgb[..] == Painted(before, dstStep, rows, 8 * halfWidth, 2 * (r + 1))
  {
    hide Fits, Off, BackFits, RgbDone, RgbRows, Painted, Even, SamplesFit;
    var q := Back(pic, Off(pic.stepY, 2 * r), Off(pic.stepCo, r), Off(pic.stepCg, r), Off(dstStep, 2 * r), dstStep);
    BackIs(q, halfWidth, halfHeight, r, |before|);
    RgbPainted(q, r, before, halfWidth, halfHeight, rows);
    DecodePair(q, halfWidth, rgb, neon);
    assert 2 * (r + 1) == 2 * r + 2;
  }

  lemma BackIs(q: Back, halfWidth: nat, halfHeight: nat, r: nat, size: nat)
    requires SamplesFit(q.pic, halfWidth, halfHeight) && r < halfHeight
    requires Fits(size, q.step, 8 * halfWidth, 2 * halfHeight) && 8 * halfWidth <= q.step
    requires q.iY == Off(q.pic.stepY, 2 * r) && q.iCo == Off(q.pic.stepCo, r) && q.iCg == Off(q.pic.stepCg, r)
    requires q.d == Off(q.step, 2 * r)
    ensures BackFits(q, halfWidth, size)
  {
    PairInside(|q.pic.y|, q.pic.stepY, 2 * halfWidth, halfHeight, r);
    PairInside(size, q.step, 8 * halfWidth, halfHeight, r);
    RowFits(|q.pic.co|, q.pic.stepCo, halfWidth, halfHeight, r);
    RowFits(|q.pic.cg|, q.pic.stepCg, halfWidth, halfHeight, r);
    hide Off, Fits;
  }

  lemma RgbRowsAt(pic: Samples420, halfWidth: nat, halfHeight: nat, r: nat)
    requires SamplesFit(pic, halfWidth, halfHeight) && r < halfHeight
    ensures Off(pic.stepY, 2 * r) + pic.stepY + 2 * halfWidth <= |pic.y|
    ensures Off(pic.stepCo, r) + halfWidth <= |pic.co| && Off(pic.stepCg, r) + halfWidth <= |pic.cg|
    ensures RgbRows(pic, halfWidth, halfHeight)[2 * r]
         == StoredRow(RowPixels(pic, Off(pic.stepY, 2 * r), Off(pic.stepCo, r), Off(pic.stepCg, r), halfWidth))
    ensures RgbRows(pic, halfWidth, halfHeight)[2 * r + 1]
         == StoredRow(RowPixels(pic, Off(pic.stepY, 2 * r) + pic.stepY, Off(pic.stepCo, r), Off(pic.stepCg, r),
                                halfWidth))
  {
    hide Off, RowPixels, Fits, StoredRow;
    PairInside(|pic.y|, pic.stepY, 2 * halfWidth, halfHeight, r);
    RowFits(|pic.co|, pic.stepCo, halfWidth, halfHeight, r);
    RowFits(|pic.cg|, pic.stepCg, halfWidth, halfHeight, r);
    assert 2 * r / 2 == r && (2 * r + 1) / 2 == r;
    assert RgbRows(pic, halfWidth, halfHeight)[2 * r] == StoredRow(PictureRow420(pic, halfWidth, 2 * r));
    assert RgbRows(pic, halfWidth, halfHeight)[2 * r + 1] == StoredRow(PictureRow420(pic, halfWidth, 2 * r + 1));
  }

  lemma RgbPainted(q: Back, r: nat, before: seq<Byte>, halfWidth: nat, halfHeight: nat, rows: seq<seq<Byte>>)
    requires SamplesFit(q.pic, halfWidth, halfHeight) && r < halfHeight && BackFits(q, halfWidth, |before|)
    requires Fits(|before|, q.step, 8 * halfWidth, 2 * halfHeight)
    requires q.iY == Off(q.pic.stepY, 2 * r) && q.iCo == Off(q.pic.stepCo, r) && q.iCg == Off(q.pic.stepCg, r)
    requires q.d == Off(q.step, 2 * r) && rows == RgbRows(q.pic, halfWidth, halfHeight)
    ensures RgbDone(q, halfWidth, Painted(before, q.step, rows, 8 * halfWidth, 2 * r))
         == Painted(before, q.step, rows, 8 * halfWidth, 2 * r + 2)
  {
    hide Off, RowPixels, TwoRows, Painted, RgbRows, Fits, RgbDone, StoredRow, SamplesFit;
    RgbRowsAt(q.pic, halfWidth, halfHeight, r);
    RgbDoneIs(q, halfWidth, Painted(before, q.step, rows, 8 * halfWidth, 2 * r), rows[2 * r], rows[2 * r + 1]);
    PaintedTwo(before, q.step, rows, 8 * halfWidth, 2 * r);
  }

  lemma RgbDoneIs(q: Back, n: nat, rgb: seq<Byte>, top: seq<Byte>, bottom: seq<Byte>)
    requires BackFits(q, n, |rgb|)
    requires top == StoredRow(RowPixels(q.pic, q.iY, q.iCo, q.iCg, n))
    requires bottom == StoredRow(RowPixels(q.pic, q.iY + q.pic.stepY, q.iCo, q.iCg, n))
    ensures RgbDone(q, n, rgb) == TwoRows(rgb, q.d, q.step, top, bottom)
  {
  }

  method DecodePair(q: Back, n: nat, rgb: array<Byte>, neon: bool)
    requires BackFits(q, n, rgb.Length)
    modifies rgb
    ensures rgb[..] == RgbDone(q, n, old(rgb[..]))
  {
    ghost var before := rgb[..];
    var done := 0;
    NothingDecoded(q, before);
    hide RgbDone;
    while neon && n - done >= 16
      invariant done <= n && rgb[..] == RgbDone(q, done, before)
      decreases n - done
    {
      DecodeColumns(q, done, rgb, before);
      done := done + 16;
    }
    DecodeBlocks(q, done, n, rgb, before);
  }

  // ----- there and back

  predicate PlanesFit(planes: Samples420, halfWidth: nat, halfHeight: nat) {
    && SamplesFit(planes, halfWidth, halfHeight)
    && 2 * halfWidth <= planes.stepY && halfWidth <= planes.stepCo && halfWidth <= planes.stepCg
  }

  /** What `Encode` leaves in three planes. */
  function Encoded420(src: seq<Byte>, srcStep: nat, planes: Samples420, halfWidth: nat,
                      halfHeight: nat): (pic: Samples420)
    requires Fits(|src|, srcStep, 8 * halfWidth, 2 * halfHeight) && SamplesFit(planes, halfWidth, halfHeight)
    ensures SamplesFit(pic, halfWidth, halfHeight)
    ensures pic.stepY == planes.stepY && pic.stepCo == planes.stepCo && pic.stepCg == planes.stepCg
  {
    Samples420(
      Painted(planes.y, planes.stepY, LumaRows(src, srcStep, halfWidth, halfHeight), 2 * halfWidth, 2 * halfHeight),
          planes.stepY,
      Painted(planes.co, planes.stepCo, ChromaRows(Orange, src, srcStep, halfWidth, halfHeight), halfWidth,
              halfHeight), planes.stepCo,
      Painted(planes.cg, planes.stepCg, ChromaRows(Green, src, srcStep, halfWidth, halfHeight), halfWidth,
              halfHeight), planes.stepCg)
  }

  lemma LumaAt(src: seq<Byte>, srcStep: nat, y: seq<Byte>, stepY: nat, halfWidth: nat, halfHeight: nat, row: nat,
               col: nat)
    requires Fits(|src|, srcStep, 8 * halfWidth, 2 * halfHeight) && Fits(|y|, stepY, 2 * halfWidth, 2 * halfHeight)
    requires 2 * halfWidth <= stepY && row < 2 * halfHeight && col < 2 * halfWidth
    ensures Off(srcStep, row) + 4 * col + 4 <= |src| && Off(stepY, row) + col < |y|
    ensures Painted(y, stepY, LumaRows(src, srcStep, halfWidth, halfHeight), 2 * halfWidth,
                    2 * halfHeight)[Off(stepY, row) + col]
         == LumaSample(PixelAt(src, Off(srcStep, row) + 4 * col))
  {
    hide Off, PixelAt, LumaSample, Painted;
    var rows := LumaRows(src, srcStep, halfWidth, halfHeight);
    RowFits(|src|, srcStep, 8 * halfWidth, 2 * halfHeight, row);
    assert rows[row] == LumaRow(src, Off(srcStep, row), 2 * halfWidth);
    hide Fits, LumaRows;
    PaintedAt(y, stepY, rows, 2 * halfWidth, 2 * halfHeight, row, col);
  }

  lemma ChromaAt(ch: Channel, src: seq<Byte>, srcStep: nat, c: seq<Byte>, stepC: nat, halfWidth: nat, halfHeight: nat,
                 r: nat, x: nat)
    requires Fits(|src|, srcStep, 8 * halfWidth, 2 * halfHeight) && Fits(|c|, stepC, halfWidth, halfHeight) && !ch.Luma?
    requires halfWidth <= stepC && r < halfHeight && x < halfWidth
    ensures Off(srcStep, 2 * r) + 8 * x + srcStep + 8 <= |src| && Off(stepC, r) + x < |c|
    ensures Painted(c, stepC, ChromaRows(ch, src, srcStep, halfWidth, halfHeight), halfWidth,
                    halfHeight)[Off(stepC, r) + x]
         == BlockSample(ch, src, Off(srcStep, 2 * r) + 8 * x, srcStep)
  {
    hide Off, BlockSample, Painted;
    var rows := ChromaRows(ch, src, srcStep, halfWidth, halfHeight);
    PairInside(|src|, srcStep, 8 * halfWidth, halfHeight, r);
    assert rows[r] == ChromaRow(ch, src, Off(srcStep, 2 * r), srcStep, halfWidth);
    hide Fits, ChromaRows;
    PaintedAt(c, stepC, rows, halfWidth, halfHeight, r, x);
  }

  /** The pixel at a row and column after encoding and decoding: its own luma and the chroma of its block. */
  lemma PixelBack(src: seq<Byte>, srcStep: nat, planes: Samples420, halfWidth: nat, halfHeight: nat, row: nat, col: nat)
    requires Fits(|src|, srcStep, 8 * halfWidth, 2 * halfHeight) && PlanesFit(planes, halfWidth, halfHeight)
    requires row < 2 * halfHeight && col < 2 * halfWidth
    ensures var pic := Encoded420(src, srcStep, planes, halfWidth, halfHeight);
            var block := Off(srcStep, 2 * (row / 2)) + 8 * (col / 2);
            && Off(pic.stepY, row) + 2 * halfWidth <= |pic.y| && Off(pic.stepCo, row / 2) + halfWidth <= |pic.co|
            && Off(pic.stepCg, row / 2) + halfWidth <= |pic.cg|
            && Off(srcStep, row) + 4 * col + 4 <= |src| && block + srcStep + 8 <= |src|
            && PictureRow420(pic, halfWidth, row)[col]
            == Pixel420(LumaSample(PixelAt(src, Off(srcStep, row) + 4 * col)),
                        BlockSample(Orange, src, block, srcStep), BlockSample(Green, src, block, srcStep))
  {
    hide Off, Pixel420, LumaSample, BlockSample, Painted, LumaRows, ChromaRows, Fits, PixelAt;
    SamplesRow(Encoded420(src, srcStep, planes, halfWidth, halfHeight), halfWidth, halfHeight, row);
    LumaAt(src, srcStep, planes.y, planes.stepY, halfWidth, halfHeight, row, col);
    ChromaAt(Orange, src, srcStep, planes.co, planes.stepCo, halfWidth, halfHeight, row / 2, col / 2);
    ChromaAt(Green, src, srcStep, planes.cg, planes.stepCg, halfWidth, halfHeight, row / 2, col / 2);
  }

  /** All four pixels of block (`r`, `x`) have the colour of its first. */
  predicate EqualPixels(src: seq<Byte>, srcStep: nat, r: nat, x: nat) {
    SamePixels(src, Off(srcStep, 2 * r) + 8 * x, srcStep)
  }

  /** The four pixels of a block of equal ones come back with blue exact, green and red exact or one higher,
      and an opaque alpha. */
  lemma EqualBlockBackInPicture(src: seq<Byte>, srcStep: nat, planes: Samples420, rgb: seq<Byte>, dstStep: nat,
                                halfWidth: nat, halfHeight: nat, row: nat, col: nat)
    requires Fits(|src|, srcStep, 8 * halfWidth, 2 * halfHeight) && PlanesFit(planes, halfWidth, halfHeight)
    requires Fits(|rgb|, dstStep, 8 * halfWidth, 2 * halfHeight) && 8 * halfWidth <= dstStep
    requires row < 2 * halfHeight && col < 2 * halfWidth && EqualPixels(src, srcStep, row / 2, col / 2)
    ensures var rows := RgbRows(Encoded420(src, srcStep, planes, halfWidth, halfHeight), halfWidth, halfHeight);
            var after := Painted(rgb, dstStep, rows, 8 * halfWidth, 2 * halfHeight);
            var from, d := Off(srcStep, row) + 4 * col, Off(dstStep, row) + 4 * col;
            && from + 4 <= |src| && d + 4 <= |after|
            && var p := PixelAt(src, from);
               after[d..d + 4] == [p.b, Raised(p.g, Forward(p).cg), Raised(p.r, Forward(p).co), 0xFF]
  {
    hide Off, Pixel420, LumaSample, BlockSample, Painted, LumaRows, ChromaRows, Fits, PixelAt, Encoded420, RgbRows,
         SamplesFit, PlanesFit, Forward, Raised, Stored, PictureRow420;
    SamplesOf(planes, halfWidth, halfHeight);
    var pic := Encoded420(src, srcStep, planes, halfWidth, halfHeight);
    RowFits(|src|, srcStep, 8 * halfWidth, 2 * halfHeight, row);
    PixelBack(src, srcStep, planes, halfWidth, halfHeight, row, col);
    BlockOf(src, srcStep, row, col);
    EqualPixelBack(PixelAt(src, Off(srcStep, row) + 4 * col), PictureRow420(pic, halfWidth, row)[col]);
    RgbRowAt(pic, halfWidth, halfHeight, row, col);
    PaintedSlice(rgb, dstStep, RgbRows(pic, halfWidth, halfHeight), 8 * halfWidth, 2 * halfHeight, row, 4 * col,
                 4 * col + 4);
  }

  lemma SamplesOf(planes: Samples420, halfWidth: nat, halfHeight: nat)
    requires PlanesFit(planes, halfWidth, halfHeight)
    ensures SamplesFit(planes, halfWidth, halfHeight)
  {
  }

  lemma EqualPixelBack(p: Pixel, out: Pixel)
    requires IsRgb(p) && out == EqualBlockBack(p)
    ensures Stored(out) == [p.b, Raised(p.g, Forward(p).cg), Raised(p.r, Forward(p).co), 0xFF]
  {
    hide Forward, EqualBlockBack;
    EqualBlock(p);
  }

  /** In a block of equal pixels every pixel's samples are those of four such pixels. */
  lemma BlockOf(src: seq<Byte>, srcStep: nat, row: nat, col: nat)
    requires EqualPixels(src, srcStep, row / 2, col / 2) && Off(srcStep, row) + 4 * col + 4 <= |src|
    ensures var p := PixelAt(src, Off(srcStep, row) + 4 * col);
            var block := Off(srcStep, 2 * (row / 2)) + 8 * (col / 2);
            && block + srcStep + 8 <= |src|
            && Pixel420(LumaSample(p), BlockSample(Orange, src, block, srcStep),
                        BlockSample(Green, src, block, srcStep))
            == EqualBlockBack(p)
  {
    hide Off, Pixel420, LumaSample, ChromaSample, PixelAt, BlockSample, EqualPixels;
    var block := Off(srcStep, 2 * (row / 2)) + 8 * (col / 2);
    Corner(src, srcStep, row / 2, col / 2, row, col);
    SameSamples(Orange, src, block, srcStep);
    SameSamples(Green, src, block, srcStep);
  }

  predicate SamePixels(src: seq<Byte>, at: nat, step: nat) {
    && at + step + 8 <= |src| && PixelAt(src, at + 4) == PixelAt(src, at)
    && PixelAt(src, at + step) == PixelAt(src, at) && PixelAt(src, at + step + 4) == PixelAt(src, at)
  }

  lemma SameSamples(ch: Channel, src: seq<Byte>, at: nat, step: nat)
    requires SamePixels(src, at, step) && !ch.Luma?
    ensures var p := PixelAt(src, at);
            BlockSample(ch, src, at, step) == ChromaSample(ch, p, p, p, p)
  {
    hide PixelAt, ChromaSample;
  }

  /** A pixel is one of the four of its block. */
  lemma Corner(src: seq<Byte>, step: nat, r: nat, x: nat, row: nat, col: nat)
    requires EqualPixels(src, step, r, x) && (row == 2 * r || row == 2 * r + 1) && (col == 2 * x || col == 2 * x + 1)
    ensures SamePixels(src, Off(step, 2 * r) + 8 * x, step)
    ensures Off(step, row) + 4 * col + 4 <= |src|
    ensures PixelAt(src, Off(step, row) + 4 * col) == PixelAt(src, Off(step, 2 * r) + 8 * x)
  {
    OffNext(step, 2 * r);
    hide Off, PixelAt;
    assert 4 * (2 * x) == 8 * x && 4 * (2 * x + 1) == 8 * x + 4;
  }

  lemma RgbRowAt(pic: Samples420, halfWidth: nat, halfHeight: nat, row: nat, col: nat)
    requires SamplesFit(pic, halfWidth, halfHeight) && row < 2 * halfHeight && col < 2 * halfWidth
    ensures Off(pic.stepY, row) + 2 * halfWidth <= |pic.y| && Off(pic.stepCo, row / 2) + halfWidth <= |pic.co|
    ensures Off(pic.stepCg, row / 2) + halfWidth <= |pic.cg|
    ensures RgbRows(pic, halfWidth, halfHeight)[row][4 * col..4 * col + 4]
            == Stored(PictureRow420(pic, halfWidth, row)[col])
  {
    hide Off, StoredRow, PictureRow420, Stored, SamplesFit;
    SamplesRow(pic, halfWidth, halfHeight, row);
    assert RgbRows(pic, halfWidth, halfHeight)[row] == StoredRow(PictureRow420(pic, halfWidth, row));
    StoredAt(PictureRow420(pic, halfWidth, row), col);
  }
}
