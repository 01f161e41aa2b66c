/** The rectangle in which two images differ (libxpp/XppCompare.c and libxpp/simd/XppCompare_sse2.c). */
module PixelCompare {
  import Bytes
  import opened Planes

  type Byte = Bytes.Byte

  datatype Rect = Rect(left: int, top: int, right: int, bottom: int)

  /** Two images of the same size, `unit` bytes a pixel, each with its own step from row to row. */
  datatype Images = Images(data1: seq<Byte>, step1: nat, data2: seq<Byte>, step2: nat, width: nat, height: nat,
                           unit: nat)

  predicate Readable(im: Images) {
    && im.unit > 0
    && (im.height > 0 ==> Off(im.step1, im.height - 1) + im.unit * im.width <= |im.data1|)
    && (im.height > 0 ==> Off(im.step2, im.height - 1) + im.unit * im.width <= |im.data2|)
  }

  lemma RowReadable(im: Images, y: nat)
    requires Readable(im) && y < im.height
    ensures Off(im.step1, y) + im.unit * im.width <= |im.data1|
    ensures Off(im.step2, y) + im.unit * im.width <= |im.data2|
  {
    OffAscends(im.step1, y, im.height - 1);
    OffAscends(im.step2, y, im.height - 1);
  }

  /** The pixels `from..end` of row `y` of the two images. */
  ghost function Span1(im: Images, y: nat, from: nat, end: nat): (s: seq<Byte>)
    requires Readable(im) && y < im.height && from <= end <= im.width
    ensures |s| == im.unit * end - im.unit * from
  {
    SpanBounds(im, y, from, end);
    im.data1[Off(im.step1, y) + im.unit * from..Off(im.step1, y) + im.unit * end]
  }

  ghost function Span2(im: Images, y: nat, from: nat, end: nat): (s: seq<Byte>)
    requires Readable(im) && y < im.height && from <= end <= im.width
    ensures |s| == im.unit * end - im.unit * from
  {
    SpanBounds(im, y, from, end);
    im.data2[Off(im.step2, y) + im.unit * from..Off(im.step2, y) + im.unit * end]
  }

  lemma SpanBounds(im: Images, y: nat, from: nat, end: nat)
    requires Readable(im) && y < im.height && from <= end <= im.width
    ensures im.unit * from <= im.unit * end <= im.unit * im.width
    ensures Off(im.step1, y) + im.unit * end <= |im.data1| && Off(im.step2, y) + im.unit * end <= |im.data2|
  {
    RowReadable(im, y);
  }

  /** The images differ somewhere in the pixels `from..end` of row `y`. */
  ghost predicate SpanDiffers(im: Images, y: nat, from: nat, end: nat)
    requires Readable(im) && y < im.height && from <= end <= im.width
  {
    Span1(im, y, from, end) != Span2(im, y, from, end)
  }

  /** The images differ at a pixel. */
  ghost predicate Differs(im: Images, y: nat, x: nat) {
    Readable(im) && y < im.height && x < im.width && SpanDiffers(im, y, x, x + 1)
  }

  /** Some pixel `from..end` of row `y` differs. */
  ghost predicate AnyDiffers(im: Images, y: nat, from: nat, end: nat) {
    exists x: nat :: from <= x < end && Differs(im, y, x)
  }

  /** Comparing a span decides whether any of its pixels differs. */
  lemma {:induction false} SpanIsPixels(im: Images, y: nat, from: nat, end: nat)
    requires Readable(im) && y < im.height && from <= end <= im.width
    ensures SpanDiffers(im, y, from, end) <==> AnyDiffers(im, y, from, end)
    decreases end
  {
    hide SpanDiffers, AnyDiffers;
    if from < end {
      SpanIsPixels(im, y, from, end - 1);
      SpanSplits(im, y, from, end - 1, end);
      LastPixel(im, y, from, end - 1);
    } else {
      NoPixels(im, y, from);
    }
  }

  lemma LastPixel(im: Images, y: nat, from: nat, last: nat)
    requires Readable(im) && y < im.height && from <= last < im.width
    ensures AnyDiffers(im, y, from, last + 1) <==> AnyDiffers(im, y, from, last) || SpanDiffers(im, y, last, last + 1)
  {
    hide SpanDiffers;
    assert Differs(im, y, last) <==> SpanDiffers(im, y, last, last + 1);
  }

  lemma NoPixels(im: Images, y: nat, from: nat)
    requires Readable(im) && y < im.height && from <= im.width
    ensures !SpanDiffers(im, y, from, from) && !AnyDiffers(im, y, from, from)
  {
    hide Span1, Span2;
    assert Span1(im, y, from, from) == Span2(im, y, from, from);
  }

  lemma SpanSplits(im: Images, y: nat, from: nat, mid: nat, end: nat)
    requires Readable(im) && y < im.height && from <= mid <= end <= im.width
    ensures SpanDiffers(im, y, from, end) <==> SpanDiffers(im, y, from, mid) || SpanDiffers(im, y, mid, end)
  {
    var n := SpanParts(im, y, from, mid, end);
    hide Span1, Span2;
    SplitEqual(Span1(im, y, from, end), Span2(im, y, from, end), n);
  }

  lemma SpanParts(im: Images, y: nat, from: nat, mid: nat, end: nat) returns (n: nat)
    requires Readable(im) && y < im.height && from <= mid <= end <= im.width
    ensures n <= |Span1(im, y, from, end)| == |Span2(im, y, from, end)|
    ensures Span1(im, y, from, end)[..n] == Span1(im, y, from, mid) &&
            Span1(im, y, from, end)[n..] == Span1(im, y, mid, end)
    ensures Span2(im, y, from, end)[..n] == Span2(im, y, from, mid) &&
            Span2(im, y, from, end)[n..] == Span2(im, y, mid, end)
  {
    SpanBounds(im, y, from, mid);
    SpanBounds(im, y, mid, end);
    n := im.unit * mid - im.unit * from;
    Slices(im.data1, Off(im.step1, y), im.unit * from, im.unit * mid, im.unit * end);
    Slices(im.data2, Off(im.step2, y), im.unit * from, im.unit * mid, im.unit * end);
    hide Off, Readable;
  }

  lemma Slices(data: seq<Byte>, at: nat, a: nat, b: nat, c: nat)
    requires a <= b <= c && at + c <= |data|
    ensures data[at + a..at + c][..b - a] == data[at + a..at + b] &&
            data[at + a..at + c][b - a..] == data[at + b..at + c]
  {
  }

  lemma SplitEqual(a: seq<Byte>, b: seq<Byte>, n: nat)
    requires n <= |a| == |b|
    ensures a == b <==> a[..n] == b[..n] && a[n..] == b[n..]
  {
    assert a == a[..n] + a[n..] && b == b[..n] + b[n..];
  }

  // ----- tiles and rectangles

  function Min(a: int, b: int): int { if a < b then a else b }

  /** A pixel left of column `limit` differs in the square tile of side `a` at row `ty`, column `tx`. */
  ghost predicate TileDiffers(im: Images, limit: nat, a: nat, ty: int, tx: int) {
    exists y: nat, x: nat :: InTile(a, ty, tx, y, x) && x < limit && Differs(im, y, x)
  }

  predicate InTile(a: nat, ty: int, tx: int, y: nat, x: nat) {
    a * ty <= y < a * ty + a && a * tx <= x < a * tx + a
  }

  ghost predicate Covers(im: Images, limit: nat, rect: Rect) {
    forall y: nat, x: nat :: Differs(im, y, x) && x < limit ==>
        rect.left <= x < rect.right && rect.top <= y < rect.bottom
  }

  predicate Aligned(a: nat, rect: Rect)
    requires a > 0
  {
    rect.left % a == 0 && rect.top % a == 0 && rect.right % a == 0 && rect.bottom % a == 0
  }

  predicate Within(inner: Rect, outer: Rect) {
    outer.left <= inner.left && outer.top <= inner.top && inner.right <= outer.right && inner.bottom <= outer.bottom
  }

  /** The smallest rectangle on the grid of step `a` around all the differences left of `limit`. */
  ghost predicate Smallest(im: Images, limit: nat, a: nat, rect: Rect)
    requires a > 0
  {
    && Aligned(a, rect) && Covers(im, limit, rect)
    && forall other: Rect :: Aligned(a, other) && Covers(im, limit, other) ==> Within(rect, other)
  }

  function Clip(rect: Rect, width: nat, height: nat): Rect {
    Rect(rect.left, rect.top, Min(rect.right, width), Min(rect.bottom, height))
  }

  /** There is only one such rectangle. */
  lemma SmallestUnique(im: Images, limit: nat, a: nat, r1: Rect, r2: Rect)
    requires a > 0 && Smallest(im, limit, a, r1) && Smallest(im, limit, a, r2)
    ensures r1 == r2
  {
    assert Within(r1, r2) && Within(r2, r1);
  }

  ghost predicate SomethingDiffers(im: Images, limit: nat) {
    exists y: nat, x: nat :: x < limit && Differs(im, y, x)
  }

  /** The tile rows and columns between which all differing tiles lie, each of them with one. */
  ghost predicate TileBounds(im: Images, limit: nat, a: nat, l: int, t: int, r: int, b: int) {
    && (forall ty: int, tx: int :: TileDiffers(im, limit, a, ty, tx) ==> l <= tx <= r && t <= ty <= b)
    && (exists ty: int :: TileDiffers(im, limit, a, ty, l))
    && (exists ty: int :: TileDiffers(im, limit, a, ty, r))
    && (exists tx: int :: TileDiffers(im, limit, a, t, tx))
    && (exists tx: int :: TileDiffers(im, limit, a, b, tx))
  }

  lemma BoundsToRect(im: Images, limit: nat, a: nat, l: int, t: int, r: int, b: int)
    requires a == 4 || a == 16
    requires TileBounds(im, limit, a, l, t, r, b)
    ensures Smallest(im, limit, a, Rect(a * l, a * t, a * (r + 1), a * (b + 1))) && SomethingDiffers(im, limit)
  {
    var rect := Rect(a * l, a * t, a * (r + 1), a * (b + 1));
    assert Aligned(a, rect) by { OnGrid(a, l, t, r + 1, b + 1); }
    BoundsCover(im, limit, a, l, t, r, b);
    var yl, xl := PixelOfColumn(im, limit, a, l);
    var yr, xr := PixelOfColumn(im, limit, a, r);
    var yt, xt := PixelOfRow(im, limit, a, t);
    var yb, xb := PixelOfRow(im, limit, a, b);
    forall other: Rect | Aligned(a, other) && Covers(im, limit, other) ensures Within(rect, other) {
      hide Differs;
      GridSteps(a, other.left, xl, l, other.right, xr, r);
      GridSteps(a, other.top, yt, t, other.bottom, yb, b);
    }
  }

  lemma OnGrid(a: nat, p: int, q: int, r: int, s: int)
    requires a == 4 || a == 16
    ensures a * p % a == 0 && a * q % a == 0 && a * r % a == 0 && a * s % a == 0
  {
    Multiple(a, p);
    Multiple(a, q);
    Multiple(a, r);
    Multiple(a, s);
  }

  lemma Multiple(a: nat, p: int)
    requires a == 4 || a == 16
    ensures a * p % a == 0
  {
    if a == 4 { } else { }
  }

  lemma GridLine(a: nat, x: int) returns (q: int)
    requires (a == 4 || a == 16) && x % a == 0
    ensures x == a * q
  {
    q := x / a;
    if a == 4 { } else { }
  }

  /** A grid line not beyond a pixel is not beyond its tile, and one beyond a pixel is beyond its tile. */
  lemma GridSteps(a: nat, low: int, first: nat, l: int, high: int, last: nat, r: int)
    requires (a == 4 || a == 16) && low % a == 0 && high % a == 0
    requires low <= first < a * l + a && a * r <= last < high
    ensures low <= a * l && a * (r + 1) <= high
  {
    var u := GridLine(a, low);
    var v := GridLine(a, high);
    Below(a, u, l + 1);
    Below(a, r, v);
  }

  lemma Below(a: nat, u: int, v: int)
    requires (a == 4 || a == 16) && a * u < a * v
    ensures u + 1 <= v && a * (u + 1) <= a * v && a * u <= a * (v - 1)
  {
    if a == 4 { } else { }
  }

  lemma BoundsCover(im: Images, limit: nat, a: nat, l: int, t: int, r: int, b: int)
    requires (a == 4 || a == 16) && TileBounds(im, limit, a, l, t, r, b)
    ensures Covers(im, limit, Rect(a * l, a * t, a * (r + 1), a * (b + 1)))
  {
    hide Differs;
    forall y: nat, x: nat | Differs(im, y, x) && x < limit
      ensures a * l <= x < a * (r + 1) && a * t <= y < a * (b + 1)
    {
      TileOf(a, y, x);
      assert TileDiffers(im, limit, a, y / a, x / a);
      TileInside(a, x, x / a, l, r);
      TileInside(a, y, y / a, t, b);
    }
  }

  lemma TileOf(a: nat, y: nat, x: nat)
    requires a == 4 || a == 16
    ensures InTile(a, y / a, x / a, y, x)
  {
    if a == 4 { } else { }
  }

  lemma TileInside(a: nat, x: nat, tx: int, l: int, r: int)
    requires (a == 4 || a == 16) && a * tx <= x < a * tx + a && l <= tx <= r
    ensures a * l <= x < a * (r + 1)
  {
    if a == 4 { } else { }
  }

  lemma PixelOfColumn(im: Images, limit: nat, a: nat, tx: int) returns (y: nat, x: nat)
    requires exists ty: int :: TileDiffers(im, limit, a, ty, tx)
    ensures Differs(im, y, x) && x < limit && a * tx <= x < a * tx + a
  {
    var ty: int :| TileDiffers(im, limit, a, ty, tx);
    y, x :| InTile(a, ty, tx, y, x) && x < limit && Differs(im, y, x);
  }

  lemma PixelOfRow(im: Images, limit: nat, a: nat, ty: int) returns (y: nat, x: nat)
    requires exists tx: int :: TileDiffers(im, limit, a, ty, tx)
    ensures Differs(im, y, x) && x < limit && a * ty <= y < a * ty + a
  {
    var tx: int :| TileDiffers(im, limit, a, ty, tx);
    y, x :| InTile(a, ty, tx, y, x) && x < limit && Differs(im, y, x);
  }

  // ----- 32-bit pixels, tile by tile

  ghost predicate RowDiffers(im: Images, limit: nat, a: nat, ty: int) {
    exists tx: int :: TileDiffers(im, limit, a, ty, tx)
  }

  ghost predicate RowsDiffer(im: Images, y0: nat, th: nat, from: nat, end: nat) {
    exists y: nat :: y0 <= y < y0 + th && AnyDiffers(im, y, from, end)
  }

  /** The rows and columns that are compared for a tile are all of it that the image has. */
  lemma TileMeaning(im: Images, limit: nat, ty: nat, tx: nat, th: nat, tw: nat)
    requires Readable(im) && limit <= im.width
    requires 16 * ty + th == Min(16 * ty + 16, im.height) && 16 * tx + tw == Min(16 * tx + 16, limit)
    ensures RowsDiffer(im, 16 * ty, th, 16 * tx, 16 * tx + tw) <==> TileDiffers(im, limit, 16, ty, tx)
  {
    hide SpanDiffers;
    if RowsDiffer(im, 16 * ty, th, 16 * tx, 16 * tx + tw) {
      var y: nat :| 16 * ty <= y < 16 * ty + th && AnyDiffers(im, y, 16 * tx, 16 * tx + tw);
      var x: nat :| 16 * tx <= x < 16 * tx + tw && Differs(im, y, x);
      assert InTile(16, ty, tx, y, x);
    }
    if TileDiffers(im, limit, 16, ty, tx) {
      var y: nat, x: nat :| InTile(16, ty, tx, y, x) && x < limit && Differs(im, y, x);
      assert AnyDiffers(im, y, 16 * tx, 16 * tx + tw);
    }
  }

  /** The bytes of `tw` pixels are those pixels. */
  lemma PixelsAreSpan(im: Images, y: nat, x: nat, tw: nat, p1: nat, p2: nat)
    requires Readable(im) && im.unit == 4 && y < im.height && x + tw <= im.width
    requires p1 == Off(im.step1, y) + x * 4 && p2 == Off(im.step2, y) + x * 4
    ensures p1 + tw * 4 <= |im.data1| && p2 + tw * 4 <= |im.data2|
    ensures im.data1[p1..p1 + tw * 4] != im.data2[p2..p2 + tw * 4] <==> SpanDiffers(im, y, x, x + tw)
  {
    hide Off;
    SpanBounds(im, y, x, x + tw);
  }

  lemma OffIs(im: Images, y: nat)
    ensures y * im.step1 == Off(im.step1, y) && y * im.step2 == Off(im.step2, y)
  {
  }

  /** Compares `th` rows of `tw` pixels. */
  method TileEqual(im: Images, y0: nat, th: nat, x0: nat, tw: nat) returns (equal: bool)
    requires Readable(im) && im.unit == 4 && y0 + th <= im.height && x0 + tw <= im.width
    ensures equal <==> !RowsDiffer(im, y0, th, x0, x0 + tw)
  {
    hide AnyDiffers, SpanDiffers, Readable, Off;
    ghost var x1 := x0 + tw;
    equal := true;
    OffIs(im, y0);
    var p1, p2 := y0 * im.step1 + x0 * 4, y0 * im.step2 + x0 * 4;
    for k := 0 to th
      invariant p1 == Off(im.step1, y0 + k) + x0 * 4 && p2 == Off(im.step2, y0 + k) + x0 * 4
      invariant forall y: nat :: y0 <= y < y0 + k ==> !AnyDiffers(im, y, x0, x1)
    {
      PixelsAreSpan(im, y0 + k, x0, tw, p1, p2);
      SpanIsPixels(im, y0 + k, x0, x1);
      if im.data1[p1..p1 + tw * 4] != im.data2[p2..p2 + tw * 4] {
        return false;
      }
      OffNext(im.step1, y0 + k);
      OffNext(im.step2, y0 + k);
      p1, p2 := p1 + im.step1, p2 + im.step2;
    }
  }

  /** One row of tiles: whether it is equal, and the column bounds widened by its differing tiles. */
  method CompareTileRow(im: Images, ty: nat, nrow: nat, ncol: nat, l0: int, r0: int)
      returns (equal: bool, l: int, r: int)
    requires Readable(im) && im.unit == 4 && ty < nrow
    requires nrow == (im.height + 15) / 16 && ncol == (im.width + 15) / 16
    ensures equal <==> !RowDiffers(im, im.width, 16, ty)
    ensures l <= l0 && r0 <= r
    ensures forall tx: int :: TileDiffers(im, im.width, 16, ty, tx) ==> l <= tx <= r
    ensures l < l0 ==> TileDiffers(im, im.width, 16, ty, l)
    ensures r0 < r ==> TileDiffers(im, im.width, 16, ty, r)
  {
    hide RowsDiffer, TileDiffers;
    equal, l, r := true, l0, r0;
    var th := if ty + 1 == nrow then im.height % 16 else 16;
    if th == 0 { th := 16; }
    LastTile(im.height, nrow, ty, th);
    for tx := 0 to ncol
      invariant l <= l0 && r0 <= r
      invariant equal <==> forall tx': int :: 0 <= tx' < tx ==> !TileDiffers(im, im.width, 16, ty, tx')
      invariant forall tx': int :: 0 <= tx' < tx && TileDiffers(im, im.width, 16, ty, tx') ==> l <= tx' <= r
      invariant l < l0 ==> TileDiffers(im, im.width, 16, ty, l)
      invariant r0 < r ==> TileDiffers(im, im.width, 16, ty, r)
    {
      var tw := if tx + 1 == ncol then im.width % 16 else 16;
      if tw == 0 { tw := 16; }
      LastTile(im.width, ncol, tx, tw);
      TileMeaning(im, im.width, ty, tx, th, tw);
      var same := TileEqual(im, 16 * ty, th, 16 * tx, tw);
      if !same {
        equal := false;
        if l > tx { l := tx; }
        if r < tx { r := tx; }
      }
    }
    TilesInImage(im, im.width, 16, ty, ncol);
  }

  /** The extent of a tile when the last one gets the remainder. */
  lemma LastTile(length: nat, n: nat, i: nat, extent: nat)
    requires n == (length + 15) / 16 && i < n
    requires extent == if i + 1 < n || length % 16 == 0 then 16 else length % 16
    ensures 16 * i + extent == Min(16 * i + 16, length)
  {
  }

  lemma TilesInImage(im: Images, limit: nat, a: nat, ty: int, ncol: nat)
    requires limit <= a * ncol && (a == 4 || a == 16)
    ensures forall tx: int :: TileDiffers(im, limit, a, ty, tx) ==> 0 <= tx < ncol
  {
    forall tx: int | TileDiffers(im, limit, a, ty, tx) ensures 0 <= tx < ncol {
      var y: nat, x: nat :| InTile(a, ty, tx, y, x) && x < limit && Differs(im, y, x);
      hide Differs;
      if a == 4 { } else { }
    }
  }

  /** What the tile rows before `done` say: all equal and nothing recorded, or the bounds of their tiles. */
  ghost predicate SeenRows(im: Images, limit: nat, a: nat, done: int, allEqual: bool, l: int, t: int, r: int, b: int) {
    && (allEqual <==> forall ty: int :: ty < done ==> !RowDiffers(im, limit, a, ty))
    && (forall ty: int, tx: int :: ty < done && TileDiffers(im, limit, a, ty, tx) ==> l <= tx <= r && t <= ty <= b)
    && (!allEqual ==>
          && t <= b < done
          && (exists ty: int :: TileDiffers(im, limit, a, ty, l))
          && (exists ty: int :: TileDiffers(im, limit, a, ty, r))
          && RowDiffers(im, limit, a, t) && RowDiffers(im, limit, a, b))
  }

  lemma NoRowsSeen(im: Images, limit: nat, a: nat, l: int, t: int, r: int, b: int)
    requires a == 4 || a == 16
    ensures SeenRows(im, limit, a, 0, true, l, t, r, b)
  {
    hide TileDiffers;
    forall ty: int, tx: int | TileDiffers(im, limit, a, ty, tx) ensures ty >= 0 {
      TileNotAbove(im, limit, a, ty, tx);
    }
  }

  lemma TileNotAbove(im: Images, limit: nat, a: nat, ty: int, tx: int)
    requires (a == 4 || a == 16) && TileDiffers(im, limit, a, ty, tx)
    ensures ty >= 0
  {
    hide Differs;
    var y: nat, x: nat :| InTile(a, ty, tx, y, x) && x < limit && Differs(im, y, x);
    if a == 4 { } else { }
  }

  /** One more row of tiles, as `CompareTileRow` leaves it. */
  lemma RowSeen(im: Images, limit: nat, a: nat, done: int, allEqual: bool, l: int, t: int, r: int, b: int,
                equal: bool, l1: int, r1: int, t1: int, b1: int, l0: int, r0: int, t0: int, b0: int)
    requires SeenRows(im, limit, a, done, allEqual, l, t, r, b)
    requires allEqual ==> l == l0 && r == r0 && t == t0 && b == b0
    requires !allEqual ==> l < l0 && r > r0
    requires equal <==> !RowDiffers(im, limit, a, done)
    requires l1 <= l && r <= r1
    requires forall tx: int :: TileDiffers(im, limit, a, done, tx) ==> l1 <= tx <= r1 && tx < l0 && r0 < tx
    requires l1 < l ==> TileDiffers(im, limit, a, done, l1)
    requires r < r1 ==> TileDiffers(im, limit, a, done, r1)
    requires 0 <= done < t0 && b0 < 0
    requires t1 == (if equal || t <= done then t else done) && b1 == (if equal || b >= done then b else done)
    ensures SeenRows(im, limit, a, done + 1, allEqual && equal, l1, t1, r1, b1)
    ensures allEqual && equal ==> l1 == l0 && r1 == r0 && t1 == t0 && b1 == b0
    ensures !(allEqual && equal) ==> l1 < l0 && r1 > r0
  {
    hide TileDiffers;
  }

  /** After the last row of tiles nothing differs, or the bounds are those of all the differing tiles. */
  lemma AllSeen(im: Images, limit: nat, a: nat, nrow: nat, allEqual: bool, l: int, t: int, r: int, b: int)
    requires (a == 4 || a == 16) && im.height <= a * nrow
    requires SeenRows(im, limit, a, nrow, allEqual, l, t, r, b)
    ensures allEqual ==> !SomethingDiffers(im, limit)
    ensures !allEqual ==> TileBounds(im, limit, a, l, t, r, b)
  {
    hide TileDiffers, SomethingDiffers;
    forall ty: int, tx: int | TileDiffers(im, limit, a, ty, tx) ensures ty < nrow {
      TileNotBelow(im, limit, a, nrow, ty, tx);
    }
    if SomethingDiffers(im, limit) {
      var ty, tx := DifferingTile(im, limit, a);
      assert RowDiffers(im, limit, a, ty);
    }
  }

  lemma TileNotBelow(im: Images, limit: nat, a: nat, nrow: nat, ty: int, tx: int)
    requires (a == 4 || a == 16) && im.height <= a * nrow && TileDiffers(im, limit, a, ty, tx)
    ensures ty < nrow
  {
    hide Differs;
    var y: nat, x: nat :| InTile(a, ty, tx, y, x) && x < limit && Differs(im, y, x);
    InImage(im, y, x);
    BelowTiles(a, ty, y, im.height, nrow);
  }

  lemma InImage(im: Images, y: nat, x: nat)
    requires Differs(im, y, x)
    ensures y < im.height && x < im.width
  {
  }

  lemma BelowTiles(a: nat, ty: int, y: nat, height: nat, nrow: nat)
    requires (a == 4 || a == 16) && a * ty <= y < height <= a * nrow
    ensures ty < nrow
  {
    if a == 4 { } else { }
  }

  lemma DifferingTile(im: Images, limit: nat, a: nat) returns (ty: int, tx: int)
    requires (a == 4 || a == 16) && SomethingDiffers(im, limit)
    ensures TileDiffers(im, limit, a, ty, tx)
  {
    hide Differs;
    var y: nat, x: nat :| x < limit && Differs(im, y, x);
    TileOf(a, y, x);
    ty, tx := y / a, x / a;
  }

  /** What a comparison that looks at the columns before `limit` must answer. */
  ghost predicate Answer32(im: Images, limit: nat, status: int, rect: Rect) {
    if SomethingDiffers(im, limit)
    then status == 1 && exists whole: Rect :: Smallest(im, limit, 16, whole) && rect == Clip(whole, im.width, im.height)
    else status == 0 && rect == Rect(0, 0, 0, 0)
  }

  /** There is only one such answer. */
  lemma Answer32Unique(im: Images, limit: nat, s1: int, r1: Rect, s2: int, r2: Rect)
    requires Answer32(im, limit, s1, r1) && Answer32(im, limit, s2, r2)
    ensures s1 == s2 && r1 == r2
  {
    hide Smallest, SomethingDiffers;
    if SomethingDiffers(im, limit) {
      var w1: Rect :| Smallest(im, limit, 16, w1) && r1 == Clip(w1, im.width, im.height);
      var w2: Rect :| Smallest(im, limit, 16, w2) && r2 == Clip(w2, im.width, im.height);
      SmallestUnique(im, limit, 16, w1, w2);
    }
  }

  /** The generic comparison: exact for images of up to 1024 rows of tiles, the size of its table of rows. */
  method Compare32(im: Images) returns (status: int, rect: Rect)
    requires Readable(im) && im.unit == 4 && im.height <= 16384
    ensures Answer32(im, im.width, status, rect)
  {
    hide SeenRows, RowDiffers, TileDiffers, SomethingDiffers, TileBounds, Readable, Smallest;
    var nrow, ncol := (im.height + 15) / 16, (im.width + 15) / 16;
    var rows := new bool[1024](_ => true);
    var allEqual := true;
    var l, r, t, b := ncol + 1, -1, nrow + 1, -1;
    NoRowsSeen(im, im.width, 16, l, t, r, b);
    for ty := 0 to nrow
      invariant SeenRows(im, im.width, 16, ty, allEqual, l, t, r, b)
      invariant allEqual ==> l == ncol + 1 && r == -1 && t == nrow + 1 && b == -1
      invariant !allEqual ==> l < ncol + 1 && r > -1
      invariant forall i: nat :: ty <= i < 1024 ==> rows[i]
    {
      ghost var l0, t0, r0, b0, allEqual0 := l, t, r, b, allEqual;
      var equal;
      equal, l, r := CompareTileRow(im, ty, nrow, ncol, l, r);
      rows[ty] := rows[ty] && equal;
      if !rows[ty] {
        allEqual := false;
        if t > ty { t := ty; }
        if b < ty { b := ty; }
      }
      TilesInImage(im, im.width, 16, ty, ncol);
      RowSeen(im, im.width, 16, ty, allEqual0, l0, t0, r0, b0, equal, l, r, t, b, ncol + 1, -1, nrow + 1, -1);
    }
    AllSeen(im, im.width, 16, nrow, allEqual, l, t, r, b);
    if allEqual {
      return 0, Rect(0, 0, 0, 0);
    }
    BoundsToRect(im, im.width, 16, l, t, r, b);
    var left, top, right, bottom := l * 16, t * 16, (r + 1) * 16, (b + 1) * 16;
    ghost var whole := Rect(left, top, right, bottom);
    if right > im.width { right := im.width; }
    if bottom > im.height { bottom := im.height; }
    status, rect := 1, Rect(left, top, right, bottom);
    assert Smallest(im, im.width, 16, whole) && rect == Clip(whole, im.width, im.height);
  }

  // ----- 32-bit pixels, four at a time

  /** The columns the SSE2 comparison looks at: of a last tile four or more columns wide, only whole groups of four. */
  function Looked(width: nat): (limit: nat)
    ensures limit <= width
    ensures limit == width <==> width % 4 == 0 || width % 16 < 4
  {
    if width % 16 < 4 then width else width - width % 4
  }

  lemma LookedTile(width: nat, tx: nat)
    requires 16 * tx < width
    ensures var tw := Min(width - 16 * tx, 16);
            16 * tx + (if tw < 4 then tw else tw - tw % 4) == Min(16 * tx + 16, Looked(width))
  {
    assert width - 16 * tx < 16 ==> width / 16 == tx;
  }

  /** Compares `th` rows of `groups` groups of four pixels. */
  method GroupsEqual(im: Images, y0: nat, th: nat, x0: nat, groups: nat) returns (equal: bool)
    requires Readable(im) && im.unit == 4 && y0 + th <= im.height && x0 + 4 * groups <= im.width
    ensures equal <==> !RowsDiffer(im, y0, th, x0, x0 + 4 * groups)
  {
    hide AnyDiffers, SpanDiffers, Readable, Off;
    ghost var x1 := x0 + 4 * groups;
    equal := true;
    OffIs(im, y0);
    var p1, p2 := y0 * im.step1 + x0 * 4, y0 * im.step2 + x0 * 4;
    for k := 0 to th
      invariant p1 == Off(im.step1, y0 + k) + x0 * 4 && p2 == Off(im.step2, y0 + k) + x0 * 4
      invariant forall y: nat :: y0 <= y < y0 + k ==> !AnyDiffers(im, y, x0, x1)
    {
      SpanIsPixels(im, y0 + k, x0, x1);
      var same := GroupRowEqual(im, y0 + k, x0, groups, p1, p2);
      if !same {
        return false;
      }
      OffNext(im.step1, y0 + k);
      OffNext(im.step2, y0 + k);
      p1, p2 := p1 + im.step1, p2 + im.step2;
    }
  }

  /** Sixteen bytes are the four pixels they hold. */
  lemma GroupIsSpan(im: Images, y: nat, x: nat, p1: nat, p2: nat)
    requires Readable(im) && im.unit == 4 && y < im.height && x + 4 <= im.width
    requires p1 == Off(im.step1, y) + x * 4 && p2 == Off(im.step2, y) + x * 4
    ensures p1 + 16 <= |im.data1| && p2 + 16 <= |im.data2|
    ensures im.data1[p1..p1 + 16] != im.data2[p2..p2 + 16] <==> SpanDiffers(im, y, x, x + 4)
  {
    SpanBounds(im, y, x, x + 4);
  }

  lemma NothingDiffers(im: Images, y: nat, x: nat)
    requires Readable(im) && y < im.height && x <= im.width
    ensures !SpanDiffers(im, y, x, x)
  {
    NoPixels(im, y, x);
  }

  /** One row: sixteen bytes at a time. */
  method GroupRowEqual(im: Images, y: nat, x0: nat, groups: nat, p1: nat, p2: nat) returns (equal: bool)
    requires Readable(im) && im.unit == 4 && y < im.height && x0 + 4 * groups <= im.width
    requires p1 == Off(im.step1, y) + x0 * 4 && p2 == Off(im.step2, y) + x0 * 4
    ensures equal <==> !SpanDiffers(im, y, x0, x0 + 4 * groups)
  {
    hide SpanDiffers, Readable, Off;
    NothingDiffers(im, y, x0);
    for index := 0 to groups
      invariant !SpanDiffers(im, y, x0, x0 + 4 * index)
    {
      var x := x0 + 4 * index;
      GroupIsSpan(im, y, x, p1 + 16 * index, p2 + 16 * index);
      SpanSplits(im, y, x0, x, x + 4);
      SpanSplits(im, y, x0, x + 4, x0 + 4 * groups);
      if im.data1[p1 + 16 * index..p1 + 16 * index + 16] != im.data2[p2 + 16 * index..p2 + 16 * index + 16] {
        return false;
      }
    }
    return true;
  }

  /** One tile: whole groups of four columns, or every column when there are fewer than four. */
  method TileEqualSimd(im: Images, y: nat, th: nat, x: nat, tw: nat) returns (equal: bool)
    requires Readable(im) && im.unit == 4 && y + th <= im.height && x + tw <= im.width && tw <= 16
    ensures equal <==> !RowsDiffer(im, y, th, x, x + (if tw < 4 then tw else tw - tw % 4))
  {
    hide RowsDiffer;
    if tw >= 16 {
      equal := GroupsEqual(im, y, th, x, 4);
    } else if tw >= 12 {
      equal := GroupsEqual(im, y, th, x, 3);
    } else if tw >= 8 {
      equal := GroupsEqual(im, y, th, x, 2);
    } else if tw >= 4 {
      equal := GroupsEqual(im, y, th, x, 1);
    } else {
      equal := TileEqual(im, y, th, x, tw);
    }
  }

  /** The lower and upper bounds in pixels stand for tile numbers, or for none yet. */
  predicate LowAt(l: int, lt: int, length: nat, n: nat) {
    (0 <= lt < n && l == 16 * lt) || (l == length + 1 && lt == n + 1)
  }

  predicate HighAt(r: int, rt: int) {
    (0 <= rt && r == 16 * rt) || (r == -1 && rt == -1)
  }

  /** Clears the low bits of a coordinate. */
  function AlignDown(x: int, a: nat): int
    requires a > 0
  {
    x - x % a
  }

  lemma TileAligned(lt: int, rt: int)
    ensures AlignDown(16 * lt, 16) == 16 * lt && AlignDown(16 * rt + 1 + 15, 16) == 16 * (rt + 1)
  {
  }

  method CompareTileRowSimd(im: Images, y: nat, l0: int, r0: int, ghost ty: nat, ghost lt0: int, ghost rt0: int)
    returns (equal: bool, l: int, r: int, ghost lt: int, ghost rt: int)
    requires Readable(im) && im.unit == 4 && y < im.height && y == 16 * ty
    requires LowAt(l0, lt0, im.width, (im.width + 15) / 16) && HighAt(r0, rt0)
    ensures LowAt(l, lt, im.width, (im.width + 15) / 16) && HighAt(r, rt)
    ensures equal <==> !RowDiffers(im, Looked(im.width), 16, ty)
    ensures lt <= lt0 && rt0 <= rt
    ensures forall tx: int :: TileDiffers(im, Looked(im.width), 16, ty, tx) ==> lt <= tx <= rt
    ensures lt < lt0 ==> TileDiffers(im, Looked(im.width), 16, ty, lt)
    ensures rt0 < rt ==> TileDiffers(im, Looked(im.width), 16, ty, rt)
  {
    hide RowsDiffer, TileDiffers, Looked;
    ghost var limit, ncol := Looked(im.width), (im.width + 15) / 16;
    equal, l, r, lt, rt := true, l0, r0, lt0, rt0;
    var th := Min(im.height - y, 16);
    var x := 0;
    ghost var tx := 0;
    while x < im.width
      invariant x == 16 * tx && 0 <= tx <= ncol
      invariant LowAt(l, lt, im.width, ncol) && HighAt(r, rt)
      invariant lt <= lt0 && rt0 <= rt
      invariant equal <==> forall tx': int :: 0 <= tx' < tx ==> !TileDiffers(im, limit, 16, ty, tx')
      invariant forall tx': int :: 0 <= tx' < tx && TileDiffers(im, limit, 16, ty, tx') ==> lt <= tx' <= rt
      invariant lt < lt0 ==> TileDiffers(im, limit, 16, ty, lt)
      invariant rt0 < rt ==> TileDiffers(im, limit, 16, ty, rt)
    {
      var tw := Min(im.width - x, 16);
      LookedTile(im.width, tx);
      TileMeaning(im, limit, ty, tx, th, if tw < 4 then tw else tw - tw % 4);
      var same := TileEqualSimd(im, y, th, x, tw);
      if !same {
        equal := false;
        if l > x { l, lt := x, tx; }
        if r < x { r, rt := x, tx; }
      }
      x, tx := x + 16, tx + 1;
    }
    TilesInImage(im, limit, 16, ty, ncol);
  }

  /** The SSE2 comparison. */
  method Compare32Simd(im: Images) returns (status: int, rect: Rect)
    requires Readable(im) && im.unit == 4
    ensures Answer32(im, Looked(im.width), status, rect)
  {
    hide SeenRows, RowDiffers, TileDiffers, SomethingDiffers, TileBounds, Looked, AlignDown, Readable, Smallest;
    ghost var limit, nrow, ncol := Looked(im.width), (im.height + 15) / 16, (im.width + 15) / 16;
    var allEqual := true;
    var l, r, t, b := im.width + 1, -1, im.height + 1, -1;
    ghost var lt, rt, tt, bt := ncol + 1, -1, nrow + 1, -1;
    NoRowsSeen(im, limit, 16, lt, tt, rt, bt);
    var y := 0;
    ghost var ty := 0;
    while y < im.height
      invariant y == 16 * ty && 0 <= ty <= nrow
      invariant LowAt(l, lt, im.width, ncol) && HighAt(r, rt) && LowAt(t, tt, im.height, nrow) && HighAt(b, bt)
      invariant SeenRows(im, limit, 16, ty, allEqual, lt, tt, rt, bt)
      invariant allEqual ==> lt == ncol + 1 && rt == -1 && tt == nrow + 1 && bt == -1
      invariant !allEqual ==> lt < ncol + 1 && rt > -1 && tt < nrow + 1 && bt > -1
    {
      ghost var lt0, tt0, rt0, bt0, allEqual0 := lt, tt, rt, bt, allEqual;
      var rowEqual;
      rowEqual, l, r, lt, rt := CompareTileRowSimd(im, y, l, r, ty, lt, rt);
      if !rowEqual {
        allEqual := false;
        if t > y { t, tt := y, ty; }
        if b < y { b, bt := y, ty; }
      }
      TilesInImage(im, limit, 16, ty, ncol);
      RowSeen(im, limit, 16, ty, allEqual0, lt0, tt0, rt0, bt0, rowEqual, lt, rt, tt, bt, ncol + 1, -1, nrow + 1, -1);
      y, ty := y + 16, ty + 1;
    }
    AllSeen(im, limit, 16, nrow, allEqual, lt, tt, rt, bt);
    if allEqual {
      return 0, Rect(0, 0, 0, 0);
    }
    BoundsToRect(im, limit, 16, lt, tt, rt, bt);
    r, b := r + 1, b + 1;
    l, t := AlignDown(l, 16), AlignDown(t, 16);
    r, b := AlignDown(r + 15, 16), AlignDown(b + 15, 16);
    TileAligned(lt, rt);
    TileAligned(tt, bt);
    ghost var whole := Rect(l, t, r, b);
    if r > im.width { r := im.width; }
    if b > im.height { b := im.height; }
    status, rect := 1, Rect(l, t, r, b);
    assert Smallest(im, limit, 16, whole) && rect == Clip(whole, im.width, im.height);
  }

  /** The two comparisons answer alike on every image of a width exactly when no column is left out at that width. */
  lemma SimdAgrees(width: nat)
    ensures (forall im: Images, status: int, rect: Rect :: Readable(im) && im.unit == 4 && im.width == width ==>
               (Answer32(im, Looked(width), status, rect) <==> Answer32(im, width, status, rect)))
       <==> (width % 4 == 0 || width % 16 < 4)
  {
    if Looked(width) != width {
      var im := LastColumnDiffers(width);
      hide Differs;
      assert !SomethingDiffers(im, Looked(width));
      assert Answer32(im, Looked(width), 0, Rect(0, 0, 0, 0)) && !Answer32(im, width, 0, Rect(0, 0, 0, 0));
    }
  }

  /** Two one-row images that differ in their last pixel only. */
  lemma LastColumnDiffers(width: nat) returns (im: Images)
    requires width > 0
    ensures Readable(im) && im.unit == 4 && im.width == width && Differs(im, 0, width - 1)
    ensures forall y: nat, x: nat :: x < width - 1 ==> !Differs(im, y, x)
  {
    var zeros := seq(4 * width, _ => 0);
    im := Images(zeros, 0, zeros[4 * width - 1 := 1], 0, width, 1, 4);
    assert Span1(im, 0, width - 1, width)[3] != Span2(im, 0, width - 1, width)[3];
    forall y: nat, x: nat | x < width - 1 && y < 1 ensures !Differs(im, y, x) {
      assert Span1(im, y, x, x + 1) == Span2(im, y, x, x + 1);
    }
  }

  // ----- 8-bit pixels

  /** The bounds of the differences found so far; `r` and `b` are -1 before the first. */
  datatype Bounds = Bounds(l: int, t: int, r: int, b: int)

  /** A difference was found at (or in the four bytes from) column `x` of row `y`. */
  function Widen(bounds: Bounds, x: int, y: int): Bounds {
    Bounds(if x < bounds.l then x else bounds.l, if y < bounds.t then y else bounds.t,
           if x > bounds.r then x else bounds.r, if y > bounds.b then y else bounds.b)
  }

  function Four(x: int): int { x / 4 }

  /** Row-major order: the pixels of the rows before `y`, and those of row `y` before `x`. */
  predicate Before(y: nat, x: nat, row: nat, column: nat) {
    row < y || (row == y && column < x)
  }

  ghost predicate DiffersBefore(im: Images, y: nat, x: nat, row: nat, column: nat) {
    Before(y, x, row, column) && Differs(im, row, column)
  }

  /** What the pixels before (`y`, `x`) say: nothing recorded, or bounds that are right to the group of four. */
  ghost predicate Seen(im: Images, y: nat, x: nat, bounds: Bounds) {
    if bounds.r == -1
    then bounds == Bounds(im.width + 1, im.height + 1, -1, -1)
         && forall row: nat, column: nat :: !DiffersBefore(im, y, x, row, column)
    else bounds.r >= 0 && bounds.b >= 0 && bounds.l >= 0 && bounds.t >= 0 && Tight(im, y, x, bounds)
  }

  ghost predicate Tight(im: Images, y: nat, x: nat, bounds: Bounds)
    requires bounds.t >= 0 && bounds.b >= 0
  {
    && (forall row: nat, column: nat :: DiffersBefore(im, y, x, row, column) ==>
          Four(bounds.l) <= Four(column) <= Four(bounds.r) && bounds.t <= row <= bounds.b)
    && (exists row: nat, column: nat :: Differs(im, row, column) && Four(column) == Four(bounds.l))
    && (exists row: nat, column: nat :: Differs(im, row, column) && Four(column) == Four(bounds.r))
    && (exists column: nat :: Differs(im, bounds.t, column))
    && (exists column: nat :: Differs(im, bounds.b, column))
  }

  /** One span within a group of four: widened for exactly when it differs. */
  lemma SpanSeen(im: Images, y: nat, x: nat, end: nat, bounds: Bounds)
    requires Readable(im) && y < im.height && x < end <= im.width && Four(x) == Four(end - 1)
    requires Seen(im, y, x, bounds)
    ensures Seen(im, y, end, if SpanDiffers(im, y, x, end) then Widen(bounds, x, y) else bounds)
  {
    hide SpanDiffers, Differs;
    SpanIsPixels(im, y, x, end);
    SpanDecides(im, y, x, end);
    if SpanDiffers(im, y, x, end) {
      var column: nat :| x <= column < end && Differs(im, y, column);
      Widened(im, y, x, end, column, bounds);
    } else {
      forall row: nat, column: nat | DiffersBefore(im, y, end, row, column)
        ensures DiffersBefore(im, y, x, row, column) { }
    }
  }

  lemma SpanDecides(im: Images, y: nat, x: nat, end: nat)
    requires x < end && Four(x) == Four(end - 1)
    ensures forall row: nat, column: nat :: DiffersBefore(im, y, end, row, column) ==>
      DiffersBefore(im, y, x, row, column) ||
          (row == y && Four(column) == Four(x) && x <= column < end && Differs(im, y, column))
  {
    hide Differs;
    forall row: nat, column: nat | DiffersBefore(im, y, end, row, column) && !DiffersBefore(im, y, x, row, column)
      ensures row == y && Four(column) == Four(x) && x <= column < end && Differs(im, y, column)
    {
      assert row == y && x <= column < end;
    }
  }

  lemma Widened(im: Images, y: nat, x: nat, end: nat, column: nat, bounds: Bounds)
    requires Readable(im) && y < im.height && x <= column < end <= im.width && Four(x) == Four(end - 1)
    requires Seen(im, y, x, bounds) && Differs(im, y, column)
    ensures Seen(im, y, end, Widen(bounds, x, y))
  {
    hide Differs;
    SpanDecides(im, y, x, end);
    assert Four(column) == Four(x);
    var wide := Widen(bounds, x, y);
    assert Four(wide.l) <= Four(x) <= Four(wide.r);
  }

  lemma NextRowSeen(im: Images, y: nat, bounds: Bounds)
    requires Seen(im, y, im.width, bounds)
    ensures Seen(im, y + 1, 0, bounds)
  {
    ghost var next := y + 1;
    RowIsBefore(im, y, next);
    hide DiffersBefore, Differs, Four;
    assert Seen(im, next, 0, bounds);
  }

  lemma RowIsBefore(im: Images, y: nat, next: nat)
    requires next == y + 1
    ensures forall row: nat, column: nat ::
      DiffersBefore(im, next, 0, row, column) ==> DiffersBefore(im, y, im.width, row, column)
  {
    forall row: nat, column: nat | DiffersBefore(im, next, 0, row, column)
      ensures DiffersBefore(im, y, im.width, row, column)
    {
      assert column < im.width;
    }
  }

  ghost predicate Answer8(im: Images, status: int, rect: Rect) {
    if SomethingDiffers(im, im.width) then status == 1 && Smallest(im, im.width, 4, rect)
    else status == 0 && rect == Rect(0, 0, 0, 0)
  }

  lemma Answer8Unique(im: Images, s1: int, r1: Rect, s2: int, r2: Rect)
    requires Answer8(im, s1, r1) && Answer8(im, s2, r2)
    ensures s1 == s2 && r1 == r2
  {
    hide Smallest, SomethingDiffers;
    if SomethingDiffers(im, im.width) {
      SmallestUnique(im, im.width, 4, r1, r2);
    }
  }

  /** The rectangle made of the final bounds. */
  method Rounded(im: Images, bounds: Bounds) returns (status: int, rect: Rect)
    requires Readable(im) && Seen(im, im.height, 0, bounds)
    ensures Answer8(im, status, rect)
  {
    hide Differs, Smallest, TileDiffers, TileBounds, Readable;
    EverythingSeen(im, bounds);
    if bounds.r == -1 && bounds.b == -1 {
      return 0, Rect(0, 0, 0, 0);
    }
    SeenBounds(im, bounds);
    RoundedFour(bounds.l, bounds.r);
    RoundedFour(bounds.t, bounds.b);
    hide Four, AlignDown, Seen;
    BoundsToRect(im, im.width, 4, Four(bounds.l), Four(bounds.t), Four(bounds.r), Four(bounds.b));
    var l, t, r, b := bounds.l, bounds.t, bounds.r + 1, bounds.b + 1;
    return 1, Rect(AlignDown(l, 4), AlignDown(t, 4), AlignDown(r + 3, 4), AlignDown(b + 3, 4));
  }

  lemma RoundedFour(l: int, r: int)
    ensures AlignDown(l, 4) == 4 * Four(l) && AlignDown(r + 1 + 3, 4) == 4 * (Four(r) + 1)
  {
  }

  lemma EverythingSeen(im: Images, bounds: Bounds)
    requires Seen(im, im.height, 0, bounds)
    ensures bounds.r == -1 <==> !SomethingDiffers(im, im.width)
    ensures bounds.r == -1 ==> bounds.b == -1
    ensures forall row: nat, column: nat :: Differs(im, row, column) ==> DiffersBefore(im, im.height, 0, row, column)
  {
    forall row: nat, column: nat | Differs(im, row, column)
      ensures DiffersBefore(im, im.height, 0, row, column) && column < im.width { }
  }

  lemma SeenBounds(im: Images, bounds: Bounds)
    requires Seen(im, im.height, 0, bounds) && bounds.r != -1
    ensures TileBounds(im, im.width, 4, Four(bounds.l), Four(bounds.t), Four(bounds.r), Four(bounds.b))
  {
    hide Differs;
    EverythingSeen(im, bounds);
    forall ty: int, tx: int | TileDiffers(im, im.width, 4, ty, tx)
      ensures Four(bounds.l) <= tx <= Four(bounds.r) && Four(bounds.t) <= ty <= Four(bounds.b)
    {
      var y: nat, x: nat :| InTile(4, ty, tx, y, x) && x < im.width && Differs(im, y, x);
      assert DiffersBefore(im, im.height, 0, y, x);
      assert Four(x) == tx && Four(y) == ty;
    }
    var yl: nat, xl: nat :| Differs(im, yl, xl) && Four(xl) == Four(bounds.l);
    OwnTile(im, yl, xl);
    var yr: nat, xr: nat :| Differs(im, yr, xr) && Four(xr) == Four(bounds.r);
    OwnTile(im, yr, xr);
    var xt: nat :| Differs(im, bounds.t, xt);
    OwnTile(im, bounds.t, xt);
    var xb: nat :| Differs(im, bounds.b, xb);
    OwnTile(im, bounds.b, xb);
  }

  lemma OwnTile(im: Images, y: nat, x: nat)
    requires Differs(im, y, x)
    ensures TileDiffers(im, im.width, 4, Four(y), Four(x))
  {
    assert x < im.width;
    hide Differs;
    assert InTile(4, Four(y), Four(x), y, x);
  }

  lemma SameFour(x: nat, m: nat)
    requires x == 4 * m
    ensures Four(x) == Four(x + 4 - 1)
  {
  }

  lemma FoursFit(width: nat)
    ensures AlignDown(width, 4) == 4 * (width / 4) <= width
  {
  }

  /** One row: words of four bytes, then single bytes. */
  method CompareRow8(im: Images, y: nat, p1: nat, p2: nat, bounds0: Bounds) returns (bounds: Bounds)
    requires Readable(im) && im.unit == 1 && y < im.height && p1 == Off(im.step1, y) && p2 == Off(im.step2, y)
    requires Seen(im, y, 0, bounds0)
    ensures Seen(im, y, im.width, bounds)
  {
    hide Seen, SpanDiffers, Off, Readable, AlignDown, Four;
    bounds := bounds0;
    var width4, x := AlignDown(im.width, 4), 0;
    FoursFit(im.width);
    ghost var q, h := 0, im.width / 4;
    while x < width4
      invariant x == 4 * q <= width4 == 4 * h && Seen(im, y, x, bounds)
    {
      BytesAreSpan(im, y, x, x + 4);
      SameFour(x, q);
      SpanSeen(im, y, x, x + 4, bounds);
      if im.data1[p1 + x..p1 + x + 4] != im.data2[p2 + x..p2 + x + 4] {
        bounds := Widen(bounds, x, y);
      }
      x, q := x + 4, q + 1;
    }
    bounds := CompareTail8(im, y, width4, p1, p2, bounds);
  }

  method CompareTail8(im: Images, y: nat, from: nat, p1: nat, p2: nat, bounds0: Bounds) returns (bounds: Bounds)
    requires Readable(im) && im.unit == 1 && y < im.height && p1 == Off(im.step1, y) && p2 == Off(im.step2, y)
    requires from <= im.width && Seen(im, y, from, bounds0)
    ensures Seen(im, y, im.width, bounds)
  {
    hide Seen, SpanDiffers, Off, Readable;
    bounds := bounds0;
    for x := from to im.width
      invariant Seen(im, y, x, bounds)
    {
      BytesAreSpan(im, y, x, x + 1);
      SpanSeen(im, y, x, x + 1, bounds);
      if im.data1[p1 + x] != im.data2[p2 + x] {
        bounds := Widen(bounds, x, y);
      }
    }
  }

  lemma BytesAreSpan(im: Images, y: nat, x: nat, end: nat)
    requires Readable(im) && im.unit == 1 && y < im.height && x < end <= im.width
    ensures Off(im.step1, y) + end <= |im.data1| && Off(im.step2, y) + end <= |im.data2|
    ensures var p1, p2 := Off(im.step1, y), Off(im.step2, y);
            && (SpanDiffers(im, y, x, end) <==> im.data1[p1 + x..p1 + end] != im.data2[p2 + x..p2 + end])
            && (end == x + 1 ==> (SpanDiffers(im, y, x, end) <==> im.data1[p1 + x] != im.data2[p2 + x]))
  {
    hide Off;
    SpanBounds(im, y, x, end);
    var p1, p2 := Off(im.step1, y), Off(im.step2, y);
    if end == x + 1 {
      OneByte(im.data1, p1 + x);
      OneByte(im.data2, p2 + x);
    }
  }

  lemma OneByte(data: seq<Byte>, i: nat)
    requires i < |data|
    ensures data[i..i + 1] == [data[i]]
  {
  }

  /** The generic comparison; a width that is a multiple of four leaves its last loop empty. */
  method Compare8(im: Images) returns (status: int, rect: Rect)
    requires Readable(im) && im.unit == 1
    ensures Answer8(im, status, rect)
  {
    hide Seen, Off, Readable, Answer8;
    var bounds := Bounds(im.width + 1, im.height + 1, -1, -1);
    NothingSeen(im, bounds);
    var p1, p2 := 0, 0;
    OffZero(im);
    for y := 0 to im.height
      invariant p1 == Off(im.step1, y) && p2 == Off(im.step2, y) && Seen(im, y, 0, bounds)
    {
      bounds := CompareRow8(im, y, p1, p2, bounds);
      NextRowSeen(im, y, bounds);
      OffNext(im.step1, y);
      OffNext(im.step2, y);
      p1, p2 := p1 + im.step1, p2 + im.step2;
    }
    status, rect := Rounded(im, bounds);
  }

  lemma OffZero(im: Images)
    ensures Off(im.step1, 0) == 0 && Off(im.step2, 0) == 0
  {
  }

  lemma NothingSeen(im: Images, bounds: Bounds)
    requires bounds == Bounds(im.width + 1, im.height + 1, -1, -1)
    ensures Seen(im, 0, 0, bounds)
  {
  }

  // ----- 8-bit pixels, sixteen at a time

  /** Byte-wise equality of two registers: one bit for each of the sixteen bytes. */
  function EqualMask(xmm0: seq<Byte>, xmm1: seq<Byte>): (cmp: seq<bool>)
    requires |xmm0| == 16 && |xmm1| == 16
    ensures |cmp| == 16
  {
    seq(16, i requires 0 <= i < 16 => xmm0[i] == xmm1[i])
  }

  /** Four bits of the mask tell whether the four bytes agree. */
  lemma MaskedGroup(data1: seq<Byte>, p1: nat, data2: seq<Byte>, p2: nat, offset: nat)
    requires p1 + 16 <= |data1| && p2 + 16 <= |data2| && offset + 4 <= 16
    ensures var cmp := EqualMask(data1[p1..p1 + 16], data2[p2..p2 + 16]);
            (cmp[offset] && cmp[offset + 1] && cmp[offset + 2] && cmp[offset + 3]) <==>
            data1[p1 + offset..p1 + offset + 4] == data2[p2 + offset..p2 + offset + 4]
  {
    var s1, s2 := data1[p1 + offset..p1 + offset + 4], data2[p2 + offset..p2 + offset + 4];
    assert s1 == s2 <==> s1[0] == s2[0] && s1[1] == s2[1] && s1[2] == s2[2] && s1[3] == s2[3];
  }

  method CompareMasked(im: Images, y: nat, x: nat, p1: nat, p2: nat, cmp: seq<bool>, offset: nat,
                       ghost m: nat, bounds0: Bounds)
    returns (bounds: Bounds)
    requires Readable(im) && im.unit == 1 && y < im.height && p1 == Off(im.step1, y) && p2 == Off(im.step2, y)
    requires x + offset == 4 * m && x + 16 <= im.width && offset <= 12 && Seen(im, y, x + offset, bounds0)
    requires p1 + x + 16 <= |im.data1| && p2 + x + 16 <= |im.data2|
    requires cmp == EqualMask(im.data1[p1 + x..p1 + x + 16], im.data2[p2 + x..p2 + x + 16])
    ensures Seen(im, y, x + offset + 4, bounds)
  {
    hide Seen, SpanDiffers, Off, Readable, EqualMask, Four;
    bounds := bounds0;
    BytesAreSpan(im, y, x + offset, x + offset + 4);
    MaskedGroup(im.data1, p1 + x, im.data2, p2 + x, offset);
    SameFour(x + offset, m);
    SpanSeen(im, y, x + offset, x + offset + 4, bounds);
    if !(cmp[offset] && cmp[offset + 1] && cmp[offset + 2] && cmp[offset + 3]) {
      bounds := Widen(bounds, x + offset, y);
    }
  }

  /** Sixteen bytes, in four groups. */
  method CompareSixteen(im: Images, y: nat, x: nat, p1: nat, p2: nat, ghost m: nat, bounds0: Bounds)
    returns (bounds: Bounds)
    requires Readable(im) && im.unit == 1 && y < im.height && p1 == Off(im.step1, y) && p2 == Off(im.step2, y)
    requires x == 4 * m && x + 16 <= im.width && Seen(im, y, x, bounds0)
    ensures Seen(im, y, x + 16, bounds)
  {
    hide Seen, SpanDiffers, Off, Readable, EqualMask;
    BytesAreSpan(im, y, x, x + 16);
    var xmm0, xmm1 := im.data1[p1 + x..p1 + x + 16], im.data2[p2 + x..p2 + x + 16];
    var cmp := EqualMask(xmm0, xmm1);
    bounds := CompareMasked(im, y, x, p1, p2, cmp, 0, m, bounds0);
    bounds := CompareMasked(im, y, x, p1, p2, cmp, 4, m + 1, bounds);
    bounds := CompareMasked(im, y, x, p1, p2, cmp, 8, m + 2, bounds);
    bounds := CompareMasked(im, y, x, p1, p2, cmp, 12, m + 3, bounds);
  }

  lemma SixteensFit(width: nat) returns (h: nat)
    ensures AlignDown(width, 16) == 16 * h <= width
  {
    h := width / 16;
  }

  method CompareRow8Simd(im: Images, y: nat, p1: nat, p2: nat, bounds0: Bounds) returns (bounds: Bounds)
    requires Readable(im) && im.unit == 1 && y < im.height && p1 == Off(im.step1, y) && p2 == Off(im.step2, y)
    requires Seen(im, y, 0, bounds0)
    ensures Seen(im, y, im.width, bounds)
  {
    hide *;
    bounds := bounds0;
    var width16, x := AlignDown(im.width, 16), 0;
    ghost var q := 0;
    ghost var h := SixteensFit(im.width);
    while x < width16
      invariant x == 16 * q <= width16 == 16 * h && Seen(im, y, x, bounds)
    {
      bounds := CompareSixteen(im, y, x, p1, p2, 4 * q, bounds);
      x, q := x + 16, q + 1;
    }
    bounds := CompareTail8(im, y, width16, p1, p2, bounds);
  }

  /** The SSE2 comparison: the same answer as the generic one at every width. */
  method Compare8Simd(im: Images) returns (status: int, rect: Rect)
    requires Readable(im) && im.unit == 1
    ensures Answer8(im, status, rect)
  {
    hide Seen, Off, Readable, Answer8;
    var bounds := Bounds(im.width + 1, im.height + 1, -1, -1);
    NothingSeen(im, bounds);
    var p1, p2 := 0, 0;
    OffZero(im);
    for y := 0 to im.height
      invariant p1 == Off(im.step1, y) && p2 == Off(im.step2, y) && Seen(im, y, 0, bounds)
    {
      bounds := CompareRow8Simd(im, y, p1, p2, bounds);
      NextRowSeen(im, y, bounds);
      OffNext(im.step1, y);
      OffNext(im.step2, y);
      p1, p2 := p1 + im.step1, p2 + im.step2;
    }
    status, rect := Rounded(im, bounds);
  }
}
