/** Moving a rectangle of 32-bit pixels inside one strided image (libxpp/simd/XppCopy_sse2.c).  The SIMD
    form walks rows and chunks in whichever direction keeps the source intact; the result is that of a
    simultaneous copy. */
module RectMove {
  import Bytes

  type Byte = Bytes.Byte

  /** The offset of row `r` of a rectangle whose first byte is at `base`. */
  function Row(base: int, step: int, r: nat): int {
    base + r * step
  }

  /** `x` is in one of the rows `lo..hi`, each of `width` bytes. */
  predicate InRows(x: int, base: int, step: int, width: int, lo: nat, hi: nat)
    requires lo <= hi
    decreases hi - lo
  {
    lo < hi && (Row(base, step, hi - 1) <= x < Row(base, step, hi - 1) + width ||
                InRows(x, base, step, width, lo, hi - 1))
  }

  /** Rows do not overlap when a row fits in the step: all rows before `hi` end before row `hi` starts, and
      none starts before row `lo`. */
  lemma {:induction false} RowsBounded(x: int, base: int, step: int, width: int, lo: nat, hi: nat)
    requires lo <= hi && 0 <= width <= step && InRows(x, base, step, width, lo, hi)
    ensures Row(base, step, lo) <= x < Row(base, step, hi)
    decreases hi - lo
  {
    RowNext(base, step, hi - 1);
    if Row(base, step, hi - 1) <= x < Row(base, step, hi - 1) + width {
      RowsAscend(base, step, lo, hi - 1);
    } else {
      RowsBounded(x, base, step, width, lo, hi - 1);
    }
  }

  lemma RowNext(base: int, step: int, r: nat)
    ensures Row(base, step, r + 1) == Row(base, step, r) + step
  {
  }

  lemma {:induction false} RowsAscend(base: int, step: int, a: nat, b: nat)
    requires a <= b && 0 <= step
    ensures Row(base, step, a) <= Row(base, step, b)
  {
    if a < b {
      RowNext(base, step, b - 1);
      RowsAscend(base, step, a, b - 1);
    }
  }

  lemma LastRow(x: int, base: int, step: int, width: int, k: nat)
    ensures InRows(x, base, step, width, 0, k + 1) <==>
              Row(base, step, k) <= x < Row(base, step, k) + width || InRows(x, base, step, width, 0, k)
  {
  }

  /** The rows `lo..hi` are row `lo` and the rows behind it. */
  lemma {:induction false} FirstRow(x: int, base: int, step: int, width: int, lo: nat, hi: nat)
    requires lo < hi
    ensures InRows(x, base, step, width, lo, hi) <==>
              Row(base, step, lo) <= x < Row(base, step, lo) + width || InRows(x, base, step, width, lo + 1, hi)
    decreases hi - lo
  {
    if lo + 1 < hi { FirstRow(x, base, step, width, lo, hi - 1); }
  }

  /** Every destination byte in the rows `lo..hi` has the source byte `delta` further on as it was in
      `before`; every other byte is as it was. */
  ghost predicate RowsMoved(before: seq<Byte>, after: seq<Byte>, base: int, step: int, width: int, delta: int,
                            lo: nat, hi: nat)
    requires lo <= hi
  {
    && |after| == |before|
    && forall x {:trigger after[x]} :: 0 <= x < |before| ==>
         if InRows(x, base, step, width, lo, hi) then 0 <= x + delta < |before| && after[x] == before[x + delta]
         else after[x] == before[x]
  }

  /** The same for one stretch `from..to` of bytes. */
  ghost predicate StretchMoved(before: seq<Byte>, after: seq<Byte>, from: int, to: int, delta: int) {
    && |after| == |before|
    && forall x {:trigger after[x]} :: 0 <= x < |before| ==>
         if from <= x < to then 0 <= x + delta < |before| && after[x] == before[x + delta]
         else after[x] == before[x]
  }

  /** A stretch extended at its end, with the source behind the destination. */
  lemma ExtendEnd(before: seq<Byte>, mid: seq<Byte>, after: seq<Byte>, from: int, to: int, end: int, delta: int)
    requires delta > 0 && from <= to <= end
    requires StretchMoved(before, mid, from, to, delta) && StretchMoved(mid, after, to, end, delta)
    ensures StretchMoved(before, after, from, end, delta)
  {
    forall x | from <= x < end && 0 <= x < |before| ensures 0 <= x + delta < |before| && after[x] == before[x + delta] {
      var moved := after[x];
      if x >= to { assert mid[x + delta] == before[x + delta]; } else { assert mid[x] == moved; }
    }
  }

  /** A stretch extended at its start, with the source not behind the destination. */
  lemma ExtendStart(before: seq<Byte>, mid: seq<Byte>, after: seq<Byte>, start: int, from: int, to: int, delta: int)
    requires delta <= 0 && start <= from <= to
    requires StretchMoved(before, mid, from, to, delta) && StretchMoved(mid, after, start, from, delta)
    ensures StretchMoved(before, after, start, to, delta)
  {
    forall x | start <= x < to && 0 <= x < |before| ensures 0 <= x + delta < |before| && after[x] == before[x + delta] {
      var moved := after[x];
      if x < from { assert mid[x + delta] == before[x + delta]; } else { assert mid[x] == moved; }
    }
  }

  lemma NoStretch(before: seq<Byte>, at: int, delta: int)
    ensures StretchMoved(before, before, at, at, delta)
  {
  }

  /** Loads `n` bytes and then stores them, as the register copies do. */
  method CopyChunk(data: array<Byte>, dst: nat, src: nat, n: nat, ghost delta: int)
    requires dst + n <= data.Length && src + n <= data.Length && src == dst + delta
    modifies data
    ensures StretchMoved(old(data[..]), data[..], dst, dst + n, delta)
  {
    var registers := data[src..src + n];
    forall i | 0 <= i < n { data[dst + i] := registers[i]; }
  }

  /** One row from its first byte to its last: 32 pixels at a time, then 16, then 8, then one by one.
      Right when the source lies behind the destination. */
  method CopyRow(data: array<Byte>, dst: nat, src: nat, width: nat)
    requires dst < src && src + 4 * width <= data.Length
    modifies data
    ensures StretchMoved(old(data[..]), data[..], dst, dst + 4 * width, src - dst)
  {
    hide StretchMoved;
    ghost var before, delta := data[..], src - dst;
    var x, s, d := CopyWide(data, dst, src, width, delta);
    if x >= 16 {
      CopyNext(data, d, s, 64, before, dst, delta);
      s, d, x := s + 64, d + 64, x - 16;
    }
    if x >= 8 {
      CopyNext(data, d, s, 32, before, dst, delta);
      s, d, x := s + 32, d + 32, x - 8;
    }
    while x > 0
      invariant 0 <= x <= width && d == dst + 4 * (width - x) && s == d + delta
      invariant StretchMoved(before, data[..], dst, d, delta)
    {
      CopyNext(data, d, s, 4, before, dst, delta);
      s, d, x := s + 4, d + 4, x - 1;
    }
  }

  /** The chunks of 32 pixels; `x` pixels are left. */
  method CopyWide(data: array<Byte>, dst: nat, src: nat, width: nat, ghost delta: int) returns (x: nat, s: nat, d: nat)
    requires dst < src == dst + delta && src + 4 * width <= data.Length
    modifies data
    ensures x < 32 && x <= width && d == dst + 4 * (width - x) && s == d + delta
    ensures StretchMoved(old(data[..]), data[..], dst, d, delta)
  {
    hide StretchMoved;
    ghost var before := data[..];
    x, s, d := width, src, dst;
    NoStretch(before, dst, delta);
    while x >= 32
      invariant 0 <= x <= width && d == dst + 4 * (width - x) && s == d + delta
      invariant StretchMoved(before, data[..], dst, d, delta)
    {
      CopyNext(data, d, s, 128, before, dst, delta);
      s, d, x := s + 128, d + 128, x - 32;
    }
  }

  method CopyNext(data: array<Byte>, d: nat, s: nat, n: nat, ghost before: seq<Byte>, ghost dst: nat, ghost delta: int)
    requires dst <= d < s == d + delta && s + n <= data.Length && StretchMoved(before, data[..], dst, d, delta)
    modifies data
    ensures StretchMoved(before, data[..], dst, d + n, delta)
  {
    ghost var mid := data[..];
    CopyChunk(data, d, s, n, delta);
    ExtendEnd(before, mid, data[..], dst, d, d + n, delta);
  }

  method CopyPrevious(data: array<Byte>, d: nat, s: nat, n: nat, ghost before: seq<Byte>, ghost end: nat,
                      ghost delta: int)
    requires s == d + delta <= d && d + n <= end <= data.Length && StretchMoved(before, data[..], d + n, end, delta)
    modifies data
    ensures StretchMoved(before, data[..], d, end, delta)
  {
    ghost var mid := data[..];
    CopyChunk(data, d, s, n, delta);
    ExtendStart(before, mid, data[..], d, d + n, end, delta);
  }

  /** One row from its last byte to its first: the odd pixels one by one, then 8, then 16, then 32 at a
      time.  Right when the source does not lie behind the destination. */
  method MoveRow(data: array<Byte>, dst: nat, src: nat, width: nat)
    requires src <= dst && dst + 4 * width <= data.Length
    modifies data
    ensures StretchMoved(old(data[..]), data[..], dst, dst + 4 * width, src - dst)
  {
    hide StretchMoved;
    ghost var before, delta, end := data[..], src - dst, dst + 4 * width;
    var x, s, d := width, src + 4 * width, dst + 4 * width;
    NoStretch(before, end, delta);
    var odd := x % 8;
    ChunkOdd(x);
    hide Multiple8, Multiple16, Multiple32;
    while odd > 0
      invariant 0 <= odd <= x <= width && Multiple8(x - odd)
      invariant d == dst + 4 * x && s == src + 4 * x
      invariant StretchMoved(before, data[..], d, end, delta)
    {
      s, d := s - 4, d - 4;
      CopyPrevious(data, d, s, 4, before, end, delta);
      x, odd := x - 1, odd - 1;
    }
    Chunk8(x);
    if x / 8 % 2 == 1 {  // x & 8
      s, d := s - 32, d - 32;
      CopyPrevious(data, d, s, 32, before, end, delta);
      x := x - 8;
    }
    Chunk16(x);
    if x / 16 % 2 == 1 {  // x & 16
      s, d := s - 64, d - 64;
      CopyPrevious(data, d, s, 64, before, end, delta);
      x := x - 16;
    }
    while x > 0
      invariant 0 <= x <= width && Multiple32(x) && d == dst + 4 * x && s == src + 4 * x
      invariant StretchMoved(before, data[..], d, end, delta)
    {
      Chunk32(x);
      s, d := s - 128, d - 128;
      CopyPrevious(data, d, s, 128, before, end, delta);
      x := x - 32;
    }
  }

  predicate Multiple8(x: int) { x % 8 == 0 }
  predicate Multiple16(x: int) { x % 16 == 0 }
  predicate Multiple32(x: int) { x % 32 == 0 }

  /** Each chunk taken makes the rest a multiple of the next larger one. */
  lemma ChunkOdd(x: nat)
    ensures x % 8 <= x && Multiple8(x - x % 8)
  {
  }

  lemma Chunk8(x: nat)
    requires Multiple8(x)
    ensures if x / 8 % 2 == 1 then x >= 8 && Multiple16(x - 8) else Multiple16(x)
  {
    var h := x / 16;
    if x / 8 % 2 == 1 {
      assert x == 16 * h + 8;
    } else {
      assert x == 16 * h;
    }
  }

  lemma Chunk16(x: nat)
    requires Multiple16(x)
    ensures if x / 16 % 2 == 1 then x >= 16 && Multiple32(x - 16) else Multiple32(x)
  {
    var h := x / 32;
    if x / 16 % 2 == 1 {
      assert x == 32 * h + 16;
    } else {
      assert x == 32 * h;
    }
  }

  lemma Chunk32(x: nat)
    requires Multiple32(x) && x > 0
    ensures x >= 32 && Multiple32(x - 32)
  {
  }

  // ----- rows

  /** The rows up to `k` moved, then row `k`, with the source behind the destination. */
  lemma NextRow(before: seq<Byte>, mid: seq<Byte>, after: seq<Byte>, base: int, step: int, width: int, delta: int,
                k: nat)
    requires 0 <= width <= step && delta > 0
    requires RowsMoved(before, mid, base, step, width, delta, 0, k)
    requires StretchMoved(mid, after, Row(base, step, k), Row(base, step, k) + width, delta)
    ensures RowsMoved(before, after, base, step, width, delta, 0, k + 1)
  {
    forall x {:trigger after[x]} | 0 <= x < |before|
      ensures if InRows(x, base, step, width, 0, k + 1) then 0 <= x + delta < |before| && after[x] == before[x + delta]
              else after[x] == before[x]
    {
      hide *;
      NextRowAt(before, mid, after, base, step, width, delta, k, x);
    }
    hide Row, InRows;
  }

  lemma NextRowAt(before: seq<Byte>, mid: seq<Byte>, after: seq<Byte>, base: int, step: int, width: int, delta: int,
                  k: nat, x: nat)
    requires 0 <= width <= step && delta > 0 && x < |before|
    requires RowsMoved(before, mid, base, step, width, delta, 0, k)
    requires StretchMoved(mid, after, Row(base, step, k), Row(base, step, k) + width, delta)
    ensures x < |after|
    ensures if InRows(x, base, step, width, 0, k + 1) then 0 <= x + delta < |before| && after[x] == before[x + delta]
            else after[x] == before[x]
  {
    hide Row, InRows;
    var moved := after[x];
    LastRow(x, base, step, width, k);
    if Row(base, step, k) <= x < Row(base, step, k) + width {
      var source := mid[x + delta];
      if InRows(x + delta, base, step, width, 0, k) { RowsBounded(x + delta, base, step, width, 0, k); }
      assert source == before[x + delta];
    } else {
      var stayed := mid[x];
      assert stayed == moved;
    }
  }

  /** The rows from `k` on moved, then row `k - 1`, with the source not behind the destination. */
  lemma PreviousRow(before: seq<Byte>, mid: seq<Byte>, after: seq<Byte>, base: int, step: int, width: int, delta: int,
                    k: nat, h: nat)
    requires 0 <= width <= step && delta <= 0 && 0 < k <= h
    requires RowsMoved(before, mid, base, step, width, delta, k, h)
    requires StretchMoved(mid, after, Row(base, step, k - 1), Row(base, step, k - 1) + width, delta)
    ensures RowsMoved(before, after, base, step, width, delta, k - 1, h)
  {
    hide Row, InRows;
    RowNext(base, step, k - 1);
    forall x {:trigger after[x]} | 0 <= x < |before|
      ensures if InRows(x, base, step, width, k - 1, h) then 0 <= x + delta < |before| && after[x] == before[x + delta]
              else after[x] == before[x]
    {
      var moved := after[x];
      FirstRow(x, base, step, width, k - 1, h);
      if InRows(x, base, step, width, k, h) { RowsBounded(x, base, step, width, k, h); }
      if Row(base, step, k - 1) <= x < Row(base, step, k - 1) + width {
        if InRows(x + delta, base, step, width, k, h) { RowsBounded(x + delta, base, step, width, k, h); }
        assert mid[x + delta] == before[x + delta];
      } else {
        assert mid[x] == moved;
      }
    }
  }

  function Step(nStep: int, width: nat): int {
    if nStep < 0 then 4 * width else nStep
  }

  /** The rectangle whose first byte is at `base`: a row fits the step and the last one ends in the data. */
  predicate Inside(length: nat, base: int, step: int, width: nat, height: nat) {
    0 <= base && 4 * width <= step && (height > 0 ==> Row(base, step, height - 1) + 4 * width <= length)
  }

  /** Each row of a rectangle inside the data lies inside the data. */
  lemma RowInside(length: nat, base: int, step: int, width: nat, height: nat, k: nat)
    requires Inside(length, base, step, width, height) && k < height
    ensures 0 <= Row(base, step, k) && Row(base, step, k) + 4 * width <= length
  {
    RowsAscend(base, step, 0, k);
    RowsAscend(base, step, k, height - 1);
  }

  /** Moves a rectangle of `width` by `height` pixels.  Whatever the overlap, every destination byte gets
      the byte that stood at its place in the source before the call, and nothing else changes. */
  method Move(data: array<Byte>, nStep: int, xDst: nat, yDst: nat, width: nat, height: nat, xSrc: nat, ySrc: nat)
    requires Inside(data.Length, Row(4 * xDst, Step(nStep, width), yDst), Step(nStep, width), width, height)
    requires Inside(data.Length, Row(4 * xSrc, Step(nStep, width), ySrc), Step(nStep, width), width, height)
    modifies data
    ensures var step := Step(nStep, width);
            var base := Row(4 * xDst, step, yDst);
            RowsMoved(old(data[..]), data[..], base, step, 4 * width, Row(4 * xSrc, step, ySrc) - base, 0, height)
  {
    var step := if nStep < 0 then 4 * width else nStep;
    var src, dst := ySrc * step + xSrc * 4, yDst * step + xDst * 4;
    // The source compares the ends of the last rows, which are equally far from the beginnings.
    if src > dst {
      CopyRows(data, dst, src, step, width, height);
    } else {
      MoveRows(data, dst, src, step, width, height);
    }
  }

  method CopyRows(data: array<Byte>, dst: nat, src: nat, step: nat, width: nat, height: nat)
    requires dst < src && Inside(data.Length, src, step, width, height)
    modifies data
    ensures RowsMoved(old(data[..]), data[..], dst, step, 4 * width, src - dst, 0, height)
  {
    hide RowsMoved, StretchMoved, Row;
    ghost var before, delta := data[..], src - dst;
    var s, d := src, dst;
    NoRows(before, dst, src, step, 4 * width, delta, 0);
    for k := 0 to height
      invariant s == Row(src, step, k) && d == Row(dst, step, k) && s == d + delta && 0 <= d
      invariant RowsMoved(before, data[..], dst, step, 4 * width, delta, 0, k)
    {
      RowInside(data.Length, src, step, width, height, k);
      ghost var mid := data[..];
      CopyRow(data, d, s, width);
      NextRow(before, mid, data[..], dst, step, 4 * width, delta, k);
      RowNext(src, step, k);
      RowNext(dst, step, k);
      s, d := s + step, d + step;
    }
  }

  method MoveRows(data: array<Byte>, dst: nat, src: nat, step: nat, width: nat, height: nat)
    requires src <= dst && Inside(data.Length, dst, step, width, height)
    modifies data
    ensures RowsMoved(old(data[..]), data[..], dst, step, 4 * width, src - dst, 0, height)
  {
    hide RowsMoved, StretchMoved, Row;
    ghost var before, delta := data[..], src - dst;
    var k, s, d := height, src + height * step, dst + height * step;
    RowAt(src, dst, step, height);
    NoRows(before, dst, src, step, 4 * width, delta, height);
    while k > 0
      invariant 0 <= k <= height
      invariant s == Row(src, step, k) && d == Row(dst, step, k) && s == d + delta
      invariant RowsMoved(before, data[..], dst, step, 4 * width, delta, k, height)
    {
      k := k - 1;
      RowNext(src, step, k);
      RowNext(dst, step, k);
      RowInside(data.Length, dst, step, width, height, k);
      RowsAscend(src, step, 0, k);
      RowAt(src, dst, step, 0);
      s, d := s - step, d - step;
      ghost var mid := data[..];
      MoveRow(data, d, s, width);
      PreviousRow(before, mid, data[..], dst, step, 4 * width, delta, k + 1, height);
    }
  }

  lemma RowAt(src: int, dst: int, step: int, k: nat)
    ensures Row(src, step, k) == src + k * step && Row(dst, step, k) == dst + k * step && Row(src, step, 0) == src
  {
  }

  lemma NoRows(before: seq<Byte>, dst: int, src: int, step: int, width: int, delta: int, k: nat)
    ensures RowsMoved(before, before, dst, step, width, delta, k, k)
    ensures Row(src, step, 0) == src && Row(dst, step, 0) == dst
  {
    RowAt(src, dst, step, 0);
    hide Row;
    forall x ensures !InRows(x, dst, step, width, k, k) { }
    hide InRows;
  }

  /** Pixel by pixel: byte `c` of row `r` of the destination is byte `c` of row `r` of the old source. */
  lemma {:induction false} PixelMoved(before: seq<Byte>, after: seq<Byte>, base: int, step: int, width: int, delta: int,
                                      h: nat, r: nat, c: nat)
    requires RowsMoved(before, after, base, step, width, delta, 0, h)
    requires r < h && c < width && 0 <= Row(base, step, r) && Row(base, step, r) + c < |before|
    ensures 0 <= Row(base, step, r) + c + delta < |before|
    ensures after[Row(base, step, r) + c] == before[Row(base, step, r) + c + delta]
  {
    RowCounts(Row(base, step, r) + c, base, step, width, h, r);
    var moved := after[Row(base, step, r) + c];
  }

  lemma {:induction false} RowCounts(x: int, base: int, step: int, width: int, h: nat, r: nat)
    requires r < h && Row(base, step, r) <= x < Row(base, step, r) + width
    ensures InRows(x, base, step, width, 0, h)
  {
    hide Row;
    if r < h - 1 { RowCounts(x, base, step, width, h - 1, r); }
  }
}
