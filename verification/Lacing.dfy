/** The parser's blocks (libwebm/mkvparser/mkvparser.cc, `Block::Parse`): the track number, the timecode and
    the frames, which lacing packs several of into one block (RFC 9559, section 10.3). */
module Lacing {
  import opened Bytes
  import opened Ebml
  import opened EbmlReader

  /** Where a frame lies in the file. */
  datatype Frame = Frame(pos: int, len: int)

  datatype BlockValue = BlockValue(track: int, timecode: int, flags: Byte, frames: seq<Frame>)

  // ----- sizes in lacing headers

  /** The sizes found in a lacing header, and where it ends. */
  datatype Sizes = Sizes(sizes: seq<int>, pos: int)

  /** A Xiph size: bytes are added up until one is less than 255. */
  function XiphSizeAt(src: seq<Byte>, pos: nat, stop: int): (r: Option<(nat, nat)>)
    ensures r.Some? ==> pos < r.value.1 <= stop
    decreases stop - pos
  {
    if pos >= stop || pos >= |src| then None
    else if src[pos] < 255 then Some((src[pos] as nat, pos + 1))
    else match XiphSizeAt(src, pos + 1, stop)
         case None => None
         case Some(rest) => Some((255 + rest.0, rest.1))
  }

  /** `n` Xiph sizes in a row, none of which may be 0. */
  function XiphSizesAt(src: seq<Byte>, pos: nat, stop: int, n: nat): (r: Option<Sizes>)
    ensures r.Some? ==> pos <= r.value.pos && (n > 0 ==> r.value.pos <= stop)
    ensures r.Some? ==> |r.value.sizes| == n && forall i :: 0 <= i < n ==> r.value.sizes[i] > 0
    decreases n
  {
    if n == 0 then Some(Sizes([], pos))
    else match XiphSizesAt(src, pos, stop, n - 1)
         case None => None
         case Some(before) => OneMoreXiph(src, stop, before)
  }

  function OneMoreXiph(src: seq<Byte>, stop: int, before: Sizes): (r: Option<Sizes>)
    requires before.pos >= 0
    ensures r.Some? ==> before.pos < r.value.pos <= stop
    ensures r.Some? ==> exists size :: size > 0 && r.value.sizes == before.sizes + [size]
  {
    match XiphSizeAt(src, before.pos, stop)
    case None => None
    case Some(last) => if last.0 == 0 then None else Some(Sizes(before.sizes + [last.0], last.1))
  }

  /** What is taken from a coded difference of `len` bytes to make it signed. */
  function Bias(len: nat): int {
    Pow128(len) / 2 - 1
  }

  /** The first EBML size and `n` signed differences behind it, each from the size before. */
  function EbmlSizesAt(src: seq<Byte>, pos: nat, stop: int, n: nat): (r: Option<Sizes>)
    ensures r.Some? ==> pos < r.value.pos <= stop
    ensures r.Some? ==> |r.value.sizes| == n + 1 && forall i :: 0 <= i <= n ==> 0 < r.value.sizes[i] <= INT64_MAX
    decreases n
  {
    if n == 0 then
      match UIntAt(src, pos)
      case None => None
      case Some(first) =>
        if first.0 <= 0 || first.0 > INT64_MAX || pos + first.1 > stop || pos + first.1 + first.0 > stop then None
        else Some(Sizes([first.0], pos + first.1))
    else match EbmlSizesAt(src, pos, stop, n - 1)
         case None => None
         case Some(before) => OneMoreSize(src, stop, before)
  }

  function OneMoreSize(src: seq<Byte>, stop: int, before: Sizes): (r: Option<Sizes>)
    requires |before.sizes| > 0
    ensures r.Some? ==> before.pos < r.value.pos <= stop
    ensures r.Some? ==> exists size :: 0 < size <= INT64_MAX && r.value.sizes == before.sizes + [size]
  {
    if before.pos < 0 || before.pos >= stop then None
    else match UIntAt(src, before.pos)
         case None => None
         case Some(delta) =>
           var size := before.sizes[|before.sizes| - 1] + (delta.0 - Bias(delta.1));
           if before.pos + delta.1 > stop || size <= 0 || size > INT64_MAX ||
               Sum(before.sizes) + size > INT64_MAX then None
           else Some(Sizes(before.sizes + [size], before.pos + delta.1))
  }

  function Sum(sizes: seq<int>): int {
    if |sizes| == 0 then 0 else Sum(sizes[..|sizes| - 1]) + sizes[|sizes| - 1]
  }

  lemma SumMore(sizes: seq<int>, size: int)
    ensures Sum(sizes + [size]) == Sum(sizes) + size
  {
    assert (sizes + [size])[..|sizes|] == sizes;
  }

  /** The last frame takes what the others leave. */
  function WithRest(s: Sizes, stop: int): Option<Sizes> {
    var rest := stop - s.pos - Sum(s.sizes);
    if rest <= 0 then None else Some(Sizes(s.sizes + [rest], s.pos))
  }

  /** The sizes of `count` frames of a block whose lacing header begins at `pos`, by kind of lacing. */
  function SizesAt(src: seq<Byte>, pos: nat, stop: int, lacing: nat, count: nat): Option<Sizes>
    requires count > 0
  {
    if lacing == 1 then
      match XiphSizesAt(src, pos, stop, count - 1)
      case None => None
      case Some(s) => WithRest(s, stop)
    else if lacing == 2 then
      if pos >= stop || (stop - pos) % count != 0 then None
      else Some(Sizes(seq(count, _ => (stop - pos) / count), pos))
    else if pos >= stop then None
    else if count == 1 then
      match EbmlSizesAt(src, pos, stop, 0)
      case None => None
      case Some(s) => if s.pos + Sum(s.sizes) != stop then None else Some(s)
    else
      match EbmlSizesAt(src, pos, stop, count - 2)
      case None => None
      case Some(s) => WithRest(s, stop)
  }

  // ----- frames

  /** Frames of the given sizes, one behind the other. */
  function Placed(sizes: seq<int>, from: int): (frames: seq<Frame>)
    ensures |frames| == |sizes|
  {
    if |sizes| == 0 then []
    else
      var last := |sizes| - 1;
      Placed(sizes[..last], from) + [Frame(from + Sum(sizes[..last]), sizes[last])]
  }

  /** The frames have positive lengths, begin at `from`, follow each other and end at `stop`. */
  predicate Tiles(frames: seq<Frame>, from: int, stop: int) {
    && |frames| > 0 && frames[0].pos == from
    && (forall i :: 0 <= i < |frames| ==> frames[i].len > 0)
    && (forall i :: 0 < i < |frames| ==> frames[i].pos == frames[i - 1].pos + frames[i - 1].len)
    && frames[|frames| - 1].pos + frames[|frames| - 1].len == stop
  }

  lemma {:induction false} PlacedTiles(sizes: seq<int>, from: int)
    requires |sizes| > 0 && forall i :: 0 <= i < |sizes| ==> sizes[i] > 0
    ensures Tiles(Placed(sizes, from), from, from + Sum(sizes))
  {
    var last := |sizes| - 1;
    if last > 0 {
      PlacedTiles(sizes[..last], from);
    }
  }

  lemma SizesTile(src: seq<Byte>, pos: nat, stop: int, lacing: nat, count: nat)
    requires count > 0 && SizesAt(src, pos, stop, lacing, count).Some?
    ensures var s := SizesAt(src, pos, stop, lacing, count).value;
            && |s.sizes| == count && (forall i :: 0 <= i < count ==> s.sizes[i] > 0)
            && pos <= s.pos && s.pos + Sum(s.sizes) == stop
  {
    hide XiphSizesAt, EbmlSizesAt;
    var s := SizesAt(src, pos, stop, lacing, count).value;
    if lacing == 1 {
      RestFills(XiphSizesAt(src, pos, stop, count - 1).value, stop);
    } else if lacing == 2 {
      EqualParts(stop - pos, count);
      SumOfEqual((stop - pos) / count, count);
    } else if count > 1 {
      RestFills(EbmlSizesAt(src, pos, stop, count - 2).value, stop);
    }
  }

  lemma RestFills(s: Sizes, stop: int)
    requires WithRest(s, stop).Some?
    ensures var r := WithRest(s, stop).value;
            r.pos + Sum(r.sizes) == stop && |r.sizes| == |s.sizes| + 1 && r.sizes[..|s.sizes|] == s.sizes &&
                r.sizes[|s.sizes|] > 0
  {
    SumMore(s.sizes, stop - s.pos - Sum(s.sizes));
  }

  lemma EqualParts(total: int, count: nat)
    requires count > 0 && total > 0 && total % count == 0
    ensures total / count * count == total && total / count > 0
  {
    assert total == total / count * count + total % count;
  }

  lemma {:induction false} SumOfEqual(part: int, count: nat)
    ensures Sum(seq(count, _ => part)) == part * count
  {
    if count > 0 {
      assert seq(count, _ => part)[..count - 1] == seq(count - 1, _ => part);
      SumOfEqual(part, count - 1);
    }
  }

  // ----- lacing as the standard writes it

  function XiphCode(size: nat): seq<Byte> {
    if size < 255 then [size] else [255] + XiphCode(size - 255)
  }

  function XiphHeader(sizes: seq<int>): seq<Byte>
    requires forall i :: 0 <= i < |sizes| ==> sizes[i] > 0
  {
    if |sizes| == 0 then [] else XiphHeader(sizes[..|sizes| - 1]) + XiphCode(sizes[|sizes| - 1])
  }

  lemma {:induction false} XiphSizeRoundTrip(src: seq<Byte>, pos: nat, stop: int, size: nat)
    requires At(src, pos, XiphCode(size)) && pos + |XiphCode(size)| <= stop
    ensures XiphSizeAt(src, pos, stop) == Some((size, pos + |XiphCode(size)|))
    decreases size
  {
    assert src[pos] == src[pos..pos + |XiphCode(size)|][0];
    if size >= 255 {
      AtSplit(src, pos, [255], XiphCode(size - 255));
      XiphSizeRoundTrip(src, pos + 1, stop, size - 255);
    }
  }

  lemma {:induction false} XiphSizesRoundTrip(src: seq<Byte>, pos: nat, stop: int, sizes: seq<int>)
    requires forall i :: 0 <= i < |sizes| ==> sizes[i] > 0
    requires At(src, pos, XiphHeader(sizes)) && pos + |XiphHeader(sizes)| <= stop
    ensures XiphSizesAt(src, pos, stop, |sizes|) == Some(Sizes(sizes, pos + |XiphHeader(sizes)|))
    decreases |sizes|
  {
    hide At, XiphCode, XiphSizeAt, OneMoreXiph, XiphHeader, XiphSizesAt;
    if |sizes| > 0 {
      var last := |sizes| - 1;
      var before := XiphHeader(sizes[..last]);
      XiphHeaderMore(sizes);
      AtSplit(src, pos, before, XiphCode(sizes[last]));
      XiphSizesRoundTrip(src, pos, stop, sizes[..last]);
      XiphSizesMore(src, pos, stop, last, Sizes(sizes[..last], pos + |before|));
      OneXiphRoundTrip(src, pos + |before|, stop, sizes);
    } else {
      NoXiph(src, pos, stop, sizes);
    }
  }

  lemma NoXiph(src: seq<Byte>, pos: nat, stop: int, sizes: seq<int>)
    requires |sizes| == 0
    ensures |XiphHeader(sizes)| == 0 && XiphSizesAt(src, pos, stop, 0) == Some(Sizes(sizes, pos))
  {
  }

  lemma XiphSizesMore(src: seq<Byte>, pos: nat, stop: int, n: nat, before: Sizes)
    requires XiphSizesAt(src, pos, stop, n) == Some(before)
    ensures before.pos >= 0 && XiphSizesAt(src, pos, stop, n + 1) == OneMoreXiph(src, stop, before)
  {
  }

  lemma XiphHeaderMore(sizes: seq<int>)
    requires |sizes| > 0 && forall i :: 0 <= i < |sizes| ==> sizes[i] > 0
    ensures XiphHeader(sizes) == XiphHeader(sizes[..|sizes| - 1]) + XiphCode(sizes[|sizes| - 1])
  {
  }

  lemma OneXiphRoundTrip(src: seq<Byte>, pos: nat, stop: int, sizes: seq<int>)
    requires |sizes| > 0 && sizes[|sizes| - 1] > 0
    requires At(src, pos, XiphCode(sizes[|sizes| - 1])) && pos + |XiphCode(sizes[|sizes| - 1])| <= stop
    ensures OneMoreXiph(src, stop, Sizes(sizes[..|sizes| - 1], pos))
            == Some(Sizes(sizes, pos + |XiphCode(sizes[|sizes| - 1])|))
  {
    hide At, XiphCode, XiphSizeAt;
    XiphSizeRoundTrip(src, pos, stop, sizes[|sizes| - 1]);
    assert sizes[..|sizes| - 1] + [sizes[|sizes| - 1]] == sizes;
  }

  /** A difference fits the coded length chosen for it. */
  predicate DeltaFits(delta: int, len: nat) {
    1 <= len <= 8 && 0 <= delta + Bias(len) < Pow128(len)
  }

  /** The first size and the differences behind it, each coded in the length chosen for it. */
  predicate EbmlCodable(sizes: seq<int>, lens: seq<nat>) {
    && |lens| == |sizes| > 0 && 1 <= lens[0] <= 8 && 0 < sizes[0] < Pow128(lens[0])
    && (forall i :: 0 <= i < |sizes| ==> sizes[i] > 0)
    && forall i :: 1 <= i < |sizes| ==> DeltaFits(sizes[i] - sizes[i - 1], lens[i])
  }

  function EbmlHeader(sizes: seq<int>, lens: seq<nat>): seq<Byte>
    requires EbmlCodable(sizes, lens)
    decreases |sizes|
  {
    var last := |sizes| - 1;
    if last == 0 then EncodeSized(sizes[0], lens[0])
    else
      EbmlHeader(sizes[..last], lens[..last])
          + EncodeSized(sizes[last] - sizes[last - 1] + Bias(lens[last]), lens[last])
  }

  lemma {:induction false} EbmlSizesRoundTrip(src: seq<Byte>, pos: nat, stop: int, sizes: seq<int>, lens: seq<nat>)
    requires |lens| == |sizes| > 0 && EbmlCodable(sizes, lens) && Sum(sizes) <= INT64_MAX
    requires At(src, pos, EbmlHeader(sizes, lens)) && pos + |EbmlHeader(sizes, lens)| + Sum(sizes) <= stop
    ensures EbmlSizesAt(src, pos, stop, |sizes| - 1) == Some(Sizes(sizes, pos + |EbmlHeader(sizes, lens)|))
    decreases |sizes|
  {
    hide At, EncodeSized, UIntAt, OneMoreSize, EbmlHeader, Sum, EbmlCodable, DeltaFits;
    if |sizes| == 1 {
      FirstEbmlRoundTrip(src, pos, stop, sizes, lens);
    } else {
      Codable(sizes, lens);
      OneMoreRoundTrip(src, pos, stop, sizes, lens, EbmlHeader(sizes[..|sizes| - 1], lens[..|sizes| - 1]));
      EbmlSizesRoundTrip(src, pos, stop, sizes[..|sizes| - 1], lens[..|sizes| - 1]);
    }
  }

  lemma FirstEbmlRoundTrip(src: seq<Byte>, pos: nat, stop: int, sizes: seq<int>, lens: seq<nat>)
    requires |sizes| == 1 && EbmlCodable(sizes, lens) && Sum(sizes) <= INT64_MAX
    requires At(src, pos, EbmlHeader(sizes, lens)) && pos + |EbmlHeader(sizes, lens)| + Sum(sizes) <= stop
    ensures EbmlSizesAt(src, pos, stop, 0) == Some(Sizes(sizes, pos + |EbmlHeader(sizes, lens)|))
  {
    hide At, EncodeSized, UIntAt;
    assert Sum(sizes[..0]) == 0 && sizes == [sizes[0]] && Sum(sizes) == sizes[0];
    UIntRoundTrip(src, pos, sizes[0], lens[0]);
    EncodedLength(sizes[0], lens[0]);
  }

  lemma EncodedLength(value: nat, size: nat)
    ensures |EncodeSized(value, size)| == size
  {
  }

  lemma {:induction false} SumPositive(sizes: seq<int>)
    requires forall i :: 0 <= i < |sizes| ==> sizes[i] > 0
    ensures Sum(sizes) >= |sizes|
    ensures |sizes| > 0 ==> sizes[|sizes| - 1] <= Sum(sizes)
  {
    if |sizes| > 0 { SumPositive(sizes[..|sizes| - 1]); }
  }

  lemma OneMoreRoundTrip(src: seq<Byte>, pos: nat, stop: int, sizes: seq<int>, lens: seq<nat>, before: seq<Byte>)
    requires |lens| == |sizes| > 1 && EbmlCodable(sizes, lens) && Sum(sizes) <= INT64_MAX
    requires EbmlCodable(sizes[..|sizes| - 1], lens[..|sizes| - 1])
    requires before == EbmlHeader(sizes[..|sizes| - 1], lens[..|sizes| - 1])
    requires At(src, pos, EbmlHeader(sizes, lens)) && pos + |EbmlHeader(sizes, lens)| + Sum(sizes) <= stop
    ensures At(src, pos, before) && pos + |before| + Sum(sizes[..|sizes| - 1]) <= stop &&
            Sum(sizes[..|sizes| - 1]) <= INT64_MAX
    ensures OneMoreSize(src, stop, Sizes(sizes[..|sizes| - 1], pos + |before|))
         == Some(Sizes(sizes, pos + |EbmlHeader(sizes, lens)|))
  {
    hide At, EncodeSized, UIntAt, Bias, EbmlCodable, EbmlHeader, OneMoreSize, Sum, DeltaFits;
    var last := |sizes| - 1;
    Codable(sizes, lens);
    var code := sizes[last] - sizes[last - 1] + Bias(lens[last]);
    DeltaCode(sizes[last] - sizes[last - 1], lens[last]);
    AtSplit(src, pos, before, EncodeSized(code, lens[last]));
    SumPositive(sizes[..last]);
    SumLast(sizes);
    DeltaRoundTrip(src, pos + |before|, stop, sizes, lens[last]);
  }

  lemma DeltaCode(delta: int, len: nat)
    requires DeltaFits(delta, len)
    ensures delta + Bias(len) >= 0 && |EncodeSized(delta + Bias(len), len)| == len >= 1
  {
  }

  lemma SumLast(sizes: seq<int>)
    requires |sizes| > 0
    ensures Sum(sizes) == Sum(sizes[..|sizes| - 1]) + sizes[|sizes| - 1]
  {
  }

  lemma Codable(sizes: seq<int>, lens: seq<nat>)
    requires EbmlCodable(sizes, lens) && |sizes| > 1
    ensures var last := |sizes| - 1;
            && EbmlCodable(sizes[..last], lens[..last]) && DeltaFits(sizes[last] - sizes[last - 1], lens[last])
            && (forall i :: 0 <= i < |sizes| ==> sizes[i] > 0)
            && EbmlHeader(sizes, lens) == EbmlHeader(sizes[..last], lens[..last])
                 + EncodeSized(sizes[last] - sizes[last - 1] + Bias(lens[last]), lens[last])
  {
    hide EncodeSized, Bias;
  }

  /** A coded difference gives the next size. */
  lemma DeltaRoundTrip(src: seq<Byte>, pos: nat, stop: int, sizes: seq<int>, len: nat)
    requires |sizes| > 1 && DeltaFits(sizes[|sizes| - 1] - sizes[|sizes| - 2], len) && sizes[|sizes| - 1] > 0
    requires Sum(sizes) <= INT64_MAX && Sum(sizes[..|sizes| - 1]) >= 0 && pos + len < stop
    requires At(src, pos, EncodeSized(sizes[|sizes| - 1] - sizes[|sizes| - 2] + Bias(len), len))
    ensures OneMoreSize(src, stop, Sizes(sizes[..|sizes| - 1], pos)) == Some(Sizes(sizes, pos + len))
  {
    hide At, EncodeSized, UIntAt, Bias, Sum;
    SumLast(sizes);
    UIntRoundTrip(src, pos, sizes[|sizes| - 1] - sizes[|sizes| - 2] + Bias(len), len);
    assert sizes[..|sizes| - 1] + [sizes[|sizes| - 1]] == sizes;
  }

  // ----- blocks

  /** The count byte holds one less than the number of frames. */
  function FrameCount(biased: Byte): nat {
    (biased as nat) + 1
  }

  /** The frames of a block whose flags say which lacing there is, with `pos` just behind the flags. */
  function FramesAt(src: seq<Byte>, pos: nat, stop: int, lacing: nat): (r: Option<seq<Frame>>)
  {
    if lacing == 0 then
      if stop - pos <= 0 then None else Some([Frame(pos, stop - pos)])
    else if pos >= stop || pos >= |src| then None
    else match SizesAt(src, pos + 1, stop, lacing, FrameCount(src[pos]))
         case None => None
         case Some(s) => Some(Placed(s.sizes, s.pos))
  }

  function LacingOf(flags: Byte): (lacing: nat)
    ensures lacing < 4
  {
    flags / 2 % 4
  }

  /** The block in the `size` bytes from `start` on. */
  function BlockAt(src: seq<Byte>, start: nat, size: nat): Option<BlockValue> {
    var stop := start + size;
    if UIntAt(src, start).None? then None
    else
      var (track, len) := UIntAt(src, start).value;
      var pos := start + len;
      if track <= 0 || pos + 2 >= stop || pos + 2 >= |src| then None
      else match FramesAt(src, pos + 3, stop, LacingOf(src[pos + 2]))
           case None => None
           case Some(frames) => Some(BlockValue(track, SignedFromBigEndian(src[pos..pos + 2]), src[pos + 2], frames))
  }

  lemma FramesTile(src: seq<Byte>, pos: nat, stop: int, lacing: nat)
    requires FramesAt(src, pos, stop, lacing).Some?
    ensures var frames := FramesAt(src, pos, stop, lacing).value;
            && |frames| > 0 && frames[0].pos >= pos && Tiles(frames, frames[0].pos, stop)
            && (lacing == 0 ==> |frames| == 1 && frames[0].pos == pos)
            && (lacing != 0 ==> pos < stop && pos < |src| && frames[0].pos > pos && |frames| == FrameCount(src[pos]))
  {
    hide SizesAt, Placed, Tiles;
    if lacing == 0 {
      OneTile(pos, stop);
    } else {
      SizesTile(src, pos + 1, stop, lacing, FrameCount(src[pos]));
      var s := SizesAt(src, pos + 1, stop, lacing, FrameCount(src[pos])).value;
      PlacedTiles(s.sizes, s.pos);
      FirstTile(Placed(s.sizes, s.pos), s.pos, stop);
    }
  }

  lemma OneTile(from: int, stop: int)
    requires from < stop
    ensures Tiles([Frame(from, stop - from)], from, stop)
  {
  }

  lemma FirstTile(frames: seq<Frame>, from: int, stop: int)
    requires Tiles(frames, from, stop)
    ensures |frames| > 0 && frames[0].pos == from
  {
  }

  /** The lacing header at `pos` is that of frames of these sizes: the count byte, and then what section 10.3 of RFC
      9559 puts behind it, up to `head`, where the frames begin.  An EBML lace of a single frame is read as if
      its size were written. */
  ghost predicate Laced(src: seq<Byte>, pos: int, stop: int, lacing: nat, sizes: seq<int>, lens: seq<nat>, head: int) {
    && 1 <= |sizes| <= 256 && (forall i :: 0 <= i < |sizes| ==> sizes[i] > 0)
    && 0 <= pos < |src| && src[pos] == |sizes| - 1 && head + Sum(sizes) == stop
    && var before := sizes[..|sizes| - 1];
       if lacing == 1 then At(src, pos + 1, XiphHeader(before)) && head == pos + 1 + |XiphHeader(before)|
       else if lacing == 2 then (forall i :: 0 <= i < |sizes| ==> sizes[i] == sizes[0]) && head == pos + 1
       else
         var coded := if |sizes| == 1 then sizes else before;
         && EbmlCodable(coded, lens) && At(src, pos + 1, EbmlHeader(coded, lens)) &&
             head == pos + 1 + |EbmlHeader(coded, lens)|
  }

  /** What a block's frames must be like, `body` being just behind the flags: one frame, or frames of the sizes that
      the lacing header gives, starting where it ends.  The second and third bit of the flags say which lacing it is:
      none (0x00), Xiph (0x02), of equal sizes (0x04), EBML (0x06). */
  ghost predicate WellLaced(src: seq<Byte>, flags: Byte, frames: seq<Frame>, body: int, stop: int) {
    var bits := flags % 8 - flags % 2;
    if bits == 0x00 then body < stop && frames == [Frame(body, stop - body)]
    else exists sizes, lens, head :: LacedBy(src, bits, body, stop, sizes, lens, head) && frames == Placed(sizes, head)
  }

  ghost predicate LacedBy(src: seq<Byte>, bits: nat, body: int, stop: int, sizes: seq<int>, lens: seq<nat>, head: int) {
    if bits == 0x02 then Laced(src, body, stop, 1, sizes, lens, head)
    else if bits == 0x04 then Laced(src, body, stop, 2, sizes, lens, head)
    else bits == 0x06 && Laced(src, body, stop, 3, sizes, lens, head)
  }

  lemma BitsAre(flags: Byte)
    ensures var bits := flags % 8 - flags % 2;
            && bits in {0x00, 0x02, 0x04, 0x06}
            && LacingOf(flags) == if bits == 0 then 0 else if bits == 0x02 then 1 else if bits == 0x04 then 2 else 3
  {
  }

  /** Whenever a block can be read its frames tile it: they have positive lengths, number the count byte plus one
      when laced, have the sizes of the lacing header, start where it ends, follow each other and end where the
      block ends. */
  lemma LacingTiles(src: seq<Byte>, start: nat, size: nat)
    requires BlockAt(src, start, size).Some?
    ensures var block, body := BlockAt(src, start, size).value, start + UIntAt(src, start).value.1 + 3;
            && WellLaced(src, block.flags, block.frames, body, start + size)
            && |block.frames| > 0 && Tiles(block.frames, block.frames[0].pos, start + size)
            && (block.flags % 8 >= 2 ==> body < |src| && |block.frames| == src[body] as nat + 1)
  {
    hide UIntAt, FramesAt, LacingOf, Tiles, SignedFromBigEndian, Laced, Placed;
    var pos := start + UIntAt(src, start).value.1;
    BitsAre(src[pos + 2]);
    FramesTile(src, pos + 3, start + size, LacingOf(src[pos + 2]));
    if LacingOf(src[pos + 2]) != 0 {
      var flags := src[pos + 2];
      var sizes, lens, head := LacedFrames(src, pos + 3, start + size, LacingOf(flags));
      assert LacedBy(src, flags % 8 - flags % 2, pos + 3, start + size, sizes, lens, head);
    } else {
      OneFrame(src, pos + 3, start + size);
    }
  }

  /** A block begins here: the number of its track, its timecode in two bytes, and its flags; `body` is behind them. */
  ghost predicate Begins(src: seq<Byte>, start: nat, track: nat, timecode: int, flags: Byte, body: nat) {
    && 0 < track <= MAX_CODED && FitsSigned(timecode, 2)
    && At(src, start, EncodeVint(track) + BigEndian(timecode, 2) + [flags]) && body == start + |EncodeVint(track)| + 3
  }

  /** A block is read exactly when its frames are laced as its flags say, whatever the other bits of them are. */
  lemma BlockExact(src: seq<Byte>, start: nat, size: nat, track: nat, timecode: int, flags: Byte, body: nat,
                   frames: seq<Frame>)
    requires Begins(src, start, track, timecode, flags, body) && start + size <= INT64_MAX
    ensures BlockAt(src, start, size) == Some(BlockValue(track, timecode, flags, frames)) <==>
            WellLaced(src, flags, frames, body, start + size)
  {
    hide UIntAt, FramesAt, LacingOf, Laced, Placed, SignedFromBigEndian;
    HeadReadsBack(src, start, track, timecode, flags, body);
    BitsAre(flags);
    var stop, lacing := start + size, LacingOf(flags);
    NothingBehind(src, body, stop, lacing);
    if lacing == 0 {
      if body < stop { PlainFrame(src, body, stop); }
    } else {
      LacingExact(src, body, stop, lacing, frames);
      LacedInside(src, body, stop, lacing);
      assert forall sizes, lens, head ::
          LacedBy(src, flags % 8 - flags % 2, body, stop, sizes, lens, head)
          <==> Laced(src, body, stop, lacing, sizes, lens, head);
    }
  }

  lemma HeadReadsBack(src: seq<Byte>, start: nat, track: nat, timecode: int, flags: Byte, body: nat)
    requires Begins(src, start, track, timecode, flags, body)
    ensures UIntAt(src, start) == Some((track, body - 3 - start)) && body <= |src| && src[body - 1] == flags
    ensures SignedFromBigEndian(src[body - 3..body - 1]) == timecode
  {
    hide UIntAt, EncodeVint, BigEndian, SignedFromBigEndian;
    AtSplit(src, start, EncodeVint(track) + BigEndian(timecode, 2), [flags]);
    AtSplit(src, start, EncodeVint(track), BigEndian(timecode, 2));
    AtFirst(src, body - 1, [flags]);
    VintRoundTrip(src, start, track);
    VintLength(track);
    IntPayloadRoundTrip(src, body - 3, timecode, 2);
  }

  lemma VintLength(value: nat)
    ensures |EncodeVint(value)| == GetCodedUIntSize(value)
  {
  }

  lemma NothingBehind(src: seq<Byte>, pos: nat, stop: int, lacing: nat)
    ensures pos >= stop ==> FramesAt(src, pos, stop, lacing).None?
  {
  }

  lemma PlainFrame(src: seq<Byte>, pos: nat, stop: int)
    requires pos < stop
    ensures FramesAt(src, pos, stop, 0) == Some([Frame(pos, stop - pos)])
  {
  }

  /** A lacing header lies in its block. */
  lemma LacedInside(src: seq<Byte>, pos: nat, stop: int, lacing: nat)
    requires 1 <= lacing <= 3
    ensures forall sizes, lens, head :: Laced(src, pos, stop, lacing, sizes, lens, head) ==> pos < stop
  {
    forall sizes, lens, head | Laced(src, pos, stop, lacing, sizes, lens, head) ensures pos < stop {
      SumPositive(sizes);
    }
  }

  /** The frames have these sizes and follow one another from `from` on. */
  predicate FramesAre(frames: seq<Frame>, sizes: seq<int>, from: int) {
    && |frames| == |sizes| && (forall i :: 0 <= i < |sizes| ==> frames[i].len == sizes[i])
    && forall i :: 0 <= i < |frames| ==>
         frames[i].pos == if i == 0 then from else frames[i - 1].pos + frames[i - 1].len
  }

  lemma {:induction false} PlacedAre(sizes: seq<int>, from: int)
    ensures FramesAre(Placed(sizes, from), sizes, from)
  {
    if |sizes| > 1 {
      var last := |sizes| - 1;
      PlacedAre(sizes[..last], from);
      assert sizes[..last][..last - 1] == sizes[..last - 1];
    }
  }

  /** Two bits of the flags say how a block is laced, whatever the others are: from a whole block with the header for
      these sizes, which fill it, frames of these sizes are read. */
  lemma XiphBlockRoundTrip(src: seq<Byte>, start: nat, size: nat, track: nat, timecode: int, flags: Byte, body: nat,
                           sizes: seq<int>)
    requires Begins(src, start, track, timecode, flags, body) && start + size <= INT64_MAX
    requires flags % 8 == 0x02 + flags % 2
    requires 1 <= |sizes| <= 256 && forall i :: 0 <= i < |sizes| ==> sizes[i] > 0
    requires At(src, body, [|sizes| - 1] + XiphHeader(sizes[..|sizes| - 1]))
    requires start + size == body + 1 + |XiphHeader(sizes[..|sizes| - 1])| + Sum(sizes)
    ensures BlockAt(src, start, size).Some?
    ensures var block := BlockAt(src, start, size).value;
            && block.track == track && block.timecode == timecode && block.flags == flags
            && FramesAre(block.frames, sizes, start + size - Sum(sizes))
  {
    hide At, XiphHeader, Placed, FramesAre, FramesAt, EncodeVint, BigEndian, BlockAt;
    XiphLacingRoundTrip(src, body, start + size, sizes);
    PlacedAre(sizes, start + size - Sum(sizes));
    BlockOf(src, start, size, track, timecode, flags, body, 1);
  }

  lemma FixedBlockRoundTrip(src: seq<Byte>, start: nat, size: nat, track: nat, timecode: int, flags: Byte, body: nat,
                            each: nat, count: nat)
    requires Begins(src, start, track, timecode, flags, body) && start + size <= INT64_MAX
    requires flags % 8 == 0x04 + flags % 2
    requires 1 <= count <= 256 && each > 0 && body < |src| && src[body] == count - 1
    requires start + size == body + 1 + each * count
    ensures BlockAt(src, start, size).Some?
    ensures var block := BlockAt(src, start, size).value;
            && block.track == track && block.timecode == timecode && block.flags == flags
            && FramesAre(block.frames, seq(count, _ => each as int), body + 1)
  {
    hide At, Placed, FramesAre, FramesAt, EncodeVint, BigEndian, BlockAt;
    FixedLacingRoundTrip(src, body, start + size, each, count);
    PlacedAre(seq(count, _ => each as int), body + 1);
    BlockOf(src, start, size, track, timecode, flags, body, 2);
  }

  lemma EbmlBlockRoundTrip(src: seq<Byte>, start: nat, size: nat, track: nat, timecode: int, flags: Byte, body: nat,
                           sizes: seq<int>, lens: seq<nat>)
    requires Begins(src, start, track, timecode, flags, body) && start + size <= INT64_MAX
    requires flags % 8 == 0x06 + flags % 2
    requires 2 <= |sizes| <= 256 && EbmlCodable(sizes[..|sizes| - 1], lens) && sizes[|sizes| - 1] > 0
    requires Sum(sizes) <= INT64_MAX
    requires At(src, body, [|sizes| - 1] + EbmlHeader(sizes[..|sizes| - 1], lens))
    requires start + size == body + 1 + |EbmlHeader(sizes[..|sizes| - 1], lens)| + Sum(sizes)
    ensures BlockAt(src, start, size).Some?
    ensures var block := BlockAt(src, start, size).value;
            && block.track == track && block.timecode == timecode && block.flags == flags
            && FramesAre(block.frames, sizes, start + size - Sum(sizes))
  {
    hide At, EbmlHeader, EbmlCodable, Placed, FramesAre, FramesAt, EncodeVint, BigEndian, BlockAt;
    EbmlLacingRoundTrip(src, body, start + size, sizes, lens);
    PlacedAre(sizes, start + size - Sum(sizes));
    BlockOf(src, start, size, track, timecode, flags, body, 3);
  }

  lemma BlockOf(src: seq<Byte>, start: nat, size: nat, track: nat, timecode: int, flags: Byte, body: nat, lacing: nat)
    requires Begins(src, start, track, timecode, flags, body) && lacing == flags / 2 % 4
    requires FramesAt(src, body, start + size, lacing).Some?
    ensures BlockAt(src, start, size)
         == Some(BlockValue(track, timecode, flags, FramesAt(src, body, start + size, lacing).value))
  {
    hide UIntAt, FramesAt, SignedFromBigEndian;
    HeadReadsBack(src, start, track, timecode, flags, body);
    NothingBehind(src, body, start + size, lacing);
  }

  lemma OneFrame(src: seq<Byte>, pos: nat, stop: int)
    requires FramesAt(src, pos, stop, 0).Some?
    ensures pos < stop && FramesAt(src, pos, stop, 0).value == [Frame(pos, stop - pos)]
  {
  }

  /** Frames are read exactly when there is a lacing header of some sizes that fill the block, and then they are of
      these sizes. */
  lemma LacingExact(src: seq<Byte>, pos: nat, stop: int, lacing: nat, frames: seq<Frame>)
    requires 1 <= lacing <= 3 && stop <= INT64_MAX
    ensures FramesAt(src, pos, stop, lacing) == Some(frames) <==>
            exists sizes, lens, head :: Laced(src, pos, stop, lacing, sizes, lens, head) &&
                frames == Placed(sizes, head)
  {
    hide FramesAt, Laced, Placed;
    if FramesAt(src, pos, stop, lacing) == Some(frames) {
      var sizes, lens, head := LacedFrames(src, pos, stop, lacing);
    }
    forall sizes, lens, head | Laced(src, pos, stop, lacing, sizes, lens, head)
      ensures FramesAt(src, pos, stop, lacing) == Some(Placed(sizes, head)) {
      LacedIsRead(src, pos, stop, lacing, sizes, lens, head);
    }
  }

  // ----- what is read has been laced

  lemma {:induction false} XiphSizeIsCoded(src: seq<Byte>, pos: nat, stop: int)
    requires XiphSizeAt(src, pos, stop).Some?
    ensures var (size, next) := XiphSizeAt(src, pos, stop).value;
            At(src, pos, XiphCode(size)) && next == pos + |XiphCode(size)|
    decreases stop - pos
  {
    assert src[pos..pos + 1] == [src[pos]];
    if src[pos] == 255 {
      XiphSizeIsCoded(src, pos + 1, stop);
      AtJoin(src, pos, [255], XiphCode(XiphSizeAt(src, pos + 1, stop).value.0));
    }
  }

  lemma {:induction false} XiphSizesAreCoded(src: seq<Byte>, pos: nat, stop: int, n: nat)
    requires XiphSizesAt(src, pos, stop, n).Some? && pos <= |src|
    ensures var s := XiphSizesAt(src, pos, stop, n).value;
            At(src, pos, XiphHeader(s.sizes)) && s.pos == pos + |XiphHeader(s.sizes)|
    decreases n
  {
    hide XiphSizeAt, XiphCode;
    if n > 0 {
      XiphSizesAreCoded(src, pos, stop, n - 1);
      var before := XiphSizesAt(src, pos, stop, n - 1).value;
      var s := XiphSizesAt(src, pos, stop, n).value;
      assert s.sizes[..n - 1] == before.sizes;
      hide At, XiphSizesAt;
      XiphSizeIsCoded(src, before.pos, stop);
      AtJoin(src, pos, XiphHeader(before.sizes), XiphCode(s.sizes[n - 1]));
    }
  }

  lemma {:induction false} EbmlSizesAreCoded(src: seq<Byte>, pos: nat, stop: int, n: nat) returns (lens: seq<nat>)
    requires EbmlSizesAt(src, pos, stop, n).Some?
    ensures var s := EbmlSizesAt(src, pos, stop, n).value;
            EbmlCodable(s.sizes, lens) && At(src, pos, EbmlHeader(s.sizes, lens)) &&
                s.pos == pos + |EbmlHeader(s.sizes, lens)|
    decreases n
  {
    hide UIntAt, At, EncodeSized, Bias, Sum;
    if n == 0 {
      UIntIsCoded(src, pos);
      lens := [UIntAt(src, pos).value.1];
      EncodedLength(UIntAt(src, pos).value.0, lens[0]);
    } else {
      var some := EbmlSizesAreCoded(src, pos, stop, n - 1);
      var before := EbmlSizesAt(src, pos, stop, n - 1).value;
      lens := some + [UIntAt(src, before.pos).value.1];
      hide EbmlSizesAt;
      DeltaIsCoded(src, pos, stop, before, some);
    }
  }

  lemma DeltaIsCoded(src: seq<Byte>, pos: nat, stop: int, before: Sizes, lens: seq<nat>)
    requires |before.sizes| > 0 && OneMoreSize(src, stop, before).Some?
    requires EbmlCodable(before.sizes, lens) && At(src, pos, EbmlHeader(before.sizes, lens)) &&
             before.pos == pos + |EbmlHeader(before.sizes, lens)|
    ensures UIntAt(src, before.pos).Some?
    ensures var s, more := OneMoreSize(src, stop, before).value, lens + [UIntAt(src, before.pos).value.1];
            EbmlCodable(s.sizes, more) && At(src, pos, EbmlHeader(s.sizes, more)) &&
                s.pos == pos + |EbmlHeader(s.sizes, more)|
  {
    hide UIntAt, At, EncodeSized, Bias, Sum;
    var (code, len) := UIntAt(src, before.pos).value;
    var s := OneMoreSize(src, stop, before).value;
    UIntIsCoded(src, before.pos);
    EncodedLength(code, len);
    var last := |before.sizes|;
    assert s.sizes[..last] == before.sizes && (lens + [len])[..last] == lens;
    assert s.sizes[last] - s.sizes[last - 1] + Bias(len) == code;
    AtJoin(src, pos, EbmlHeader(before.sizes, lens), EncodeSized(code, len));
  }

  /** The lacing header that frames have been read from. */
  lemma LacedFrames(src: seq<Byte>, pos: nat, stop: int, lacing: nat)
      returns (sizes: seq<int>, lens: seq<nat>, head: int)
    requires 1 <= lacing <= 3 && FramesAt(src, pos, stop, lacing).Some?
    ensures Laced(src, pos, stop, lacing, sizes, lens, head) &&
            FramesAt(src, pos, stop, lacing).value == Placed(sizes, head)
  {
    hide XiphSizesAt, EbmlSizesAt, Placed, At, XiphHeader, EbmlHeader, EbmlCodable, Sum;
    var count := FrameCount(src[pos]);
    SizesTile(src, pos + 1, stop, lacing, count);
    var s := SizesAt(src, pos + 1, stop, lacing, count).value;
    sizes, lens, head := s.sizes, [], s.pos;
    if lacing == 1 {
      XiphSizesAreCoded(src, pos + 1, stop, count - 1);
      RestFills(XiphSizesAt(src, pos + 1, stop, count - 1).value, stop);
    } else if lacing == 3 && count == 1 {
      lens := EbmlSizesAreCoded(src, pos + 1, stop, 0);
    } else if lacing == 3 {
      lens := EbmlSizesAreCoded(src, pos + 1, stop, count - 2);
      RestFills(EbmlSizesAt(src, pos + 1, stop, count - 2).value, stop);
    }
  }

  /** And what has been laced is read. */
  lemma LacedIsRead(src: seq<Byte>, pos: nat, stop: int, lacing: nat, sizes: seq<int>, lens: seq<nat>, head: int)
    requires 1 <= lacing <= 3 && stop <= INT64_MAX && Laced(src, pos, stop, lacing, sizes, lens, head)
    ensures FramesAt(src, pos, stop, lacing) == Some(Placed(sizes, head))
  {
    hide FramesAt, Placed, At, XiphHeader, EbmlHeader, EbmlCodable, Sum;
    var last := |sizes| - 1;
    CountByte(src, pos, last);
    SumPositive(sizes);
    if lacing == 1 {
      AtJoin(src, pos, [last], XiphHeader(sizes[..last]));
      XiphLacingRoundTrip(src, pos, stop, sizes);
    } else if lacing == 2 {
      assert sizes == seq(|sizes|, _ => sizes[0]);
      SumOfEqual(sizes[0], |sizes|);
      FixedLacingRoundTrip(src, pos, stop, sizes[0], |sizes|);
      assert seq(|sizes|, _ => sizes[0] as nat as int) == sizes;
    } else if last == 0 {
      SingleEbml(src, pos, stop, sizes, lens);
    } else {
      AtJoin(src, pos, [last], EbmlHeader(sizes[..last], lens));
      EbmlLacingRoundTrip(src, pos, stop, sizes, lens);
    }
  }

  lemma CountByte(src: seq<Byte>, pos: nat, b: Byte)
    requires pos < |src| && src[pos] == b
    ensures At(src, pos, [b])
  {
  }

  lemma SingleEbml(src: seq<Byte>, pos: nat, stop: int, sizes: seq<int>, lens: seq<nat>)
    requires |sizes| == 1 && sizes[0] > 0 && pos < |src| && src[pos] == 0 && stop <= INT64_MAX &&
             EbmlCodable(sizes, lens)
    requires At(src, pos + 1, EbmlHeader(sizes, lens)) && pos + 1 + |EbmlHeader(sizes, lens)| + Sum(sizes) == stop
    ensures FramesAt(src, pos, stop, 3) == Some(Placed(sizes, pos + 1 + |EbmlHeader(sizes, lens)|))
  {
    hide At, EbmlHeader, EbmlSizesAt, Placed, EbmlCodable, Sum;
    SumPositive(sizes);
    EbmlPositive(sizes, lens);
    EbmlSizesRoundTrip(src, pos + 1, stop, sizes, lens);
  }

  /** Frames laced as the standard says are found where they are, for each kind of lacing. */
  lemma XiphLacingRoundTrip(src: seq<Byte>, pos: nat, stop: int, sizes: seq<int>)
    requires 1 <= |sizes| <= 256 && forall i :: 0 <= i < |sizes| ==> sizes[i] > 0
    requires At(src, pos, [|sizes| - 1] + XiphHeader(sizes[..|sizes| - 1]))
    requires stop == pos + 1 + |XiphHeader(sizes[..|sizes| - 1])| + Sum(sizes)
    ensures FramesAt(src, pos, stop, 1) == Some(Placed(sizes, stop - Sum(sizes)))
  {
    var last := |sizes| - 1;
    hide At, XiphHeader, XiphSizesAt, Placed, Sum;
    AtFirst(src, pos, [last] + XiphHeader(sizes[..last]));
    AtSplit(src, pos, [last], XiphHeader(sizes[..last]));
    SumPositive(sizes);
    SumLast(sizes);
    XiphSizesRoundTrip(src, pos + 1, stop, sizes[..last]);
    assert sizes[..last] + [sizes[last]] == sizes;
  }

  lemma FixedLacingRoundTrip(src: seq<Byte>, pos: nat, stop: int, size: nat, count: nat)
    requires 1 <= count <= 256 && size > 0 && pos < |src| && src[pos] == count - 1 && stop == pos + 1 + size * count
    ensures FramesAt(src, pos, stop, 2) == Some(Placed(seq(count, _ => size as int), pos + 1))
  {
    hide Placed;
    Multiples(size, count);
    assert seq(count, _ => size as int) == seq(count, _ => (stop - (pos + 1)) / count);
  }

  lemma Multiples(size: nat, count: nat)
    requires count > 0 && size > 0
    ensures size * count > 0 && size * count % count == 0 && size * count / count == size
  {
    var n := size * count;
    assert n == n / count * count + n % count;
    assert (size - n / count) * count == size * count - n / count * count;
    NoMultiple(size - n / count, count, n % count);
  }

  lemma NoMultiple(d: int, count: nat, r: int)
    requires d * count == r && 0 <= r < count
    ensures d == 0 && r == 0
  {
    if d > 0 { Monotone(1, d, count); }
    if d < 0 { Monotone(d, -1, count); }
  }

  lemma EbmlLacingRoundTrip(src: seq<Byte>, pos: nat, stop: int, sizes: seq<int>, lens: seq<nat>)
    requires 2 <= |sizes| <= 256 && EbmlCodable(sizes[..|sizes| - 1], lens) && sizes[|sizes| - 1] > 0
    requires Sum(sizes) <= INT64_MAX
    requires At(src, pos, [|sizes| - 1] + EbmlHeader(sizes[..|sizes| - 1], lens))
    requires stop == pos + 1 + |EbmlHeader(sizes[..|sizes| - 1], lens)| + Sum(sizes)
    ensures FramesAt(src, pos, stop, 3) == Some(Placed(sizes, stop - Sum(sizes)))
  {
    var last := |sizes| - 1;
    hide At, EbmlHeader, EbmlSizesAt, Placed, EbmlCodable, Sum;
    AtFirst(src, pos, [last] + EbmlHeader(sizes[..last], lens));
    AtSplit(src, pos, [last], EbmlHeader(sizes[..last], lens));
    EbmlPositive(sizes[..last], lens);
    SumPositive(sizes[..last]);
    SumLast(sizes);
    assert sizes[..last] + [sizes[last]] == sizes;
    EbmlSizesRoundTrip(src, pos + 1, stop, sizes[..last], lens);
  }

  lemma EbmlPositive(sizes: seq<int>, lens: seq<nat>)
    requires EbmlCodable(sizes, lens)
    ensures |lens| == |sizes| && forall i :: 0 <= i < |sizes| ==> sizes[i] > 0
  {
  }

  // ----- the parser

  class Block {
    const start: nat
    const size: nat
    var track: int
    var timecode: int
    var flags: Byte
    var frames: array<Frame>

    constructor (start: nat, size: nat)
      ensures this.start == start && this.size == size && fresh(frames)
    {
      this.start, this.size := start, size;
      track, timecode, flags := 0, -1, 0;
      frames := new Frame[0];
    }

    ghost function Value(): BlockValue
      reads this, frames
    {
      BlockValue(track, timecode, flags, frames[..])
    }

    method Parse(src: seq<Byte>) returns (status: int)
      requires |src| <= INT64_MAX && start + size <= INT64_MAX
      modifies this
      ensures status <= 0 && (status == 0 <==> BlockAt(src, start, size).Some?)
      ensures status == 0 ==> Value() == BlockAt(src, start, size).value && fresh(frames)
    {
      hide UIntAt, FramesAt;
      var pos, stop := start, start + size;
      var len;
      track, len := ReadUInt(src, pos);
      if track <= 0 { return E_FILE_FORMAT_INVALID; }
      if pos + len > stop { return E_FILE_FORMAT_INVALID; }
      pos := pos + len;
      if stop - pos < 2 { return E_FILE_FORMAT_INVALID; }
      var value;
      status, value := UnserializeInt(src, pos, 2);
      if status != 0 { return E_FILE_FORMAT_INVALID; }
      // A two-byte value is always a short.
      timecode := value;
      pos := pos + 2;
      if stop - pos <= 0 || pos >= |src| { return E_FILE_FORMAT_INVALID; }
      flags := src[pos];
      var lacing := LacingOf(flags);
      pos := pos + 1;
      status, frames := ParseFrames(src, pos, stop, lacing);
    }
  }

  /** The frame array of a block: lengths first, and then the positions. */
  method ParseFrames(src: seq<Byte>, from: nat, stop: int, lacing: nat) returns (status: int, frames: array<Frame>)
    requires |src| <= INT64_MAX && stop <= INT64_MAX && lacing < 4
    ensures fresh(frames)
    ensures status <= 0 && (status == 0 <==> FramesAt(src, from, stop, lacing).Some?)
    ensures status == 0 ==> frames[..] == FramesAt(src, from, stop, lacing).value
  {
    hide Placed, SizesAt;
    var pos := from;
    frames := new Frame[0];
    if lacing == 0 {
      if pos > stop { return E_FILE_FORMAT_INVALID, frames; }
      var frameSize := stop - pos;
      if frameSize <= 0 { return E_FILE_FORMAT_INVALID, frames; }
      frames := new Frame[1](_ => Frame(pos, frameSize));
      return 0, frames;
    }
    if pos >= stop || pos >= |src| { return E_FILE_FORMAT_INVALID, frames; }
    var frameCount := FrameCount(src[pos]);
    pos := pos + 1;
    if lacing == 1 {
      status, frames, pos := XiphFrames(src, pos, stop, frameCount);
    } else if lacing == 2 {
      status, frames, pos := FixedFrames(src, pos, stop, frameCount);
    } else {
      status, frames, pos := EbmlFrames(src, pos, stop, frameCount);
    }
    if status != 0 { return E_FILE_FORMAT_INVALID, frames; }
    ghost var sizes := SizesAt(src, from + 1, stop, lacing, frameCount).value.sizes;
    SizesTile(src, from + 1, stop, lacing, frameCount);
    status := Patch(frames, pos, stop, sizes);
  }

  /** The lengths in the array are these sizes. */
  ghost predicate HasLengths(frames: array<Frame>, sizes: seq<int>, n: nat)
    reads frames
  {
    n <= |sizes| && n <= frames.Length && forall i :: 0 <= i < n ==> frames[i].len == sizes[i]
  }

  /** What the methods below make of a lacing header: an array of lengths, or a refusal. */
  ghost predicate Measured(status: int, frames: array<Frame>, pos: int, sizes: Option<Sizes>)
    reads frames
  {
    && status <= 0 && (status == 0 <==> sizes.Some?)
    && (sizes.Some? ==>
          && pos == sizes.value.pos && frames.Length == |sizes.value.sizes|
          && HasLengths(frames, sizes.value.sizes, frames.Length))
  }

  method FixedFrames(src: seq<Byte>, from: nat, stop: int, frameCount: nat)
      returns (status: int, frames: array<Frame>, pos: int)
    requires frameCount > 0
    ensures fresh(frames) && Measured(status, frames, pos, SizesAt(src, from, stop, 2, frameCount))
  {
    pos := from;
    frames := new Frame[0];
    if pos >= stop { return E_FILE_FORMAT_INVALID, frames, pos; }
    var total := stop - pos;
    if total % frameCount != 0 { return E_FILE_FORMAT_INVALID, frames, pos; }
    var frameSize := total / frameCount;
    frames := new Frame[frameCount](_ => Frame(0, frameSize));
    EqualParts(total, frameCount);
    if frameSize <= 0 { return E_FILE_FORMAT_INVALID, frames, pos; }
    status := 0;
  }

  /** Adds up the bytes of one Xiph size. */
  method XiphSize(src: seq<Byte>, from: nat, stop: int) returns (ok: bool, frameSize: nat, pos: nat)
    ensures ok <==> XiphSizeAt(src, from, stop).Some?
    ensures ok ==> (frameSize, pos) == XiphSizeAt(src, from, stop).value
  {
    pos, frameSize := from, 0;
    while true
      invariant pos >= from
      invariant XiphSizeAt(src, from, stop).Some? <==> XiphSizeAt(src, pos, stop).Some?
      invariant XiphSizeAt(src, pos, stop).Some? ==>
                  XiphSizeAt(src, from, stop).value
                  == (frameSize + XiphSizeAt(src, pos, stop).value.0, XiphSizeAt(src, pos, stop).value.1)
      decreases stop - pos
    {
      if pos >= stop || pos >= |src| { return false, frameSize, pos; }
      var val := src[pos];
      pos := pos + 1;
      frameSize := frameSize + val;
      if val < 255 { return true, frameSize, pos; }
    }
  }

  lemma {:induction false} NoMoreXiph(src: seq<Byte>, pos: nat, stop: int, n: nat, m: nat)
    requires n <= m && XiphSizesAt(src, pos, stop, n).None?
    ensures XiphSizesAt(src, pos, stop, m).None?
    decreases m
  {
    if n < m { NoMoreXiph(src, pos, stop, n, m - 1); }
  }

  method XiphFrames(src: seq<Byte>, from: nat, stop: int, frameCount: nat)
      returns (status: int, frames: array<Frame>, pos: int)
    requires frameCount > 0
    ensures fresh(frames) && Measured(status, frames, pos, SizesAt(src, from, stop, 1, frameCount))
  {
    hide XiphSizeAt, Sum;
    frames := new Frame[frameCount](_ => Frame(0, 0));
    pos := from;
    var size := 0;
    ghost var s := Sizes([], from);
    NoSizes(s);
    for i := 0 to frameCount - 1
      invariant XiphSizesAt(src, from, stop, i) == Some(s) && pos == s.pos && size == Sum(s.sizes)
      invariant |s.sizes| == i && HasLengths(frames, s.sizes, i)
    {
      if XiphSizesAt(src, from, stop, i + 1).None? { NoMoreXiph(src, from, stop, i + 1, frameCount - 1); }
      var ok, frameSize, next := XiphSize(src, pos, stop);
      if !ok { return E_FILE_FORMAT_INVALID, frames, pos; }
      pos := next;
      if frameSize <= 0 { return E_FILE_FORMAT_INVALID, frames, pos; }
      frames[i] := Frame(0, frameSize);
      SumMore(s.sizes, frameSize);
      s := Sizes(s.sizes + [frameSize as int], next);
      size := size + frameSize;
    }
    status := LastFrame(frames, pos, stop, size, s);
  }

  lemma NoSizes(s: Sizes)
    requires s.sizes == []
    ensures Sum(s.sizes) == 0
  {
  }

  /** The length of the last frame: what the others leave of the block. */
  method LastFrame(frames: array<Frame>, pos: int, stop: int, size: int, ghost s: Sizes) returns (status: int)
    requires frames.Length == |s.sizes| + 1 && HasLengths(frames, s.sizes, |s.sizes|) && pos == s.pos &&
             size == Sum(s.sizes)
    modifies frames
    ensures Measured(status, frames, pos, WithRest(s, stop))
  {
    hide Sum;
    var total := stop - pos;
    if total < size { return E_FILE_FORMAT_INVALID; }
    var frameSize := total - size;
    if frameSize <= 0 { return E_FILE_FORMAT_INVALID; }
    frames[frames.Length - 1] := Frame(0, frameSize);
    status := 0;
  }

  lemma {:induction false} NoMoreEbml(src: seq<Byte>, pos: nat, stop: int, n: nat, m: nat)
    requires n <= m && EbmlSizesAt(src, pos, stop, n).None?
    ensures EbmlSizesAt(src, pos, stop, m).None?
    decreases m
  {
    if n < m { NoMoreEbml(src, pos, stop, n, m - 1); }
  }

  /** `1 << (7 * len - 1)`, less one. */
  method BiasOf(len: nat) returns (bias: int)
    requires 1 <= len <= 8
    ensures bias == Bias(len)
  {
    var p := 64;
    for i := 1 to len
      invariant 2 * p == Pow128(i)
    {
      p := p * 128;
    }
    bias := p - 1;
  }

  /** The size of the first frame. */
  method FirstSize(src: seq<Byte>, from: nat, stop: int) returns (ok: bool, frameSize: int, pos: int)
    ensures ok <==> EbmlSizesAt(src, from, stop, 0).Some?
    ensures ok ==> EbmlSizesAt(src, from, stop, 0).value == Sizes([frameSize], pos)
  {
    hide UIntAt;
    var len;
    pos := from;
    frameSize, len := ReadUInt(src, pos);
    if frameSize <= 0 || frameSize > INT64_MAX { return false, frameSize, pos; }
    if pos + len > stop { return false, frameSize, pos; }
    pos := pos + len;
    if pos + frameSize > stop { return false, frameSize, pos; }
    ok := true;
  }

  method EbmlFrames(src: seq<Byte>, from: nat, stop: int, frameCount: nat)
      returns (status: int, frames: array<Frame>, pos: int)
    requires frameCount > 0
    ensures fresh(frames) && Measured(status, frames, pos, SizesAt(src, from, stop, 3, frameCount))
  {
    hide UIntAt, Sum, Bias, OneMoreSize;
    frames := new Frame[frameCount](_ => Frame(0, 0));
    pos := from;
    if pos >= stop { return E_FILE_FORMAT_INVALID, frames, pos; }
    if EbmlSizesAt(src, from, stop, 0).None? && frameCount > 1 { NoMoreEbml(src, from, stop, 0, frameCount - 2); }
    var first, frameSize, at := FirstSize(src, pos, stop);
    if !first { return E_FILE_FORMAT_INVALID, frames, pos; }
    pos := at;
    frames[0] := Frame(0, frameSize);
    var size := frameSize;
    ghost var s := Sizes([frameSize], pos);
    OneSize(frameSize);
    if frameCount == 1 {
      status := if pos + size != stop then E_FILE_FORMAT_INVALID else 0;
      return;
    }
    for i := 1 to frameCount - 1
      invariant EbmlSizesAt(src, from, stop, i - 1) == Some(s) && pos == s.pos && size == Sum(s.sizes)
      invariant |s.sizes| == i && HasLengths(frames, s.sizes, i) && frameSize == s.sizes[i - 1]
    {
      if EbmlSizesAt(src, from, stop, i).None? { NoMoreEbml(src, from, stop, i, frameCount - 2); }
      assert EbmlSizesAt(src, from, stop, i) == OneMoreSize(src, stop, s);
      if pos >= stop { return E_FILE_FORMAT_INVALID, frames, pos; }
      var ok, next := NextSize(src, pos, stop, frameSize, size, s);
      if !ok { return E_FILE_FORMAT_INVALID, frames, pos; }
      frameSize, pos := next.0, next.1;
      frames[i] := Frame(0, frameSize);
      SumMore(s.sizes, frameSize);
      s := Sizes(s.sizes + [frameSize], pos);
      size := size + frameSize;
    }
    status := LastFrame(frames, pos, stop, size, s);
  }

  /** One signed difference, added to the size before. */
  method NextSize(src: seq<Byte>, pos: nat, stop: int, before: int, total: int, ghost s: Sizes)
      returns (ok: bool, next: (int, int))
    requires pos < stop && pos == s.pos && |s.sizes| > 0 && before == s.sizes[|s.sizes| - 1] && total == Sum(s.sizes)
    ensures ok <==> OneMoreSize(src, stop, s).Some?
    ensures ok ==> OneMoreSize(src, stop, s).value == Sizes(s.sizes + [next.0], next.1)
  {
    hide UIntAt, Sum, Bias;
    var delta, len := ReadUInt(src, pos);
    next := (before, pos);
    if delta < 0 { return false, next; }
    if pos + len > stop { return false, next; }
    var bias := BiasOf(len);
    var frameSize := before + (delta - bias);
    if frameSize <= 0 || frameSize > INT64_MAX { return false, next; }
    if total > INT64_MAX - frameSize { return false, next; }
    ok, next := true, (frameSize, pos + len);
  }

  lemma OneSize(size: int)
    ensures Sum([size]) == size
  {
    var none: seq<int> := [];
    assert none + [size] == [size] && Sum(none) == 0;
    SumMore(none, size);
  }

  /** Gives every frame its position. */
  method Patch(frames: array<Frame>, from: int, stop: int, ghost sizes: seq<int>) returns (status: int)
    requires frames.Length == |sizes| && HasLengths(frames, sizes, |sizes|)
    requires (forall i :: 0 <= i < |sizes| ==> sizes[i] > 0) && from + Sum(sizes) == stop
    modifies frames
    ensures status == 0 && frames[..] == Placed(sizes, from)
  {
    hide Placed, Sum;
    var pos := from;
    NoneYet(sizes, from);
    for i := 0 to frames.Length
      invariant pos == from + Sum(sizes[..i]) && frames[..i] == Placed(sizes[..i], from)
      invariant forall k :: i <= k < frames.Length ==> frames[k].len == sizes[k]
    {
      OneMorePlaced(sizes, from, i);
      SumOfPart(sizes, i + 1);
      if pos + frames[i].len > stop { return E_FILE_FORMAT_INVALID; }
      frames[i] := Frame(pos, frames[i].len);
      pos := pos + frames[i].len;
      assert frames[..i + 1] == frames[..i] + [frames[i]];
    }
    assert sizes[..|sizes|] == sizes && frames[..frames.Length] == frames[..];
    if pos != stop { return E_FILE_FORMAT_INVALID; }
    status := 0;
  }

  lemma NoneYet(sizes: seq<int>, from: int)
    ensures Sum(sizes[..0]) == 0 && Placed(sizes[..0], from) == []
  {
  }

  lemma OneMorePlaced(sizes: seq<int>, from: int, i: nat)
    requires i < |sizes|
    ensures Placed(sizes[..i + 1], from) == Placed(sizes[..i], from) + [Frame(from + Sum(sizes[..i]), sizes[i])]
    ensures Sum(sizes[..i + 1]) == Sum(sizes[..i]) + sizes[i]
  {
    assert sizes[..i + 1][..i] == sizes[..i];
  }

  lemma {:induction false} SumOfPart(sizes: seq<int>, n: nat)
    requires n <= |sizes| && forall i :: 0 <= i < |sizes| ==> sizes[i] > 0
    ensures Sum(sizes[..n]) <= Sum(sizes)
    decreases |sizes| - n
  {
    if n < |sizes| {
      OneMorePlaced(sizes, 0, n);
      SumOfPart(sizes, n + 1);
    } else {
      assert sizes[..n] == sizes;
    }
  }
}
