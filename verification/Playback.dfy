/** From the muxer to the parser: a recording is played back as it was recorded, and cues find their blocks. */
module Playback {
  import opened Bytes
  import opened Ebml
  import opened EbmlReader
  import opened Blocks
  import opened BlockEntries
  import opened Clusters
  import opened Planning
  import opened SegmentMux
  import P = ClusterParser
  import R = CueReader
  import Cues
  import EbmlWriter
  import Relocation
  import SeekHeads

  /** What the fields of a frame hold in the source: 32-bit lengths and 64-bit times. */
  predicate Readable(f: MuxFrame, scale: nat)
    requires scale > 0
  {
    Fits32(f) && INT64_MIN <= f.discardPadding <= INT64_MAX && DurationValue(f, scale) <= INT64_MAX
  }

  /** The entries give back the frames, one by one. */
  ghost predicate AllGiveBack(src: seq<Byte>, entries: seq<Entry>, frames: seq<MuxFrame>, timecode: nat, scale: nat)
    requires scale > 0
  {
    |entries| == |frames|
    && forall i :: 0 <= i < |frames| ==> GivesBack(src, entries[i], frames[i], frames[i].timestamp / scale - timecode,
                                                   scale)
  }

  // ----- one block

  /** The parser stops at a frame that was written, and reads it. */
  lemma FrameStep(src: seq<Byte>, p: nat, stop: int, f: MuxFrame, timecode: int, scale: nat)
    requires scale > 0 && IsValid(f) && 0 <= timecode <= MAX_BLOCK_TIMECODE && Readable(f, scale)
    requires At(src, p, FrameBytes(f, timecode, scale)) && (stop < 0 || p + |FrameBytes(f, timecode, scale)| <= stop)
    ensures P.StepAt(src, p, stop).Next? && p < p + |FrameBytes(f, timecode, scale)| <= |src|
    ensures var h := P.StepAt(src, p, stop).h;
            && h.payload + h.size == p + |FrameBytes(f, timecode, scale)|
            && ChildAt(src, p, stop) == Some(h) && P.IsBlock(h.id) && h.size > 0
            && EntryOf(src, h).Some? && GivesBack(src, EntryOf(src, h).value, f, timecode, scale)
  {
    hide At, GivesBack, EncodeElement, SimpleEntryAt, GroupEntryAt, HeaderAt, ChildAt, MasterSize, BlockBytes,
         GroupPayload, DurationValue;
    FrameRoundTrip(src, p, f, timecode, scale);
    var id, body := FrameElement(f, timecode, scale);
    ChildReadsBack(src, p, stop, id, body);
    ChildReadsBack(src, p, -1, id, body);
    P.ChildParts(src, p, stop);
    MasterPositive(id, |body|);
    AtInside(src, p, EncodeElement(id, body));
  }

  lemma FrameElement(f: MuxFrame, timecode: int, scale: nat) returns (id: nat, body: seq<Byte>)
    requires scale > 0 && IsValid(f) && Readable(f, scale)
    ensures FrameBytes(f, timecode, scale) == EncodeElement(id, body)
    ensures P.IsBlock(id) && ValidId(id) && 0 < |body| <= MAX_CODED
  {
    hide EncodeElement, BlockBytes, DurationValue;
    GroupIdValid();
    if CanBeSimpleBlock(f) {
      id, body := ID_SIMPLE_BLOCK, BlockBytes(f.track, timecode, if f.key then 0x80 else 0, f.payload);
      BlockLength(f.track, timecode, if f.key then 0x80 else 0, f.payload);
    } else {
      id, body := ID_BLOCK_GROUP, GroupPayload(f, timecode, scale);
      GroupFits(f, timecode, scale);
      BlockElementLength(f, timecode);
    }
  }

  lemma BlockElementLength(f: MuxFrame, timecode: int)
    ensures |BlockElement(f, timecode)| > 0
  {
  }

  // ----- the blocks of a cluster

  lemma {:induction false} BlockInBody(frames: seq<MuxFrame>, timecode: nat, scale: nat, i: nat)
    requires scale > 0 && i < |frames|
    ensures At(BlocksOf(frames, timecode, scale), |BlocksOf(frames[..i], timecode, scale)|,
               FrameBytes(frames[i], frames[i].timestamp / scale - timecode, scale))
    ensures |BlocksOf(frames[..i + 1], timecode, scale)|
         == |BlocksOf(frames[..i], timecode, scale)|
             + |FrameBytes(frames[i], frames[i].timestamp / scale - timecode, scale)|
    decreases |frames|
  {
    hide FrameBytes, At;
    var n := |frames| - 1;
    var last := FrameBytes(frames[n], frames[n].timestamp / scale - timecode, scale);
    assert BlocksOf(frames, timecode, scale) == BlocksOf(frames[..n], timecode, scale) + last;
    hide BlocksOf;
    if i < n {
      assert frames[..n][..i] == frames[..i] && frames[..n][..i + 1] == frames[..i + 1];
      BlockInBody(frames[..n], timecode, scale, i);
      Further(BlocksOf(frames[..n], timecode, scale), last, |BlocksOf(frames[..i], timecode, scale)|,
              FrameBytes(frames[i], frames[i].timestamp / scale - timecode, scale));
    } else {
      assert frames[..n + 1] == frames;
      AtItsEnd(BlocksOf(frames[..n], timecode, scale), last);
    }
  }

  /** What stands in what stands at a position stands behind it. */
  lemma AtAt(src: seq<Byte>, p: int, bs: seq<Byte>, q: int, part: seq<Byte>)
    requires At(src, p, bs) && At(bs, q, part)
    ensures At(src, p + q, part) && p + q + |part| <= p + |bs|
  {
    assert |src[p + q..p + q + |part|]| == |part|;
    forall k | 0 <= k < |part| ensures src[p + q..p + q + |part|][k] == part[k] {
      assert part[k] == bs[q..q + |part|][k] == bs[q + k] == src[p..p + |bs|][q + k];
    }
  }

  lemma Reaches(frames: seq<MuxFrame>, timecode: nat, scale: nat, i: nat)
    requires scale > 0 && AllInReach(frames, timecode, scale) && i < |frames|
    ensures InReach(frames[i], timecode, scale)
  {
  }

  lemma OneMoreBack(src: seq<Byte>, entries: seq<Entry>, frames: seq<MuxFrame>, timecode: nat, scale: nat, i: nat,
                    e: Entry)
    requires scale > 0 && i < |frames| && AllGiveBack(src, entries, frames[..i], timecode, scale)
    requires GivesBack(src, e, frames[i], frames[i].timestamp / scale - timecode, scale)
    ensures AllGiveBack(src, entries + [e], frames[..i + 1], timecode, scale)
  {
    hide GivesBack;
    forall k | 0 <= k < i + 1
      ensures GivesBack(src, (entries + [e])[k], frames[..i + 1][k], frames[..i + 1][k].timestamp / scale - timecode,
                        scale) {
      if k < i { assert frames[..i + 1][k] == frames[..i][k]; }
    }
  }

  /** The next entry is `e`, and the one behind it begins at `next`. */
  predicate StepsTo(src: seq<Byte>, at: int, stop: int, e: Entry, next: int) {
    && (stop < 0 || at < stop)
    && match P.StepAt(src, at, stop)
       case Next(h) => EntryOf(src, h) == Some(e) && h.payload + h.size == next
       case _ => false
  }

  /** At the i-th block the parser reads the i-th frame, and goes on to the next one. */
  lemma BlockStep(src: seq<Byte>, p: nat, stop: int, frames: seq<MuxFrame>, timecode: nat, scale: nat, i: nat)
      returns (e: Entry)
    requires scale > 0 && AllInReach(frames, timecode, scale) && i < |frames| && Readable(frames[i], scale)
    requires At(src, p, BlocksOf(frames, timecode, scale)) &&
             (stop < 0 || p + |BlocksOf(frames, timecode, scale)| <= stop)
    ensures GivesBack(src, e, frames[i], frames[i].timestamp / scale - timecode, scale)
    ensures StepsTo(src, p + |BlocksOf(frames[..i], timecode, scale)|, stop, e,
                    p + |BlocksOf(frames[..i + 1], timecode, scale)|)
  {
    hide At, FrameBytes, BlocksOf, P.StepAt, EntryOf, GivesBack, Readable, IsValid, ChildAt, AllInReach;
    var f := frames[i];
    var at, relative := p + |BlocksOf(frames[..i], timecode, scale)|, f.timestamp / scale - timecode;
    BlockInBody(frames, timecode, scale, i);
    AtAt(src, p, BlocksOf(frames, timecode, scale), at - p, FrameBytes(f, relative, scale));
    Reaches(frames, timecode, scale, i);
    FrameStep(src, at, stop, f, relative, scale);
    e := EntryOf(src, P.StepAt(src, at, stop).h).value;
  }

  /** From the i-th block on, the parser reads the frames that were written. */
  lemma {:induction false} BlocksGiveBack(src: seq<Byte>, p: nat, stop: int, frames: seq<MuxFrame>, timecode: nat,
                                          scale: nat,
                                          i: nat, entries: seq<Entry>) returns (all: seq<Entry>)
    requires scale > 0 && AllInReach(frames, timecode, scale) && i <= |frames|
    requires forall k :: 0 <= k < |frames| ==> Readable(frames[k], scale)
    requires At(src, p, BlocksOf(frames, timecode, scale)) &&
             (stop < 0 || p + |BlocksOf(frames, timecode, scale)| <= stop)
    requires AllGiveBack(src, entries, frames[..i], timecode, scale)
    ensures AllGiveBack(src, all, frames, timecode, scale)
    ensures P.EntriesFrom(src, entries, p + |BlocksOf(frames[..i], timecode, scale)|, stop)
         == P.EntriesFrom(src, all, p + |BlocksOf(frames, timecode, scale)|, stop)
    decreases |frames| - i
  {
    hide At, FrameBytes, BlocksOf, P.StepAt, EntryOf, GivesBack, Readable, IsValid, AllInReach, AllGiveBack,
         P.LastFits;
    if i == |frames| {
      assert frames[..i] == frames;
      all := entries;
    } else {
      var e := BlockStep(src, p, stop, frames, timecode, scale, i);
      OneMoreBack(src, entries, frames, timecode, scale, i, e);
      all := BlocksGiveBack(src, p, stop, frames, timecode, scale, i + 1, entries + [e]);
    }
  }

  // ----- a cluster

  /** A cluster of unknown size ends at the end of the file, or where a cluster or the Cues begin. */
  predicate EndsAt(src: seq<Byte>, q: int) {
    q == |src| || At(src, q, EncodeId(ID_CLUSTER)) || At(src, q, EncodeId(ID_CUES))
  }

  /** Where the parser sees the end of a cluster at `p`: -1 when the size is not known. */
  function StopOf(q: Past, style: Style, p: int): int
    requires style.scale > 0
  {
    if style.seekable then p + |ClusterFile(q, style)| else -1
  }

  lemma EndFound(src: seq<Byte>, q: int, entries: seq<Entry>)
    requires 0 <= q <= |src| && EndsAt(src, q) && P.LastFits(entries, -1, |src|)
    ensures P.EntriesFrom(src, entries, q, -1) == Some(entries)
  {
    hide At, IdAt, P.LastFits, EncodeId;
    EndIds();
    if At(src, q, EncodeId(ID_CLUSTER)) { IdRoundTrip(src, q, ID_CLUSTER); }
    if At(src, q, EncodeId(ID_CUES)) { IdRoundTrip(src, q, ID_CUES); }
  }

  lemma EndIds()
    ensures ValidId(ID_CLUSTER) && ValidId(ID_CUES) && ValidId(ID_TIMECODE) && GetUIntSize(ID_CLUSTER) == 4
  {
  }

  lemma LastIn(src: seq<Byte>, entries: seq<Entry>, frames: seq<MuxFrame>, timecode: nat, scale: nat)
    requires scale > 0 && AllGiveBack(src, entries, frames, timecode, scale)
    ensures P.LastFits(entries, -1, |src|)
  {
  }

  /** The two forms of the size field, read back. */
  lemma SizeReadsBack(src: seq<Byte>, p: int, size: nat, known: bool)
    requires At(src, p, if known then EncodeSized(size, 8) else BigEndian(0x01FF_FFFF_FFFF_FFFF, 8))
    requires known ==> 0 < size <= MAX_CODED
    ensures UIntAt(src, p).Some? && UIntAt(src, p).value.1 == 8
    ensures known ==> UIntAt(src, p).value.0 == size && size != Pow128(8) - 1
    ensures !known ==> UIntAt(src, p).value.0 == Pow128(8) - 1 != 0
  {
    hide At, UIntAt, Pow128, BigEndian;
    SmallPowers(8);
    UIntRoundTrip(src, p, if known then size else Pow128(8) - 1, 8);
  }

  /** The timecode element, read back. */
  lemma TimecodeReadsBack(src: seq<Byte>, p: nat, stop: int, timecode: nat, fixedSize: bool)
    requires At(src, p, TimecodeBytes(timecode, fixedSize)) && timecode <= INT64_MAX
    requires stop < 0 || p + |TimecodeBytes(timecode, fixedSize)| <= stop
    ensures |TimecodeBytes(timecode, fixedSize)| > 0
    ensures var h := ChildAt(src, p, stop);
            && h.Some? && h.value.id == ID_TIMECODE && h.value.size > 0
            && h.value.payload + h.value.size == p + |TimecodeBytes(timecode, fixedSize)|
            && P.UIntOf(src, h.value) == Some(timecode)
  {
    hide At, ChildAt, HeaderAt, EncodeElement, BigEndian, GetUIntSize, ValidId, MasterSize, FromBigEndian, ToInt64;
    EndIds();
    var n := if fixedSize then 8 else GetUIntSize(timecode);
    var body := BigEndian(timecode, n);
    assert TimecodeBytes(timecode, fixedSize) == EncodeElement(ID_TIMECODE, body);
    ChildReadsBack(src, p, stop, ID_TIMECODE, body);
    MasterPositive(ID_TIMECODE, n);
    AtInside(src, p + MasterSize(ID_TIMECODE, n), body);
    UIntSizeIsLeast(timecode);
    FitsEight(timecode);
    UIntPayloadRoundTrip(src, p + MasterSize(ID_TIMECODE, n), timecode, n);
    ToInt64Keeps(timecode);
  }

  lemma FitsEight(v: nat)
    requires v <= INT64_MAX
    ensures v < Pow256(8)
  {
    SmallPowers(8);
  }

  /** The size field of a complete cluster. */
  function SizeOf(q: Past, style: Style): seq<Byte>
    requires style.scale > 0
  {
    if style.seekable then EncodeSized(|ClusterBody(q.frames, q.timecode, style.fixedSize, style.scale)|, 8)
    else BigEndian(0x01FF_FFFF_FFFF_FFFF, 8)
  }

  lemma ClusterIs(q: Past, style: Style)
    requires style.scale > 0
    ensures var body := ClusterBody(q.frames, q.timecode, style.fixedSize, style.scale);
            && ClusterFile(q, style) == EncodeId(ID_CLUSTER) + SizeOf(q, style) + body
            && body == TimecodeBytes(q.timecode, style.fixedSize) + BlocksOf(q.frames, q.timecode, style.scale)
            && |EncodeId(ID_CLUSTER)| == 4 && |SizeOf(q, style)| == 8
            && |ClusterFile(q, style)| == 12 + |body|
  {
    HeadSizes(q.timecode, style.fixedSize);
    assert |SizeOf(q, style)| == 8;
    hide EncodeId, EncodeSized, BigEndian, TimecodeBytes, BlocksOf;
  }

  lemma ClusterParts(src: seq<Byte>, p: nat, q: Past, style: Style) returns (body: nat, blocks: nat)
    requires style.scale > 0 && At(src, p, ClusterFile(q, style))
    ensures body == p + 12 && blocks == body + |TimecodeBytes(q.timecode, style.fixedSize)|
    ensures At(src, p, EncodeId(ID_CLUSTER))
    ensures At(src, p + 4, SizeOf(q, style))
    ensures At(src, body, TimecodeBytes(q.timecode, style.fixedSize)) &&
            At(src, blocks, BlocksOf(q.frames, q.timecode, style.scale))
    ensures blocks + |BlocksOf(q.frames, q.timecode, style.scale)| == p + |ClusterFile(q, style)| <= |src|
    ensures |ClusterBody(q.frames, q.timecode, style.fixedSize, style.scale)| == p + |ClusterFile(q, style)| - body
  {
    hide *;
    ClusterIs(q, style);
    var payload := ClusterBody(q.frames, q.timecode, style.fixedSize, style.scale);
    body, blocks := p + 12, p + 12 + |TimecodeBytes(q.timecode, style.fixedSize)|;
    AtSplit(src, p, EncodeId(ID_CLUSTER) + SizeOf(q, style), payload);
    AtSplit(src, p, EncodeId(ID_CLUSTER), SizeOf(q, style));
    AtSplit(src, body, TimecodeBytes(q.timecode, style.fixedSize), BlocksOf(q.frames, q.timecode, style.scale));
    AtInside(src, p, ClusterFile(q, style));
  }

  /** The parser loads a cluster that was written. */
  lemma ClusterLoads(src: seq<Byte>, p: nat, q: Past, style: Style) returns (blocks: nat)
    requires style.scale > 0 && Sealed(q, style) && At(src, p, ClusterFile(q, style))
    requires forall k :: 0 <= k < |q.frames| ==> Readable(q.frames[k], style.scale)
    ensures At(src, blocks, BlocksOf(q.frames, q.timecode, style.scale))
    ensures blocks + |BlocksOf(q.frames, q.timecode, style.scale)| == p + |ClusterFile(q, style)| <= |src|
    ensures P.LoadAt(src, p) == Some(P.Loaded(q.timecode, blocks, StopOf(q, style, p)))
  {
    hide At, ClusterFile, ClusterBody, TimecodeBytes, BlocksOf, EncodeId, IdAt, UIntAt, ChildAt, P.UIntOf, Pow128,
         EncodeSized, BigEndian, FrameBytes, Readable, IsValid, EntryOf, GivesBack, P.StepAt;
    var body;
    body, blocks := ClusterParts(src, p, q, style);
    EndIds();
    IdRoundTrip(src, p, ID_CLUSTER);
    var stop := StopOf(q, style, p);
    var payload := |ClusterBody(q.frames, q.timecode, style.fixedSize, style.scale)|;
    TimecodeReadsBack(src, body, stop, q.timecode, style.fixedSize);
    SizeReadsBack(src, p + 4, payload, style.seekable);
    FirstBlock(src, blocks, stop, q, style);
    assert P.TimecodeAt(src, blocks, stop, q.timecode, blocks) == Some((q.timecode as int, blocks as int));
    assert P.TimecodeAt(src, body, stop, -1, -1) == Some((q.timecode as int, blocks as int));
  }

  /** In a cluster with blocks the first one is found. */
  lemma FirstBlock(src: seq<Byte>, blocks: nat, stop: int, q: Past, style: Style)
    requires style.scale > 0 && Sealed(q, style) && At(src, blocks, BlocksOf(q.frames, q.timecode, style.scale))
    requires Readable(q.frames[0], style.scale) &&
             (stop < 0 || blocks + |BlocksOf(q.frames, q.timecode, style.scale)| <= stop)
    ensures stop < 0 || blocks < stop
    ensures var h := ChildAt(src, blocks, stop);
            h.Some? && P.IsBlock(h.value.id) && h.value.size > 0 && (stop < 0 || h.value.payload + h.value.size <= stop)
  {
    hide At, BlocksOf, FrameBytes, Readable, IsValid, ChildAt, EntryOf, GivesBack, P.StepAt, ClusterBody;
    var f := q.frames[0];
    assert q.frames[..0] == [] && BlocksOf([], q.timecode, style.scale) == [] by { NoBlocks(q.timecode, style.scale); }
    BlockInBody(q.frames, q.timecode, style.scale, 0);
    AtAt(src, blocks, BlocksOf(q.frames, q.timecode, style.scale), 0,
         FrameBytes(f, f.timestamp / style.scale - q.timecode, style.scale));
    FrameStep(src, blocks, stop, f, f.timestamp / style.scale - q.timecode, style.scale);
  }

  lemma NoBlocks(timecode: nat, scale: nat)
    requires scale > 0
    ensures BlocksOf([], timecode, scale) == []
  {
  }

  /** All entries of the cluster at `p`. */
  function EntriesIn(src: seq<Byte>, p: int): Option<seq<Entry>> {
    match P.LoadAt(src, p)
    case None => None
    case Some(l) => P.EntriesFrom(src, [], l.pos, l.stop)
  }

  /** The cluster is played back: its timecode, and all its frames. */
  ghost predicate PlaysBack(src: seq<Byte>, p: int, q: Past, style: Style)
    requires style.scale > 0
  {
    && P.LoadAt(src, p).Some? && P.LoadAt(src, p).value.timecode == q.timecode
    && EntriesIn(src, p).Some? && AllGiveBack(src, EntriesIn(src, p).value, q.frames, q.timecode, style.scale)
  }

  /** Every complete cluster, wherever it stands, is played back frame by frame. */
  lemma ClusterPlaysBack(src: seq<Byte>, p: nat, q: Past, style: Style)
    requires style.scale > 0 && Sealed(q, style) && At(src, p, ClusterFile(q, style))
    requires forall k :: 0 <= k < |q.frames| ==> Readable(q.frames[k], style.scale)
    requires style.seekable || EndsAt(src, p + |ClusterFile(q, style)|)
    ensures PlaysBack(src, p, q, style)
  {
    hide At, ClusterFile, ClusterBody, BlocksOf, P.LoadAt, P.StepAt, P.LastFits, EntryOf, GivesBack, Readable, EndsAt,
         AllInReach;
    var blocks := ClusterLoads(src, p, q, style);
    assert q.frames[..0] == [];
    NoBlocks(q.timecode, style.scale);
    var all := BlocksGiveBack(src, blocks, StopOf(q, style, p), q.frames, q.timecode, style.scale, 0, []);
    if !style.seekable {
      LastIn(src, all, q.frames, q.timecode, style.scale);
      EndFound(src, p + |ClusterFile(q, style)|, all);
    }
  }

  // ----- a recording

  lemma ClusterPlace(src: seq<Byte>, base: nat, past: seq<Past>, style: Style, first: nat, i: nat)
    requires style.scale > 0 && PastFine(past, style, first) && i < |past|
    requires At(src, base + first, FileOf(past, style))
    ensures At(src, base + past[i].position, ClusterFile(past[i], style))
    ensures past[i].position == first + |FileOf(past[..i], style)|
  {
    hide FileOf, ClusterFile, Sealed, At;
    ClusterAt(past, style, first, i);
    AtAt(src, base + first, FileOf(past, style), past[i].position - first, ClusterFile(past[i], style));
  }

  /** A cluster ends where the next one begins. */
  lemma NextCluster(src: seq<Byte>, base: nat, past: seq<Past>, style: Style, first: nat, i: nat)
    requires style.scale > 0 && PastFine(past, style, first) && i < |past|
    requires At(src, base + first, FileOf(past, style))
    ensures At(src, base + past[i].position, ClusterFile(past[i], style))
    ensures var q := base + past[i].position + |ClusterFile(past[i], style)|;
            if i + 1 < |past| then At(src, q, EncodeId(ID_CLUSTER)) else q == base + first + |FileOf(past, style)|
  {
    hide FileOf, ClusterFile, PastFine, At, EncodeId, ClusterBody, EncodeSized, BigEndian, TimecodeBytes, BlocksOf;
    ClusterPlace(src, base, past, style, first, i);
    FileLonger(past, style, i);
    if i + 1 < |past| {
      ClusterPlace(src, base, past, style, first, i + 1);
      var body, blocks := ClusterParts(src, base + past[i + 1].position, past[i + 1], style);
    } else {
      assert past[..i + 1] == past;
    }
  }

  lemma FileLonger(past: seq<Past>, style: Style, i: nat)
    requires style.scale > 0 && i < |past|
    ensures |FileOf(past[..i + 1], style)| == |FileOf(past[..i], style)| + |ClusterFile(past[i], style)|
  {
    hide ClusterFile;
    assert past[..i + 1][..i] == past[..i];
  }

  lemma {:induction false} FrameIsBlock(past: seq<Past>, i: nat, k: nat)
    requires i < |past| && k < |past[i].frames|
    ensures past[i].frames[k] in AllBlocks(past)
  {
    var n := |past| - 1;
    if i < n {
      FrameIsBlock(past[..n], i, k);
    } else {
      assert AllBlocks(past)[|AllBlocks(past[..n])| + k] == past[i].frames[k];
    }
  }

  /** Every cluster of a recording is played back, wherever the recording stands in a file. */
  lemma RecordingPlaysBack(src: seq<Byte>, base: nat, past: seq<Past>, style: Style, first: nat)
    requires style.scale > 0 && PastFine(past, style, first) && At(src, base + first, FileOf(past, style))
    requires forall f :: f in AllBlocks(past) ==> Readable(f, style.scale)
    requires style.seekable || EndsAt(src, base + first + |FileOf(past, style)|)
    ensures forall i :: 0 <= i < |past| ==> PlaysBack(src, base + past[i].position, past[i], style)
  {
    hide FileOf, ClusterFile, At, EncodeId, Readable, AllBlocks, PlaysBack, Sealed;
    forall i | 0 <= i < |past| ensures PlaysBack(src, base + past[i].position, past[i], style) {
      NextCluster(src, base, past, style, first, i);
      forall k | 0 <= k < |past[i].frames| ensures Readable(past[i].frames[k], style.scale) {
        FrameIsBlock(past, i, k);
      }
      ClusterPlaysBack(src, base + past[i].position, past[i], style);
    }
  }

  /** What the muxer has recorded, from the frames it was given to its file, is played back from that file. */
  lemma RecordedPlaysBack(s: Segment, input: seq<MuxFrame>)
    requires s.FileDone() && AllBlocks(s.past) == s.accepted && |s.accepted| == |input|
    requires forall i :: 0 <= i < |input| ==>
             SameButReference(s.accepted[i], input[i]) && Readable(input[i], s.style.scale)
    ensures forall i :: 0 <= i < |s.past| ==>
            PlaysBack(s.writer.Data(), s.payloadPos + s.past[i].position, s.past[i], s.style)
  {
    hide FileOf, PastFine, AllBlocks, PlaysBack;
    forall f | f in AllBlocks(s.past) ensures Readable(f, s.style.scale) {
      var i :| 0 <= i < |s.accepted| && s.accepted[i] == f;
      assert Readable(input[i], s.style.scale);
    }
    RecordingPlaysBack(s.writer.Data(), s.payloadPos, s.past, s.style, s.start - s.payloadPos);
  }

  // ----- cues

  /** The entry's time in the file is the frame's. */
  lemma EntryTime(src: seq<Byte>, e: Entry, f: MuxFrame, timecode: nat, scale: nat)
    requires scale > 0 && GivesBack(src, e, f, f.timestamp / scale - timecode, scale) && f.timestamp <= INT64_MAX
    ensures P.TimeOf(e, timecode) == f.timestamp / scale
  {
    Smaller(f.timestamp, scale);
  }

  /** Following a cue finds the block it was made of: the first one of its track in its cluster, with
      exactly the cue's time. */
  lemma CueFinds(src: seq<Byte>, p: int, q: Past, style: Style, t: nat, c: Cue, types: map<int, int>)
    requires style.scale > 0 && PlaysBack(src, p, q, style) && c in CueOf(q.frames, q.position, t, style.scale)
    requires forall k :: 0 <= k < |q.frames| ==> q.frames[k].timestamp <= INT64_MAX
    ensures var all := EntriesIn(src, p).value;
            var i := P.CueEntry(all, q.timecode, c.time, c.track, c.blockNumber, types);
            && i == c.blockNumber - 1 == FirstOf(q.frames, t) < |all|
            && all[i].block.track == t && P.TimeOf(all[i], q.timecode) == c.time
            && At(src, all[i].block.frames[0].pos, q.frames[i].payload)
  {
    hide P.LoadAt, P.EntriesFrom, FirstOf, At;
    CueMeaning(q.frames, q.position, t, style.scale);
    var i := c.blockNumber - 1;
    EntryTime(src, EntriesIn(src, p).value[i], q.frames[i], q.timecode, style.scale);
  }

  /** A cue that does not give the number of its block (read as 1) still finds it when the block is the first one,
      or of an audio track, or a key frame of a video track, and in no other case. */
  lemma CueFindsWithoutNumber(src: seq<Byte>, p: int, q: Past, style: Style, t: nat, c: Cue, types: map<int, int>)
    requires style.scale > 0 && PlaysBack(src, p, q, style) && c in CueOf(q.frames, q.position, t, style.scale)
    requires forall k :: 0 <= k < |q.frames| ==> q.frames[k].timestamp <= INT64_MAX
    ensures var k := FirstOf(q.frames, t);
            P.CueEntry(EntriesIn(src, p).value, q.timecode, c.time, c.track, 1, types) ==
            if k == 0 || (t in types && (types[t] == P.AUDIO || (types[t] == P.VIDEO && q.frames[k].key))) then k
                else -1
  {
    hide P.LoadAt, P.EntriesFrom, At;
    CueMeaning(q.frames, q.position, t, style.scale);
    var k := FirstOf(q.frames, t);
    var all := EntriesIn(src, p).value;
    EntryTime(src, all[k], q.frames[k], q.timecode, style.scale);
    SearchFrom(src, all, q, style, t, c.time, types, 0);
  }

  lemma {:induction false} SearchFrom(src: seq<Byte>, all: seq<Entry>, q: Past, style: Style, t: nat, time: int,
                                      types: map<int, int>, i: nat)
    requires style.scale > 0 && AllGiveBack(src, all, q.frames, q.timecode, style.scale)
    requires i <= FirstOf(q.frames, t) < |q.frames|
    requires P.TimeOf(all[FirstOf(q.frames, t)], q.timecode) == time
    ensures var k := FirstOf(q.frames, t);
            P.SearchCue(all, i, q.timecode, time, t, types) ==
            if t in types && (types[t] == P.AUDIO || (types[t] == P.VIDEO && q.frames[k].key)) then k else -1
    decreases FirstOf(q.frames, t) - i
  {
    hide At, FirstOf;
    if i < FirstOf(q.frames, t) { SearchFrom(src, all, q, style, t, time, types, i + 1); }
  }

  /** A cue that has been moved leads to its cluster, which is played back from the copy as it was recorded. */
  lemma RelocatedPlaysBack(src: seq<Byte>, clusters: nat, end: nat, before: seq<Cue>, after: seq<Cue>, payloadPos: nat,
                           filled: seq<Byte>, sizeAt: nat, size: seq<Byte>, j: nat, q: Past, style: Style)
    requires sizeAt + |size| <= payloadPos && payloadPos + |filled| <= clusters <= end <= |src|
    requires after == Cues.MoveAll(before, Cues.CuesSize(after)) && j < |after| && before[j].clusterPos == q.position
    requires style.scale > 0 && style.seekable && Sealed(q, style)
    requires At(src, payloadPos + q.position, ClusterFile(q, style))
    requires clusters <= payloadPos + q.position && payloadPos + q.position + |ClusterFile(q, style)| <= end
    requires forall k :: 0 <= k < |q.frames| ==> Readable(q.frames[k], style.scale)
    ensures PlaysBack(Relocation.Relocated(src, clusters, end, Cues.EncodeCues(after), payloadPos, filled, sizeAt,
                                           size),
                      payloadPos + after[j].clusterPos, q, style)
  {
    hide At, Relocation.Relocated, ClusterFile, Sealed, PlaysBack, Readable, Cues.CuesSize, Cues.EncodeCues;
    Relocation.CuesStillPoint(src, clusters, end, before, after, payloadPos, filled, sizeAt, size, j);
    var out := Relocation.Relocated(src, clusters, end, Cues.EncodeCues(after), payloadPos, filled, sizeAt, size);
    SameTail(src, payloadPos + q.position, end, out, payloadPos + after[j].clusterPos, ClusterFile(q, style));
    ClusterPlaysBack(out, payloadPos + after[j].clusterPos, q, style);
  }

  /** The whole way: after the Cues have been moved in front of the clusters, every cue leads to its cluster and in
      it to its block. */
  lemma RelocatedCueFinds(src: seq<Byte>, clusters: nat, end: nat, before: seq<Cue>, after: seq<Cue>, payloadPos: nat,
                          filled: seq<Byte>, sizeAt: nat, size: seq<Byte>, j: nat, q: Past, style: Style, t: nat,
                          types: map<int, int>)
    requires sizeAt + |size| <= payloadPos && payloadPos + |filled| <= clusters <= end <= |src|
    requires after == Cues.MoveAll(before, Cues.CuesSize(after)) && j < |after|
    requires style.scale > 0 && style.seekable && Sealed(q, style)
    requires At(src, payloadPos + q.position, ClusterFile(q, style))
    requires clusters <= payloadPos + q.position && payloadPos + q.position + |ClusterFile(q, style)| <= end
    requires forall k :: 0 <= k < |q.frames| ==>
             Readable(q.frames[k], style.scale) && q.frames[k].timestamp <= INT64_MAX
    requires before[j] in CueOf(q.frames, q.position, t, style.scale)
    ensures var out := Relocation.Relocated(src, clusters, end, Cues.EncodeCues(after), payloadPos, filled, sizeAt,
                                            size);
            var p := payloadPos + after[j].clusterPos;
            PlaysBack(out, p, q, style) && LeadsToBlock(out, p, q, t, after[j], types)
  {
    hide At, Relocation.Relocated, ClusterFile, Sealed, PlaysBack, Readable, Cues.CuesSize, Cues.EncodeCues, CueOf,
         EntriesIn, FirstOf, LeadsToBlock;
    CuePlace(before[j], q, t, style.scale);
    RelocatedPlaysBack(src, clusters, end, before, after, payloadPos, filled, sizeAt, size, j, q, style);
    NotLate(q, style.scale);
    var out := Relocation.Relocated(src, clusters, end, Cues.EncodeCues(after), payloadPos, filled, sizeAt, size);
    CueIsEntry(out, payloadPos + after[j].clusterPos, q, style, t, before[j], types);
    MovedCueLeads(out, payloadPos + after[j].clusterPos, q, t, before[j], after[j], types);
  }

  /** In the cluster at `p` the cue is found to mean the first block of its track. */
  predicate LeadsToBlock(src: seq<Byte>, p: int, q: Past, t: nat, c: Cue, types: map<int, int>) {
    && EntriesIn(src, p).Some?
    && P.CueEntry(EntriesIn(src, p).value, q.timecode, c.time, c.track, c.blockNumber, types) == FirstOf(q.frames, t)
  }

  lemma MovedCueLeads(src: seq<Byte>, p: int, q: Past, t: nat, before: Cue, after: Cue, types: map<int, int>)
    requires LeadsToBlock(src, p, q, t, before, types) && after == before.(clusterPos := after.clusterPos)
    ensures LeadsToBlock(src, p, q, t, after, types)
  {
  }

  lemma CueIsEntry(src: seq<Byte>, p: int, q: Past, style: Style, t: nat, c: Cue, types: map<int, int>)
    requires style.scale > 0 && PlaysBack(src, p, q, style) && c in CueOf(q.frames, q.position, t, style.scale)
    requires forall k :: 0 <= k < |q.frames| ==> q.frames[k].timestamp <= INT64_MAX
    ensures LeadsToBlock(src, p, q, t, c, types)
  {
    hide P.CueEntry, CueOf, At, FirstOf, EntriesIn, P.LoadAt;
    CueFinds(src, p, q, style, t, c, types);
  }

  lemma CuePlace(c: Cue, q: Past, t: nat, scale: nat)
    requires scale > 0 && c in CueOf(q.frames, q.position, t, scale)
    ensures c.clusterPos == q.position
  {
  }

  lemma NotLate(q: Past, scale: nat)
    requires scale > 0 && forall k :: 0 <= k < |q.frames| ==>
             Readable(q.frames[k], scale) && q.frames[k].timestamp <= INT64_MAX
    ensures forall k :: 0 <= k < |q.frames| ==> q.frames[k].timestamp <= INT64_MAX
  {
    hide Readable;
  }

  lemma SameTail(src: seq<Byte>, from: nat, end: nat, out: seq<Byte>, p: nat, bs: seq<Byte>)
    requires At(src, from, bs) && from + |bs| <= end <= |src| && p <= |out| && out[p..] == src[from..end]
    ensures At(out, p, bs)
  {
    assert out[p..p + |bs|] == out[p..][..|bs|];
    assert src[from..from + |bs|] == src[from..end][..|bs|];
  }

  // ----- a whole file

  /** Every cue of a recording is that of one of its clusters. */
  lemma {:induction false} CueOwner(past: seq<Past>, t: nat, scale: nat, c: Cue) returns (i: nat)
    requires scale > 0 && c in CuesOf(past, t, scale)
    ensures i < |past| && c in CueOf(past[i].frames, past[i].position, t, scale)
  {
    hide CueOf;
    var n := |past| - 1;
    if c in CueOf(past[n].frames, past[n].position, t, scale) {
      i := n;
    } else {
      i := CueOwner(past[..n], t, scale, c);
    }
  }

  /** A cue leads to one of the clusters, which is played back, and in it to the first block of the cue track. */
  ghost predicate Leads(src: seq<Byte>, p: int, c: Cue, past: seq<Past>, style: Style, t: nat, types: map<int, int>)
    requires style.scale > 0
  {
    exists i :: 0 <= i < |past| && PlaysBack(src, p, past[i], style) && LeadsToBlock(src, p, past[i], t, c, types)
  }

  /** The numbers read for a cue are those it was made with. */
  lemma ReadCueIs(c: Cue)
    requires c.outputBlockNumber && c.blockNumber >= 1
    ensures R.PointFor(c) == R.Point(c.time, [R.Position(c.track, c.clusterPos, c.blockNumber)])
  {
  }

  /** In the copy of a whole recording with its Cues in front, the parser finds the Cues element, reads all the cues
      that were made, in the order of time if they were, and each leads to its block. */
  lemma RelocatedFilePlays(src: seq<Byte>, clusters: nat, end: nat, before: seq<Cue>, after: seq<Cue>, payloadPos: nat,
                           filled: seq<Byte>, sizeAt: nat, size: seq<Byte>, past: seq<Past>, style: Style, t: nat,
                           types: map<int, int>)
    requires sizeAt + |size| <= payloadPos && payloadPos + |filled| <= clusters <= end <= |src|
    requires style.scale > 0 && style.seekable && PastFine(past, style, clusters - payloadPos)
    requires At(src, clusters, FileOf(past, style)) && end == clusters + |FileOf(past, style)|
    requires forall f :: f in AllBlocks(past) ==> Readable(f, style.scale) && f.timestamp <= INT64_MAX
    requires before == CuesOf(past, t, style.scale) && after == Cues.MoveAll(before, Cues.CuesSize(after))
    requires Cues.SumSizes(after) <= MAX_CODED && forall j :: 0 <= j < |after| ==> R.Fits(after[j])
    ensures var out := Relocation.Relocated(src, clusters, end, Cues.EncodeCues(after), payloadPos, filled, sizeAt,
                                            size);
            && R.AllRead(out, clusters + MasterSize(ID_CUES, Cues.SumSizes(after)), clusters + Cues.CuesSize(after),
                         after)
            && (TimesInOrder(before) ==> TimesInOrder(after))
            && forall j :: 0 <= j < |after| ==>
                 && R.PointFor(after[j]) == R.Point(before[j].time,
                                                    [R.Position(t, after[j].clusterPos, before[j].blockNumber)])
                 && Leads(out, payloadPos + after[j].clusterPos, after[j], past, style, t, types)
  {
    hide *;
    var out := Relocation.Relocated(src, clusters, end, Cues.EncodeCues(after), payloadPos, filled, sizeAt, size);
    CuesInCopy(src, clusters, end, after, payloadPos, filled, sizeAt, size);
    R.CuesReadBack(out, clusters, after);
    MovedInOrder(before, after);
    forall j | 0 <= j < |after|
      ensures R.PointFor(after[j]) == R.Point(before[j].time,
                                              [R.Position(t, after[j].clusterPos, before[j].blockNumber)])
      ensures Leads(out, payloadPos + after[j].clusterPos, after[j], past, style, t, types)
    {
      MovedCue(before, after, j);
      var i := CueOwner(past, t, style.scale, before[j]);
      CueNumbers(past[i], t, style.scale, before[j]);
      ReadCueIs(after[j]);
      ClusterIn(src, payloadPos, past, style, clusters, i);
      FramesFine(past, i, style.scale);
      RelocatedCueFinds(src, clusters, end, before, after, payloadPos, filled, sizeAt, size, j, past[i], style, t,
                        types);
      Led(out, payloadPos + after[j].clusterPos, after[j], past, style, t, types, i);
    }
  }

  lemma Led(src: seq<Byte>, p: int, c: Cue, past: seq<Past>, style: Style, t: nat, types: map<int, int>, i: nat)
    requires style.scale > 0 && i < |past| && PlaysBack(src, p, past[i], style) &&
             LeadsToBlock(src, p, past[i], t, c, types)
    ensures Leads(src, p, c, past, style, t, types)
  {
    hide PlaysBack, LeadsToBlock;
  }

  lemma CuesInCopy(src: seq<Byte>, clusters: nat, end: nat, after: seq<Cue>, payloadPos: nat, filled: seq<Byte>,
                   sizeAt: nat,
                   size: seq<Byte>)
    requires sizeAt + |size| <= payloadPos && payloadPos + |filled| <= clusters <= end <= |src|
    ensures At(Relocation.Relocated(src, clusters, end, Cues.EncodeCues(after), payloadPos, filled, sizeAt, size),
               clusters,
               Cues.EncodeCues(after))
  {
    Relocation.RelocatedMeaning(src, clusters, end, Cues.EncodeCues(after), payloadPos, filled, sizeAt, size);
    hide Relocation.Relocated, Cues.EncodeCues;
  }

  lemma MovedCue(before: seq<Cue>, after: seq<Cue>, j: nat)
    requires after == Cues.MoveAll(before, Cues.CuesSize(after)) && j < |after|
    ensures |before| == |after| && before[j] in before && after[j] == before[j].(clusterPos := after[j].clusterPos)
  {
    hide Cues.CuesSize;
  }

  lemma MovedInOrder(before: seq<Cue>, after: seq<Cue>)
    requires after == Cues.MoveAll(before, Cues.CuesSize(after)) && |before| == |after|
    ensures TimesInOrder(before) ==> TimesInOrder(after)
  {
    hide Cues.CuesSize;
  }

  lemma CueNumbers(q: Past, t: nat, scale: nat, c: Cue)
    requires scale > 0 && c in CueOf(q.frames, q.position, t, scale)
    ensures c.outputBlockNumber && c.blockNumber >= 1 && c.track == t
  {
  }

  lemma ClusterIn(src: seq<Byte>, payloadPos: nat, past: seq<Past>, style: Style, clusters: nat, i: nat)
    requires style.scale > 0 && payloadPos <= clusters && PastFine(past, style, clusters - payloadPos) && i < |past|
    requires At(src, clusters, FileOf(past, style))
    ensures Sealed(past[i], style) && At(src, payloadPos + past[i].position, ClusterFile(past[i], style))
    ensures clusters <= payloadPos + past[i].position
    ensures payloadPos + past[i].position + |ClusterFile(past[i], style)| <= clusters + |FileOf(past, style)|
  {
    hide FileOf, ClusterFile, Sealed, At;
    ClusterAt(past, style, clusters - payloadPos, i);
    AtAt(src, clusters, FileOf(past, style), past[i].position - (clusters - payloadPos), ClusterFile(past[i], style));
  }

  lemma FramesFine(past: seq<Past>, i: nat, scale: nat)
    requires scale > 0 && i < |past| && forall f :: f in AllBlocks(past) ==>
             Readable(f, scale) && f.timestamp <= INT64_MAX
    ensures forall k :: 0 <= k < |past[i].frames| ==>
            Readable(past[i].frames[k], scale) && past[i].frames[k].timestamp <= INT64_MAX
  {
    hide AllBlocks, Readable;
    forall k | 0 <= k < |past[i].frames| ensures Readable(past[i].frames[k], scale) &&
        past[i].frames[k].timestamp <= INT64_MAX {
      FrameIsBlock(past, i, k);
    }
  }

  /** What holds after a recording: the file has the frames that were given, and the cues are those of its clusters. */
  ghost predicate Recorded(s: Segment, input: seq<MuxFrame>)
    reads s
  {
    && s.style.scale > 0 && s.style.seekable && s.payloadPos <= s.start
    && PastFine(s.past, s.style, s.start - s.payloadPos)
    && s.outputCues && s.cues == CuesOf(s.past, s.cuesTrack, s.style.scale)
    && AllBlocks(s.past) == s.accepted && |s.accepted| == |input|
    && forall i :: 0 <= i < |input| ==>
         SameButReference(s.accepted[i], input[i]) && Readable(input[i], s.style.scale) && InRange(input[i])
  }

  /** The segment to be copied is the one recorded: its clusters stand in the finished file `src` where they were
      written, and its cues, once moved, are those recorded. */
  ghost predicate Finishes(m: Relocation.Segment, s: Segment, src: seq<Byte>)
    reads m, m.cues, m.cues.entries, m.seekHead, m.seekHead.ids, m.seekHead.positions, s
  {
    && s.style.scale > 0
    && m.Valid() && m.payloadPos == s.payloadPos && m.clusterOffset == s.start && m.clusterEndOffset <= |src|
    && m.clusterEndOffset == s.start + |FileOf(s.past, s.style)| && At(src, s.start, FileOf(s.past, s.style))
    && m.CueValues() == Cues.MoveAll(s.cues, Cues.CuesSize(m.CueValues()))
    && Cues.SumSizes(m.CueValues()) <= MAX_CODED && forall j :: 0 <= j < |m.CueValues()| ==> R.Fits(m.CueValues()[j])
  }

  /** In a file with the Cues `after` in front of the clusters the parser reads them all, in the order of time if they
      were recorded so, and each leads to a cluster, which is played back, and in it to its block. */
  ghost predicate CopyPlays(s: Segment, out: seq<Byte>, after: seq<Cue>, types: map<int, int>)
    requires s.style.scale > 0
    reads s
  {
    && R.AllRead(out, s.start + MasterSize(ID_CUES, Cues.SumSizes(after)), s.start + Cues.CuesSize(after), after)
    && |after| == |s.cues| && (TimesInOrder(s.cues) ==> TimesInOrder(after))
    && forall j :: 0 <= j < |after| ==>
         && R.PointFor(after[j])
            == R.Point(s.cues[j].time, [R.Position(s.cuesTrack, after[j].clusterPos, s.cues[j].blockNumber)])
         && Leads(out, s.payloadPos + after[j].clusterPos, after[j], s.past, s.style, s.cuesTrack, types)
  }

  /** From the frames given to the muxer to the copy with the Cues in front: the parser reads every cue from the copy,
      and each leads to its block there. */
  lemma RecordedCopyPlays(s: Segment, input: seq<MuxFrame>, m: Relocation.Segment, src: seq<Byte>, w: EbmlWriter.Writer,
                          types: map<int, int>)
    requires Recorded(s, input) && Finishes(m, s, src) && m.CopyDone(src, w)
    ensures w.Valid() && CopyPlays(s, w.Data(), m.CueValues(), types)
  {
    hide *;
    BlocksReadable(s, input);
    FinishedIs(m, s, src, input);
    CopyIs(m, src, w);
    var size := EncodeSized(m.clusterEndOffset + Cues.CuesSize(m.CueValues()) - m.payloadPos, 8);
    RelocatedFilePlays(src, s.start, m.clusterEndOffset, s.cues, m.CueValues(), s.payloadPos,
                       SeekHeads.Filled(m.seekHead.Entries()), m.sizePosition, size, s.past, s.style, s.cuesTrack,
                           types);
    CopyPlaysIs(s, w.Data(), m.CueValues(), types);
  }

  lemma CopyPlaysIs(s: Segment, out: seq<Byte>, after: seq<Cue>, types: map<int, int>)
    requires s.style.scale > 0 && |after| == |s.cues| && (TimesInOrder(s.cues) ==> TimesInOrder(after))
    requires R.AllRead(out, s.start + MasterSize(ID_CUES, Cues.SumSizes(after)), s.start + Cues.CuesSize(after), after)
    requires forall j :: 0 <= j < |after| ==>
               && R.PointFor(after[j])
                  == R.Point(s.cues[j].time, [R.Position(s.cuesTrack, after[j].clusterPos, s.cues[j].blockNumber)])
               && Leads(out, s.payloadPos + after[j].clusterPos, after[j], s.past, s.style, s.cuesTrack, types)
    ensures CopyPlays(s, out, after, types)
  {
    hide R.AllRead, Leads, TimesInOrder, R.PointFor, Cues.SumSizes, Cues.CuesSize, MasterSize;
  }

  lemma CopyIs(m: Relocation.Segment, src: seq<Byte>, w: EbmlWriter.Writer)
    requires m.Valid() && m.CopyDone(src, w)
    ensures w.Valid() && m.seekHead.Valid() && m.payloadPos <= m.clusterOffset <= m.clusterEndOffset <= |src|
    ensures SeekHeads.Spare(m.seekHead.Entries()) >= 2 && EbmlWriter.VoidFits(SeekHeads.Spare(m.seekHead.Entries()))
    ensures m.sizePosition <= m.clusterOffset && |SeekHeads.Filled(m.seekHead.Entries())| == SeekHeads.RESERVED
    ensures w.Data() == Relocation.Relocated(src, m.clusterOffset, m.clusterEndOffset, Cues.EncodeCues(m.CueValues()),
                                             m.payloadPos, SeekHeads.Filled(m.seekHead.Entries()), m.sizePosition,
                                             EncodeSized(m.clusterEndOffset
                                                         + Cues.CuesSize(m.CueValues()) - m.payloadPos, 8))
  {
    hide Relocation.Relocated, Cues.EncodeCues, SeekHeads.Filled, EncodeSized, Cues.CuesSize;
  }

  lemma BlocksReadable(s: Segment, input: seq<MuxFrame>)
    requires Recorded(s, input)
    ensures s.style.scale > 0 && s.cues == CuesOf(s.past, s.cuesTrack, s.style.scale)
    ensures forall f :: f in AllBlocks(s.past) ==> Readable(f, s.style.scale) && f.timestamp <= INT64_MAX
  {
    hide FileOf, PastFine, AllBlocks, CuesOf;
    forall f | f in AllBlocks(s.past) ensures Readable(f, s.style.scale) && f.timestamp <= INT64_MAX {
      var i :| 0 <= i < |s.accepted| && s.accepted[i] == f;
      assert Readable(input[i], s.style.scale);
    }
  }

  lemma FinishedIs(m: Relocation.Segment, s: Segment, src: seq<Byte>, input: seq<MuxFrame>)
    requires Recorded(s, input) && Finishes(m, s, src)
    ensures m.Valid() && m.seekHead.Valid()
    ensures var n := m.clusterEndOffset + Cues.CuesSize(m.CueValues()) - m.payloadPos;
            n >= 0 && m.sizePosition + |EncodeSized(n, 8)| <= s.payloadPos
    ensures s.payloadPos + SeekHeads.RESERVED <= s.start <= m.clusterEndOffset <= |src|
    ensures s.style.seekable && PastFine(s.past, s.style, s.start - s.payloadPos)
    ensures At(src, s.start, FileOf(s.past, s.style)) && m.clusterEndOffset == s.start + |FileOf(s.past, s.style)|
    ensures m.payloadPos == s.payloadPos && m.clusterOffset == s.start
    ensures m.CueValues() == Cues.MoveAll(s.cues, Cues.CuesSize(m.CueValues())) && |m.CueValues()| == |s.cues|
    ensures Cues.SumSizes(m.CueValues()) <= MAX_CODED && forall j :: 0 <= j < |m.CueValues()| ==>
            R.Fits(m.CueValues()[j])
  {
    hide FileOf, PastFine, At, Cues.CuesSize, Cues.SumSizes, R.Fits, EncodeSized, BigEndian, CuesOf, AllBlocks,
        Readable, InRange;
    EightBytesLong(m.clusterEndOffset + Cues.CuesSize(m.CueValues()) - m.payloadPos);
  }

  lemma EightBytesLong(n: nat)
    ensures |EncodeSized(n, 8)| == 8
  {
  }

  // ----- searching by time

  /** Cue points that were loaded from cues in the order of time are in the order of time, so that searching
      them by halving finds the nearest. */
  lemma LoadedInOrder(c: R.Cues, src: seq<Byte>, cues: seq<Cue>)
    requires c.Valid(src) && R.AllRead(src, c.start, c.start + c.size, cues) && TimesInOrder(cues)
    ensures c.InOrder()
  {
    hide R.PlacesAt, R.PointOf;
    if c.count > 0 {
      forall i | 0 <= i < c.count ensures c.points[i].timecode == cues[i].time {
        assert R.PointOf(src, c.Places(src).value[i]) == Some(R.PointFor(cues[i]));
      }
    }
  }
}
