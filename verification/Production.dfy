/** From frames to a finished file and to its copy with the Cues in front (libwebm/mkvmuxer/mkvmuxer.cc,
    `Segment::Finalize` and then `Segment::CopyAndMoveCuesBeforeClusters`): the whole way, and that the copy plays. */
module Production {
  import opened Bytes
  import opened Ebml
  import opened EbmlReader
  import opened EbmlWriter
  import opened Blocks
  import opened Clusters
  import opened Planning
  import Cues
  import M = SegmentMux
  import Playback
  import R = CueReader
  import Relocation
  import SeekHeads

  // ----- what is known of recorded cues

  lemma {:induction false} FramesCounted(frames: seq<MuxFrame>, timecode: nat, scale: nat)
    requires scale > 0
    ensures |frames| <= |BlocksOf(frames, timecode, scale)|
  {
    if |frames| > 0 {
      var f := frames[|frames| - 1];
      FramesCounted(frames[..|frames| - 1], timecode, scale);
      FrameNotEmpty(f, f.timestamp / scale - timecode, scale);
      hide FrameBytes;
    }
  }

  lemma FrameNotEmpty(f: MuxFrame, timecode: int, scale: nat)
    requires scale > 0
    ensures |FrameBytes(f, timecode, scale)| > 0
  {
  }

  /** The numbers of a cue of a file with `size` bytes of clusters, the first of them at `first`. */
  ghost predicate FitsIn(c: Cues.Cue, first: int, size: nat) {
    && c.outputBlockNumber && c.time <= INT64_MAX && 1 <= c.track <= MAX_TRACK_NUMBER
    && first <= c.clusterPos <= first + size && c.blockNumber <= size
  }

  /** The numbers of a cue are those of its block and its cluster, and no larger than the file allows. */
  lemma CueFits(past: seq<M.Past>, t: nat, style: Style, first: nat, c: Cues.Cue)
    requires style.scale > 0 && M.PastFine(past, style, first) && c in M.CuesOf(past, t, style.scale)
    requires forall f :: f in M.AllBlocks(past) ==> f.timestamp <= INT64_MAX
    ensures FitsIn(c, first, |M.FileOf(past, style)|)
  {
    hide M.FileOf, M.CuesOf, M.AllBlocks, M.ClusterFile, BlocksOf, IsValid;
    var i := Playback.CueOwner(past, t, style.scale, c);
    var q := past[i];
    M.CueMeaning(q.frames, q.position, t, style.scale);
    M.ClusterAt(past, style, first, i);
    BlocksInFile(q, style);
    FramesCounted(q.frames, q.timecode, style.scale);
    var k := c.blockNumber - 1;
    Playback.FrameIsBlock(past, i, k);
    M.Smaller(q.frames[k].timestamp, style.scale);
    assert InReach(q.frames[k], q.timecode, style.scale);
    TrackInRange(q.frames[k]);
  }

  lemma TrackInRange(f: MuxFrame)
    requires IsValid(f)
    ensures 1 <= f.track <= MAX_TRACK_NUMBER
  {
  }

  lemma BlocksInFile(q: M.Past, style: Style)
    requires style.scale > 0
    ensures |BlocksOf(q.frames, q.timecode, style.scale)| <= |M.ClusterFile(q, style)|
  {
    hide BlocksOf;
  }

  lemma {:induction false} CuesCounted(cues: seq<Cues.Cue>)
    ensures |cues| <= Cues.SumSizes(cues)
  {
    if cues != [] { CuesCounted(cues[..|cues| - 1]); }
  }

  // ----- finishing the file

  /** The cues as the objects they are when the file is finished. */
  method MakeCues(cues: seq<Cues.Cue>) returns (list: Cues.CueList)
    requires forall c :: c in cues ==> c.outputBlockNumber
    ensures fresh(list) && list.Valid() && (forall i :: 0 <= i < |list.entries| ==> fresh(list.entries[i]))
    ensures Cues.Values(list.entries) == cues
  {
    list := new Cues.CueList();
    for i := 0 to |cues|
      invariant fresh(list) && list.Valid() && list.outputBlockNumber
      invariant forall k :: 0 <= k < |list.entries| ==> fresh(list.entries[k])
      invariant Cues.Values(list.entries) == cues[..i]
    {
      var c := MakeCue(cues[i]);
      var _ := list.AddCue(c);
      assert cues[..i + 1] == cues[..i] + [cues[i]];
    }
    assert cues[..|cues|] == cues;
  }

  method MakeCue(c: Cues.Cue) returns (p: Cues.CuePoint)
    ensures fresh(p) && p.Value().(outputBlockNumber := c.outputBlockNumber) == c
  {
    p := new Cues.CuePoint();
    p.time, p.track, p.clusterPos, p.blockNumber := c.time, c.track, c.clusterPos, c.blockNumber;
  }

  /** Before the clusters there are the size field of the segment and the hole for the SeekHead. */
  ghost predicate Laid(s: M.Segment, head: SeekHeads.SeekHead, sizePosition: nat)
    reads head, head.ids, head.positions
  {
    && head.Valid() && sizePosition + 8 == s.payloadPos == head.startPos && s.payloadPos + SeekHeads.RESERVED <= s.start
  }

  /** Filling in the headers leaves the clusters and the Cues as they are. */
  lemma FilledIn(data: seq<Byte>, start: nat, file: seq<Byte>, cues: seq<Byte>, hole: nat, filled: seq<Byte>,
                 sizeAt: nat, size: seq<Byte>)
    requires start <= |data| && data[start..] == file && hole + |filled| <= start && sizeAt + |size| <= hole
    ensures var out := Splice(Splice(data + cues, hole, filled), sizeAt, size);
            && |out| == |data| + |cues| && |data| == start + |file|
            && At(out, sizeAt, size) && At(out, hole, filled) && At(out, start, file) && At(out, |data|, cues)
  {
    var a := data + cues;
    SpliceInside(a, hole, filled);
    var b := Splice(a, hole, filled);
    SpliceInside(b, sizeAt, size);
    var out := Splice(b, sizeAt, size);
    hide Splice;
    assert out[hole..hole + |filled|] == b[hole..hole + |filled|];
    assert out[start..] == a[start..];
    assert a[start..] == file + cues;
    assert out[start..start + |file|] == out[start..][..|file|];
    assert out[|data|..] == out[start..][|file|..];
  }

  ghost predicate HasFree(es: seq<SeekHeads.Entry>) {
    exists e :: e in es && e.id == 0
  }

  /** The segment that has been recorded, with its cues, as it is finished and then copied. */
  ghost predicate Matches(m: Relocation.Segment, s: M.Segment)
    reads m, m.cues, m.cues.entries, m.seekHead, m.seekHead.ids, m.seekHead.positions, s
  {
    && s.style.scale > 0 && m.payloadPos == s.payloadPos && m.clusterOffset == s.start && !m.chunking
    && m.clusterEndOffset == s.start + |M.FileOf(s.past, s.style)|
    && m.Valid() && m.CueValues() == s.cues
  }

  /** The finished file: the size of the segment, the SeekHead, the clusters and the Cues, each in its place. */
  ghost predicate Written(m: Relocation.Segment, s: M.Segment, out: seq<Byte>)
    requires m.Valid() && s.style.scale > 0
    reads m, m.cues, m.cues.entries, m.seekHead, m.seekHead.ids, m.seekHead.positions, s
  {
    var es := m.seekHead.Entries();
    && s.payloadPos <= |out| == m.clusterEndOffset + Cues.CuesSize(s.cues)
    && SeekHeads.Spare(es) >= 2 && VoidFits(SeekHeads.Spare(es))
    && At(out, m.sizePosition, EncodeSized(|out| - s.payloadPos, 8)) && At(out, s.payloadPos, SeekHeads.Filled(es))
    && At(out, s.start, M.FileOf(s.past, s.style)) && At(out, m.clusterEndOffset, Cues.EncodeCues(s.cues))
  }

  /** Every cue names a track and a cluster. */
  ghost predicate CuesSet(cues: seq<Cues.Cue>) {
    forall c :: c in cues ==> c.track >= 1 && c.clusterPos >= 1
  }

  /** Makes the entry for the Cues, which are to come next in the file. */
  method Prepare(s: M.Segment, head: SeekHeads.SeekHead, sizePosition: nat, clusterOffset: nat)
      returns (ok: bool, m: Relocation.Segment)
    requires s.FileDone() && s.outputCues && forall c :: c in s.cues ==> c.outputBlockNumber
    requires Laid(s, head, sizePosition) && clusterOffset == s.start && s.writer.Position() <= INT64_MAX
    modifies head.ids, head.positions
    ensures fresh(m) && fresh(m.cues) && (forall i :: 0 <= i < |m.cues.entries| ==> fresh(m.cues.entries[i]))
    ensures Matches(m, s) && m.seekHead == head && s.writer.Position() == m.clusterEndOffset
    ensures ok <==> old(HasFree(head.Entries()))
    ensures forall e :: e in head.Entries() ==>
              e in old(head.Entries()) || e == SeekHeads.Entry(ID_CUES, m.clusterEndOffset - s.payloadPos)
    ensures ok ==> SeekHeads.SeekPayloadSize(head.Entries()) > 0
  {
    hide *;
    FileEnds(s);
    LaidIs(s, head, sizePosition);
    EntrySigned();
    var list := MakeCues(s.cues);
    var end := s.writer.Position();
    m := new Relocation.Segment(list, head, sizePosition, s.payloadPos, clusterOffset, end, false);
    ghost var es, e := head.Entries(), SeekHeads.Entry(ID_CUES, end - s.payloadPos);
    ok := head.AddSeekEntry(ID_CUES, end - s.payloadPos);
    if ok {
      ghost var i :| 0 <= i < SeekHeads.ENTRY_COUNT && old(head.ids[i]) == 0 && head.Entries() == es[i := e];
      EntryMade(es, e, i);
    }
    MatchesMade(m, s);
    FreeIs(es);
  }

  lemma EntrySigned()
    ensures forall n: nat :: n <= INT64_MAX ==> SeekHeads.ValidEntry(SeekHeads.Entry(ID_CUES, n))
    ensures ID_CUES != 0
  {
  }

  lemma FreeIs(es: seq<SeekHeads.Entry>)
    ensures HasFree(es) <==> exists e :: e in es && e.id == 0
  {
  }

  lemma MatchesMade(m: Relocation.Segment, s: M.Segment)
    requires s.style.scale > 0 && m.payloadPos == s.payloadPos && m.clusterOffset == s.start && !m.chunking
    requires m.clusterEndOffset == s.start + |M.FileOf(s.past, s.style)|
    requires m.cues.Valid() && m.seekHead.Valid() && m.sizePosition + 8 == m.payloadPos == m.seekHead.startPos
    requires m.payloadPos + SeekHeads.RESERVED <= m.clusterOffset && Cues.Values(m.cues.entries) == s.cues
    ensures Matches(m, s)
  {
    hide M.FileOf;
  }

  lemma FileEnds(s: M.Segment)
    requires s.FileDone()
    ensures s.writer.Position() == |s.writer.Data()| == s.start + |M.FileOf(s.past, s.style)| && s.payloadPos <= s.start
    ensures s.style.scale > 0 && s.writer.Valid()
  {
    hide M.FileOf, M.PastFine;
  }

  lemma EntryMade(es: seq<SeekHeads.Entry>, e: SeekHeads.Entry, i: nat)
    requires e.id != 0 && i < |es|
    ensures SeekHeads.SeekPayloadSize(es[i := e]) > 0
    ensures forall x :: x in es[i := e] ==> x in es || x == e
  {
    Relocation.EntryCounts(es[i := e], i);
  }

  /** Writes the Cues and the SeekHead, and the size of it all. */
  method WriteTail(s: M.Segment, m: Relocation.Segment) returns (ok: bool)
    requires s.FileDone() && s.writer.seekable && s.writer.Position() <= INT64_MAX
    requires Matches(m, s) && SeekHeads.SeekPayloadSize(m.seekHead.Entries()) > 0
    modifies s.writer
    ensures s.writer.Valid()
    ensures ok ==> s.writer.Position() == m.clusterEndOffset + Cues.CuesSize(s.cues)
    ensures ok && s.writer.Position() <= INT64_MAX ==>
              && s.writer.Position() == |s.writer.Data()| && s.writer.Position() - s.payloadPos <= MAX_CODED
              && Written(m, s, s.writer.Data())
    ensures s.writer.reliable && SeekHeads.Spare(m.seekHead.Entries()) >= 2 && CuesSet(s.cues)
            && m.clusterEndOffset + Cues.CuesSize(s.cues) <= MAX_CODED ==>
              ok
  {
    hide *;
    FileEnds(s);
    FileIs(s);
    MatchesIs(m, s);
    Relocation.CuesLength(s.cues);
    Relocation.SizeBound(s.cues);
    ghost var data := s.writer.Data();
    ok := m.WriteCuesAndSeekHead(s.writer);
    if !ok { return false; }
    if s.writer.Position() - s.payloadPos < 1 { return false; }
    ghost var n := s.writer.Position() - s.payloadPos;
    ok := m.PatchSize(s.writer);
    if ok && s.writer.Position() <= INT64_MAX {
      Relocation.EightBytes(n);
      SignedFits();
      FilledIn(data, s.start, M.FileOf(s.past, s.style), Cues.EncodeCues(s.cues), s.payloadPos,
               SeekHeads.Filled(m.seekHead.Entries()), m.sizePosition, EncodeSized(n, 8));
      WrittenIs(m, s, s.writer.Data());
    }
  }

  lemma WrittenIs(m: Relocation.Segment, s: M.Segment, out: seq<Byte>)
    requires m.Valid() && s.style.scale > 0 && s.payloadPos <= |out| == m.clusterEndOffset + Cues.CuesSize(s.cues)
    requires var es := m.seekHead.Entries(); SeekHeads.Spare(es) >= 2 && VoidFits(SeekHeads.Spare(es))
    requires At(out, m.sizePosition, EncodeSized(|out| - s.payloadPos, 8))
    requires At(out, s.payloadPos, SeekHeads.Filled(m.seekHead.Entries()))
    requires At(out, s.start, M.FileOf(s.past, s.style)) && At(out, m.clusterEndOffset, Cues.EncodeCues(s.cues))
    ensures Written(m, s, out)
  {
  }

  lemma SignedFits()
    ensures INT64_MAX < UINT64_LIMIT && SeekHeads.RESERVED >= 0
  {
  }

  lemma FileIs(s: M.Segment)
    requires s.FileDone()
    ensures s.writer.Valid() && s.start <= |s.writer.Data()| && s.writer.Data()[s.start..] == M.FileOf(s.past, s.style)
  {
    hide M.FileOf, M.PastFine;
  }

  lemma MatchesIs(m: Relocation.Segment, s: M.Segment)
    requires Matches(m, s)
    ensures m.sizePosition + 8 == s.payloadPos == m.payloadPos && m.Valid() && m.seekHead.Valid()
    ensures s.payloadPos + SeekHeads.RESERVED <= s.start == m.clusterOffset
    ensures s.style.scale > 0 && m.clusterEndOffset == s.start + |M.FileOf(s.past, s.style)| && !m.chunking
    ensures m.CueValues() == s.cues && (CuesSet(s.cues) ==> m.cues.AllSet())
  {
    hide M.FileOf;
    if CuesSet(s.cues) { AllSetIs(m); }
  }

  // ----- the whole way

  /** The file as it is before it is copied. */
  ghost predicate Ready(m: Relocation.Segment, s: M.Segment, src: seq<Byte>)
    reads m, m.cues, m.cues.entries, m.seekHead, m.seekHead.ids, m.seekHead.positions, s
  {
    && Matches(m, s) && Written(m, s, src) && |src| <= INT64_MAX && |src| - s.payloadPos <= MAX_CODED
    && forall e :: e in m.seekHead.Entries() ==> e.pos <= INT64_MAX
  }

  lemma RoomIs(m: Relocation.Segment, s: M.Segment, src: seq<Byte>)
    requires Ready(m, s, src)
    ensures m.Valid() && m.Room() && m.CueValues() == s.cues && |s.cues| <= MAX_CODED
    ensures m.seekHead.Valid() && m.seekHead.Entries() != []
    ensures m.payloadPos == s.payloadPos && m.clusterOffset == s.start <= m.clusterEndOffset <= |src| && !m.chunking
    ensures s.style.scale > 0 && m.clusterEndOffset == s.start + |M.FileOf(s.past, s.style)|
    ensures At(src, s.start, M.FileOf(s.past, s.style))
    ensures s.start - s.payloadPos + |M.FileOf(s.past, s.style)| <= MAX_CODED
  {
    hide M.FileOf, At, Cues.SumSizes;
    Relocation.SizeBound(s.cues);
    CuesCounted(s.cues);
  }

  /** However far the Cues move the clusters, the cues can be read. */
  lemma MovedFit(cues: seq<Cues.Cue>, first: int, size: nat, after: seq<Cues.Cue>)
    requires first >= 0 && first + size <= MAX_CODED && |cues| <= MAX_CODED
    requires forall c :: c in cues ==> FitsIn(c, first, size)
    requires after == Cues.MoveAll(cues, Cues.CuesSize(after))
    ensures Cues.CuesSize(after) <= 45 * |cues| + 12
    ensures forall j :: 0 <= j < |after| ==> R.Fits(after[j])
    ensures first > 0 ==> CuesSet(after)
  {
    hide Cues.CuesSize;
    Relocation.SizeBound(after);
    forall j | 0 <= j < |after| ensures R.Fits(after[j]) && (first > 0 ==> after[j].clusterPos >= 1) {
      assert cues[j] in cues && after[j] == Cues.Move(cues[j], Cues.CuesSize(after));
    }
  }

  /** More than a file takes, and far less than sizes and positions can say. */
  const TERABYTE: nat := 0x100_0000_0000

  ghost predicate Small(s: M.Segment)
    requires s.style.scale > 0
    reads s
  {
    s.start + |M.FileOf(s.past, s.style)| + Cues.CuesSize(s.cues) < TERABYTE
  }

  ghost predicate SmallPositions(es: seq<SeekHeads.Entry>) {
    forall e :: e in es ==> e.pos < TERABYTE
  }

  /** What is small goes through: positions have room, and the sizes can be coded. */
  lemma SmallFits(m: Relocation.Segment, s: M.Segment, before: seq<SeekHeads.Entry>)
    requires Matches(m, s) && Small(s) && SmallPositions(before)
    requires forall e :: e in m.seekHead.Entries() ==> e in before || e.pos == m.clusterEndOffset - s.payloadPos
    ensures SmallPositions(m.seekHead.Entries()) && SeekHeads.Spare(m.seekHead.Entries()) >= 2
    ensures m.clusterEndOffset + Cues.CuesSize(s.cues) <= MAX_CODED && MAX_CODED <= INT64_MAX
  {
    hide M.FileOf, Cues.CuesSize, SeekHeads.Spare;
    SeekHeads.SpareSmall(m.seekHead.Entries());
  }

  /** And it still does after the clusters have been moved. */
  lemma MovedFits(m: Relocation.Segment, s: M.Segment, before: seq<SeekHeads.Entry>)
    requires s.style.scale > 0 && Small(s) && SmallPositions(before) && before != []
    requires m.Valid() && m.clusterEndOffset == s.start + |M.FileOf(s.past, s.style)| && CuesSet(m.CueValues())
    requires Cues.CuesSize(m.CueValues()) <= 45 * |s.cues| + 12
    requires m.seekHead.Entries() == Relocation.MoveEntries(before, Cues.CuesSize(m.CueValues()))
    ensures m.Complete()
  {
    hide M.FileOf, Cues.CuesSize, SeekHeads.Spare, Cues.SumSizes, Relocation.LastIndex;
    Relocation.SizeBound(s.cues);
    CuesCounted(s.cues);
    SeekHeads.SpareSmall(m.seekHead.Entries());
    AllSetIs(m);
  }

  lemma AllSetIs(m: Relocation.Segment)
    requires CuesSet(m.CueValues())
    ensures m.cues.AllSet()
  {
    forall e | e in m.cues.entries ensures e.track >= 1 && e.clusterPos >= 1 {
      var i :| 0 <= i < |m.cues.entries| && m.cues.entries[i] == e;
      assert m.CueValues()[i] == e.Value() && m.CueValues()[i] in m.CueValues();
    }
  }

  lemma CuesFit(s: M.Segment, input: seq<MuxFrame>)
    requires Playback.Recorded(s, input)
    ensures forall c :: c in s.cues ==>
              FitsIn(c, s.start - s.payloadPos, |M.FileOf(s.past, s.style)|) && c.outputBlockNumber
    ensures s.payloadPos < s.start ==> CuesSet(s.cues)
  {
    hide M.FileOf, M.AllBlocks, M.CuesOf, M.PastFine, Playback.Readable;
    forall f | f in M.AllBlocks(s.past) ensures f.timestamp <= INT64_MAX {
      var i :| 0 <= i < |s.accepted| && s.accepted[i] == f;
      assert InRange(input[i]);
    }
    forall c | c in s.cues ensures FitsIn(c, s.start - s.payloadPos, |M.FileOf(s.past, s.style)|) {
      CueFits(s.past, s.cuesTrack, s.style, s.start - s.payloadPos, c);
    }
  }

  /** Where the recorded segment stands in the finished file and what its cues are once they have been moved. */
  lemma FinishesIs(m: Relocation.Segment, s: M.Segment, src: seq<Byte>, input: seq<MuxFrame>)
    requires Playback.Recorded(s, input) && m.Valid() && |s.cues| <= MAX_CODED
    requires m.payloadPos == s.payloadPos && m.clusterOffset == s.start <= m.clusterEndOffset <= |src|
    requires m.clusterEndOffset == s.start + |M.FileOf(s.past, s.style)| && At(src, s.start, M.FileOf(s.past, s.style))
    requires s.start - s.payloadPos + |M.FileOf(s.past, s.style)| <= MAX_CODED
    requires m.CueValues() == Cues.MoveAll(s.cues, Cues.CuesSize(m.CueValues()))
    ensures Cues.SumSizes(m.CueValues()) <= MAX_CODED ==> Playback.Finishes(m, s, src)
    ensures Cues.CuesSize(m.CueValues()) <= 45 * |s.cues| + 12 && CuesSet(m.CueValues())
  {
    hide M.FileOf, M.PastFine, At, Cues.CuesSize, Cues.SumSizes, M.CuesOf, M.AllBlocks, Playback.Readable;
    CuesFit(s, input);
    MovedFit(s.cues, s.start - s.payloadPos, |M.FileOf(s.past, s.style)|, m.CueValues());
  }

  lemma Begins(s: M.Segment)
    requires s.Valid() && s.Now() == EMPTY
    ensures s.cluster == null && s.writer.Position() == s.start
    ensures s.style.seekable == s.writer.seekable && s.style.scale > 0
  {
  }

  lemma LaidIs(s: M.Segment, head: SeekHeads.SeekHead, sizePosition: nat)
    requires Laid(s, head, sizePosition)
    ensures head.Valid() && s.payloadPos < s.start
    ensures sizePosition + 8 == s.payloadPos == head.startPos && s.payloadPos + SeekHeads.RESERVED <= s.start
  {
  }

  lemma SmallSigned(s: M.Segment)
    requires s.style.scale > 0 && Small(s)
    ensures s.start + |M.FileOf(s.past, s.style)| <= INT64_MAX
  {
    hide M.FileOf, Cues.CuesSize;
  }

  lemma RecordedIs(s: M.Segment, input: seq<MuxFrame>)
    requires s.FileDone() && s.style.seekable && s.outputCues && s.cues == M.CuesOf(s.past, s.cuesTrack, s.style.scale)
    requires M.AllBlocks(s.past) == s.accepted && |s.accepted| == |input|
    requires forall i :: 0 <= i < |input| ==> SameButReference(s.accepted[i], input[i])
    requires forall i :: 0 <= i < |input| ==> Playback.Readable(input[i], s.style.scale) && InRange(input[i])
    ensures Playback.Recorded(s, input)
  {
    hide M.FileOf, M.PastFine, M.AllBlocks, M.CuesOf, Playback.Readable;
  }

  lemma ReadyIs(m: Relocation.Segment, s: M.Segment, src: seq<Byte>)
    requires Matches(m, s) && Written(m, s, src) && |src| <= INT64_MAX && |src| - s.payloadPos <= MAX_CODED
    requires forall e :: e in m.seekHead.Entries() ==> e.pos <= INT64_MAX
    ensures Ready(m, s, src)
  {
  }

  /** The whole of a recording: the clusters, and then the Cues, the SeekHead and the size.  A position in a file is a
      signed number of 64 bits. */
  method Produce(s: M.Segment, input: seq<MuxFrame>, head: SeekHeads.SeekHead, sizePosition: nat)
      returns (ok: bool, m: Relocation.Segment?)
    requires s.Valid() && s.accepted == [] && s.Now() == EMPTY && s.outputCues && s.writer.seekable
    requires s.style.scale > 0 && forall i :: 0 <= i < |input| ==>
               InRange(input[i]) && Playback.Readable(input[i], s.style.scale)
    requires Laid(s, head, sizePosition) && forall e :: e in head.Entries() ==> e.pos <= INT64_MAX
    modifies s, s.writer, s.cluster, head.ids, head.positions
    ensures ok ==> Playback.Recorded(s, input) && s.writer.Valid()
    ensures ok ==> m != null && fresh(m) && fresh(m.cues) && m.seekHead == head
    ensures ok ==> forall i :: 0 <= i < |m.cues.entries| ==> fresh(m.cues.entries[i])
    ensures ok && (!Queues(s.cuesTrack, s.Given()) || M.TrackOrdered(input, s.cuesTrack)) ==> M.TimesInOrder(s.cues)
    ensures ok ==> Ready(m, s, s.writer.Data())
    ensures ok && old(SmallPositions(head.Entries())) && Small(s) ==> SmallPositions(m.seekHead.Entries())
    ensures s.writer.reliable && Records(input, s.Given())
            && old(HasFree(head.Entries()) && SmallPositions(head.Entries())) && Small(s) ==>
              ok
  {
    hide *;
    m := null;
    Begins(s);
    LaidIs(s, head, sizePosition);
    ghost var es := head.Entries();
    var clusterOffset := s.writer.Position();
    ok := s.Record(input);
    if !ok { return; }
    FileEnds(s);
    SignedFits();
    if Small(s) { SmallSigned(s); }
    if s.writer.Position() > INT64_MAX { return false, m; }
    RecordedIs(s, input);
    CuesFit(s, input);
    ok, m := Prepare(s, head, sizePosition, clusterOffset);
    if !ok { return; }
    if SmallPositions(es) && Small(s) { SmallFits(m, s, es); }
    ok := WriteTail(s, m);
    if !ok || s.writer.Position() > INT64_MAX { return false, m; }
    ReadyIs(m, s, s.writer.Data());
  }

  /** The copy of a finished file with the Cues in front: it plays unless the writer has refused a piece. */
  method MoveAndCopy(m: Relocation.Segment, s: M.Segment, input: seq<MuxFrame>, src: seq<Byte>, w: Writer)
      returns (ok: bool, ghost log: seq<int>, ghost more: seq<int>)
    requires Playback.Recorded(s, input) && Ready(m, s, src)
    requires w.Valid() && w.Data() == [] && w.Position() == 0
    modifies m.cues.entries`clusterPos, m.seekHead.ids, m.seekHead.positions, w
    ensures ok ==> m.CueValues() == Cues.MoveAll(s.cues, Cues.CuesSize(m.CueValues()))
                   && Cues.IsRelocation(s.cues, Cues.CuesSize(m.CueValues())) && w.Valid()
    ensures ok && Relocation.Intact(log) && Relocation.Intact(more) ==>
              forall types :: Playback.CopyPlays(s, w.Data(), m.CueValues(), types)
    ensures w.reliable ==> Relocation.Intact(log) && Relocation.Intact(more)
    ensures w.reliable && w.seekable && old(SmallPositions(m.seekHead.Entries())) && Small(s) ==> ok
  {
    hide *;
    RoomIs(m, s, src);
    ghost var es := m.seekHead.Entries();
    ok, log, more := m.CopyAndMoveCuesBeforeClusters(src, w);
    if w.seekable {
      FinishesIs(m, s, src, input);
      if SmallPositions(es) && Small(s) { MovedFits(m, s, es); }
    }
    if !ok { return; }
    CopiedIs(m, src, w, log, more);
    if Relocation.Intact(log) && Relocation.Intact(more) {
      forall types ensures Playback.CopyPlays(s, w.Data(), m.CueValues(), types) {
        Playback.RecordedCopyPlays(s, input, m, src, w, types);
      }
    }
  }

  lemma CopiedIs(m: Relocation.Segment, src: seq<Byte>, w: Writer, log: seq<int>, more: seq<int>)
    requires m.Valid() && m.CopyIs(src, w, log, more)
    ensures w.Valid()
  {
  }

  /** From frames to the finished file and to its copy with the Cues in front: what is read of the copy are the frames
      that were given.  With sound writers and a free seek entry nothing can fail that fits a terabyte. */
  method RecordAndMove(s: M.Segment, input: seq<MuxFrame>, head: SeekHeads.SeekHead, sizePosition: nat, w: Writer)
      returns (ok: bool, ghost after: seq<Cues.Cue>, ghost log: seq<int>, ghost more: seq<int>)
    requires s.Valid() && s.accepted == [] && s.Now() == EMPTY && s.outputCues && s.writer.seekable
    requires s.style.scale > 0 && |input| > 0 && forall i :: 0 <= i < |input| ==>
               InRange(input[i]) && Playback.Readable(input[i], s.style.scale)
    requires Laid(s, head, sizePosition) && forall e :: e in head.Entries() ==> e.pos <= INT64_MAX
    requires w != s.writer && w.Valid() && w.Data() == [] && w.Position() == 0
    modifies s, s.writer, s.cluster, head.ids, head.positions, w
    ensures ok ==> Playback.Recorded(s, input) && w.Valid()
    ensures ok ==>
              after == Cues.MoveAll(s.cues, Cues.CuesSize(after)) && Cues.IsRelocation(s.cues, Cues.CuesSize(after))
    ensures ok && (!Queues(s.cuesTrack, s.Given()) || M.TrackOrdered(input, s.cuesTrack)) ==> M.TimesInOrder(s.cues)
    ensures ok && Relocation.Intact(log) && Relocation.Intact(more) ==>
              forall types :: Playback.CopyPlays(s, w.Data(), after, types)
    ensures w.reliable ==> Relocation.Intact(log) && Relocation.Intact(more)
    ensures s.writer.reliable && w.reliable && w.seekable && Records(input, s.Given())
            && old(HasFree(head.Entries()) && SmallPositions(head.Entries())) && Small(s) ==>
              ok
  {
    hide *;
    after, log, more := [], [], [];
    Relocation.NoneRefused();
    var m;
    ok, m := Produce(s, input, head, sizePosition);
    if !ok { return; }
    ok, log, more := MoveAndCopy(m, s, input, s.writer.Data(), w);
    after := m.CueValues();
  }
}
