/** The muxer's segment while frames are added (libwebm/mkvmuxer/mkvmuxer.cc, class `Segment`): where clusters
    begin, which frames wait in the queue, and what the cues point at.  Clusters write frames at once
    (`accurate_cluster_duration_` is off) and go to one file (no chunking); the segment's header is written. */
module SegmentMux {
  import opened Bytes
  import opened Ebml
  import opened EbmlReader
  import opened EbmlWriter
  import opened Blocks
  import opened Clusters
  import opened HoldBack
  import opened Planning
  import B = Boundaries
  import Cues

  type Cue = Cues.Cue

  // ----- clusters that are complete

  /** A complete cluster: its frames, its timecode, and its place counted from the segment's payload. */
  datatype Past = Past(frames: seq<MuxFrame>, timecode: nat, position: nat)

  /** The frames of the complete clusters. */
  function Groups(past: seq<Past>): seq<Group> {
    if |past| == 0 then []
    else Groups(past[..|past| - 1]) + [Group(past[|past| - 1].frames, past[|past| - 1].timecode)]
  }

  lemma GroupsMore(past: seq<Past>, p: Past)
    ensures Groups(past + [p]) == Groups(past) + [Group(p.frames, p.timecode)]
  {
    assert (past + [p])[..|past|] == past;
  }

  function ClusterFile(p: Past, style: Style): seq<Byte>
    requires style.scale > 0
  {
    var body := ClusterBody(p.frames, p.timecode, style.fixedSize, style.scale);
    EncodeId(ID_CLUSTER) + (if style.seekable then EncodeSized(|body|, 8) else BigEndian(0x01FF_FFFF_FFFF_FFFF, 8))
        + body
  }

  function FileOf(past: seq<Past>, style: Style): seq<Byte>
    requires style.scale > 0
  {
    if |past| == 0 then [] else FileOf(past[..|past| - 1], style) + ClusterFile(past[|past| - 1], style)
  }

  function AllBlocks(past: seq<Past>): seq<MuxFrame> {
    if |past| == 0 then [] else AllBlocks(past[..|past| - 1]) + past[|past| - 1].frames
  }

  /** The index of the first frame of a track, or the number of frames. */
  function FirstOf(frames: seq<MuxFrame>, t: nat): (k: nat)
    ensures k <= |frames|
    ensures forall i :: 0 <= i < k ==> frames[i].track != t
    ensures k < |frames| ==> frames[k].track == t
  {
    if |frames| == 0 then 0
    else
      var k := FirstOf(frames[..|frames| - 1], t);
      if k < |frames| - 1 || frames[|frames| - 1].track == t then k else |frames|
  }

  /** The cue of a cluster, if it has a block of the cue track: it points at the first such block. */
  function CueOf(frames: seq<MuxFrame>, position: nat, t: nat, scale: nat): seq<Cue>
    requires scale > 0
  {
    var k := FirstOf(frames, t);
    if k < |frames| then [Cues.Cue(frames[k].timestamp / scale, t, position, k + 1, true)] else []
  }

  function CuesOf(past: seq<Past>, t: nat, scale: nat): seq<Cue>
    requires scale > 0
  {
    if |past| == 0 then []
    else CuesOf(past[..|past| - 1], t, scale) + CueOf(past[|past| - 1].frames, past[|past| - 1].position, t, scale)
  }

  /** A cluster that can be read again: it has blocks, all within its reach, and a size that could be written. */
  ghost predicate Sealed(p: Past, style: Style)
    requires style.scale > 0
  {
    Sealable(Group(p.frames, p.timecode), style) && p.timecode <= INT64_MAX
  }

  /** Every cluster can be read again, every block is within reach of its cluster, and every cluster stands where the
      ones before it end. */
  ghost predicate PastFine(past: seq<Past>, style: Style, first: nat)
    requires style.scale > 0
  {
    forall i :: 0 <= i < |past| ==>
      && Sealed(past[i], style)
      && past[i].position == first + |FileOf(past[..i], style)|
  }

  lemma PastMore(past: seq<Past>, p: Past, style: Style, first: nat, t: nat)
    requires style.scale > 0 && PastFine(past, style, first)
    requires Sealed(p, style) && p.position == first + |FileOf(past, style)|
    ensures PastFine(past + [p], style, first)
    ensures FileOf(past + [p], style) == FileOf(past, style) + ClusterFile(p, style)
    ensures AllBlocks(past + [p]) == AllBlocks(past) + p.frames
    ensures CuesOf(past + [p], t, style.scale)
            == CuesOf(past, t, style.scale) + CueOf(p.frames, p.position, t, style.scale)
  {
    hide ClusterFile, CueOf, AllInReach;
    assert (past + [p])[..|past|] == past;
    forall i | 0 <= i < |past| + 1 ensures (past + [p])[..i] == if i < |past| then past[..i] else past { }
  }

  /** One more frame makes a cue exactly when it is the first of the cue track. */
  lemma CueMore(frames: seq<MuxFrame>, f: MuxFrame, position: nat, t: nat, scale: nat)
    requires scale > 0
    ensures CueOf(frames + [f], position, t, scale) ==
            if FirstOf(frames, t) == |frames| &&
                f.track == t then [Cues.Cue(f.timestamp / scale, t, position, |frames| + 1, true)]
            else CueOf(frames, position, t, scale)
    ensures FirstOf(frames + [f], t) == |frames| + 1 <==> FirstOf(frames, t) == |frames| && f.track != t
  {
    assert (frames + [f])[..|frames|] == frames;
  }

  /** A cluster has at most one cue, and has one exactly when it has a block of the cue track: the cue gives the
      time of the first such block and its number in the cluster, counted from 1. */
  lemma CueMeaning(frames: seq<MuxFrame>, position: nat, t: nat, scale: nat)
    requires scale > 0
    ensures |CueOf(frames, position, t, scale)| <= 1
    ensures |CueOf(frames, position, t, scale)| == 1 <==> exists i :: 0 <= i < |frames| && frames[i].track == t
    ensures forall c :: c in CueOf(frames, position, t, scale) ==>
              && 1 <= c.blockNumber <= |frames| && frames[c.blockNumber - 1].track == t == c.track
              && c.time == frames[c.blockNumber - 1].timestamp / scale && c.clusterPos == position
              && forall i :: 0 <= i < c.blockNumber - 1 ==> frames[i].track != t
  {
    var k := FirstOf(frames, t);
    if k < |frames| { assert frames[k].track == t; }
  }

  /** Every complete cluster stands in the file where its position says. */
  lemma ClusterAt(past: seq<Past>, style: Style, first: nat, i: nat)
    requires style.scale > 0 && PastFine(past, style, first) && i < |past|
    ensures past[i].position >= first
    ensures At(FileOf(past, style), past[i].position - first, ClusterFile(past[i], style))
  {
    hide FileOf, ClusterFile, AllInReach, At;
    ClusterInFile(past, style, i);
  }

  lemma {:induction false} ClusterInFile(past: seq<Past>, style: Style, i: nat)
    requires style.scale > 0 && i < |past|
    ensures At(FileOf(past, style), |FileOf(past[..i], style)|, ClusterFile(past[i], style))
    decreases |past|
  {
    hide ClusterFile, At;
    var n := |past| - 1;
    assert FileOf(past, style) == FileOf(past[..n], style) + ClusterFile(past[n], style);
    hide FileOf;
    if i < n {
      assert past[..n][..i] == past[..i];
      ClusterInFile(past[..n], style, i);
      Further(FileOf(past[..n], style), ClusterFile(past[n], style), |FileOf(past[..i], style)|,
              ClusterFile(past[i], style));
    } else {
      AtItsEnd(FileOf(past[..n], style), ClusterFile(past[n], style));
    }
  }

  lemma AtItsEnd(data: seq<Byte>, bs: seq<Byte>)
    ensures At(data + bs, |data|, bs)
  {
  }

  lemma Further(data: seq<Byte>, more: seq<Byte>, p: int, bs: seq<Byte>)
    requires At(data, p, bs)
    ensures At(data + more, p, bs)
  {
  }

  /** The cues are those of all clusters, and one is still to come when the last cluster has none. */
  ghost predicate CuesFine(outputCues: bool, t: nat, scale: nat, past: seq<Past>, written: seq<MuxFrame>, position: int,
                           cues: seq<Cue>, newCuepoint: bool)
    requires scale > 0
  {
    && position >= 0
    && cues == (if outputCues then CuesOf(past, t, scale) + CueOf(written, position, t, scale) else [])
    && (newCuepoint <==> outputCues && FirstOf(written, t) == |written|)
  }

  /** The cue that is due is made of the frame just written. */
  lemma CuesStayFine(outputCues: bool, t: nat, scale: nat, past: seq<Past>, written: seq<MuxFrame>, position: int,
                     cues: seq<Cue>, newCuepoint: bool, f: MuxFrame)
    requires scale > 0 && CuesFine(outputCues, t, scale, past, written, position, cues, newCuepoint)
    ensures position >= 0
    ensures if newCuepoint && t == f.track
            then CuesFine(outputCues, t, scale, past, written + [f], position,
                          cues + [Cues.Cue(f.timestamp / scale, t, position, |written| + 1, true)], false)
            else CuesFine(outputCues, t, scale, past, written + [f], position, cues, newCuepoint)
  {
    CueMore(written, f, position, t, scale);
    NoCueYet(written, position, t, scale);
    hide CuesOf, CueOf, FirstOf;
  }

  lemma NoCueYet(frames: seq<MuxFrame>, position: nat, t: nat, scale: nat)
    requires scale > 0
    ensures FirstOf(frames, t) == |frames| ==> CueOf(frames, position, t, scale) == []
  {
  }

  // ----- the order of cues

  /** The frames of a track come in the order of time. */
  ghost predicate TrackOrdered(frames: seq<MuxFrame>, t: nat) {
    forall i, j :: 0 <= i < j < |frames| && frames[i].track == t == frames[j].track ==>
        frames[i].timestamp <= frames[j].timestamp
  }

  /** And none is later than `last`. */
  ghost predicate TrackNotBack(frames: seq<MuxFrame>, t: nat, last: nat) {
    && TrackOrdered(frames, t)
    && (forall i :: 0 <= i < |frames| && frames[i].track == t ==> frames[i].timestamp <= last)
  }

  lemma OrderMore(before: seq<MuxFrame>, after: seq<MuxFrame>, f: MuxFrame, t: nat, was: nat, now: nat)
    requires TrackNotBack(before, t, was) && |after| == |before| + 1 && before <= after
    requires after[|before|].track == f.track && after[|before|].timestamp == f.timestamp && was <= now
    requires f.track == t ==> was <= f.timestamp <= now
    ensures TrackNotBack(after, t, now)
  {
    forall i | 0 <= i < |before| ensures after[i] == before[i] { }
  }

  ghost predicate TimesInOrder(cues: seq<Cue>) {
    forall i, j :: 0 <= i < j < |cues| ==> cues[i].time <= cues[j].time
  }

  lemma TimesMore(cues: seq<Cue>, more: seq<Cue>)
    requires TimesInOrder(cues) && |more| <= 1 && forall c, d :: c in cues && d in more ==> c.time <= d.time
    ensures TimesInOrder(cues + more)
  {
  }

  /** Every cue is made of a block of its track. */
  lemma {:induction false} CueHasBlock(past: seq<Past>, t: nat, scale: nat, c: Cue) returns (k: nat)
    requires scale > 0 && c in CuesOf(past, t, scale)
    ensures k < |AllBlocks(past)| && AllBlocks(past)[k].track == t && c.time == AllBlocks(past)[k].timestamp / scale
  {
    var n := |past| - 1;
    if c in CuesOf(past[..n], t, scale) {
      k := CueHasBlock(past[..n], t, scale, c);
    } else {
      CueMeaning(past[n].frames, past[n].position, t, scale);
      k := |AllBlocks(past[..n])| + (c.blockNumber - 1);
    }
  }

  /** When the blocks of the cue track come in the order of time, so do the cues. */
  lemma {:induction false} CuesInOrder(past: seq<Past>, t: nat, scale: nat)
    requires scale > 0 && TrackOrdered(AllBlocks(past), t)
    ensures TimesInOrder(CuesOf(past, t, scale))
  {
    if past != [] {
      var n := |past| - 1;
      var before, frames := AllBlocks(past[..n]), past[n].frames;
      assert AllBlocks(past) == before + frames;
      FirstPart(before, frames, t);
      CuesInOrder(past[..n], t, scale);
      var cues, more := CuesOf(past[..n], t, scale), CueOf(frames, past[n].position, t, scale);
      CueMeaning(frames, past[n].position, t, scale);
      forall c, d | c in cues && d in more ensures c.time <= d.time {
        var k := CueHasBlock(past[..n], t, scale, c);
        var m := |before| + (d.blockNumber - 1);
        assert (before + frames)[k] == before[k] && (before + frames)[m] == frames[d.blockNumber - 1];
        DividedInOrder(before[k].timestamp, frames[d.blockNumber - 1].timestamp, scale);
      }
      TimesMore(cues, more);
    }
  }

  /** The times of the first blocks of a track in a plan's clusters. */
  function CueTimes(groups: seq<Group>, t: nat, scale: nat): seq<nat>
    requires scale > 0
  {
    if |groups| == 0 then []
    else
      var frames := groups[|groups| - 1].frames;
      var k := FirstOf(frames, t);
      CueTimes(groups[..|groups| - 1], t, scale) + if k < |frames| then [frames[k].timestamp / scale] else []
  }

  predicate Ascending(times: seq<nat>) {
    forall i, j :: 0 <= i < j < |times| ==> times[i] <= times[j]
  }

  /** They are the times of the cues, so the plan decides whether the cues come in the order of time. */
  lemma {:induction false} CueTimesAre(past: seq<Past>, t: nat, scale: nat)
    requires scale > 0
    ensures var cues, times := CuesOf(past, t, scale), CueTimes(Groups(past), t, scale);
            && |cues| == |times| && (forall i :: 0 <= i < |cues| ==> cues[i].time == times[i])
            && (TimesInOrder(cues) <==> Ascending(times))
  {
    if |past| > 0 {
      var n := |past| - 1;
      CueTimesAre(past[..n], t, scale);
      assert Groups(past)[..|Groups(past)| - 1] == Groups(past[..n]);
    }
  }

  lemma FirstPart(a: seq<MuxFrame>, b: seq<MuxFrame>, t: nat)
    requires TrackOrdered(a + b, t)
    ensures TrackOrdered(a, t)
  {
    forall i | 0 <= i < |a| ensures (a + b)[i] == a[i] { }
  }

  lemma DividedInOrder(a: nat, b: nat, d: nat)
    requires a <= b && d > 0
    ensures a / d <= b / d
  {
    if a / d > b / d { Monotone(b / d + 1, a / d, d); }
  }

  // ----- the segment

  class Segment {
    const style: Style
    const outputCues: bool
    const maxClusterDuration: nat
    const maxClusterSize: nat
    const hasVideo: bool
    const tracks: map<nat, Kind>
    const cuesTrack: nat
    const payloadPos: nat
    const writer: Writer
    /** The last cluster, the only one that is ever looked at, and how many there are. */
    var cluster: Cluster?
    var clusterCount: nat
    /** The queue of audio frames. */
    var frames: seq<MuxFrame>
    var cues: seq<Cue>
    var lastTimestamp: nat
    var lastTrackTimestamp: map<nat, nat>
    var forceNewCluster: bool
    var newCuepoint: bool
    /** The clusters before the last one, the frames accepted, and where the first cluster begins. */
    ghost var past: seq<Past>
    ghost var accepted: seq<MuxFrame>
    ghost const start: nat

    constructor (style: Style, outputCues: bool, maxClusterDuration: nat, maxClusterSize: nat, hasVideo: bool,
                 tracks: map<nat, Kind>, cuesTrack: nat, payloadPos: nat, writer: Writer)
      requires style.scale > 0 && writer.Valid() && AtEnd(writer) && payloadPos <= writer.Position()
      requires style.seekable == writer.seekable
      ensures Valid() && accepted == [] && this.writer == writer && cluster == null
    {
      this.style, this.outputCues, this.maxClusterDuration, this.maxClusterSize := style, outputCues,
          maxClusterDuration, maxClusterSize;
      this.hasVideo, this.tracks, this.cuesTrack, this.payloadPos, this.writer := hasVideo, tracks, cuesTrack,
          payloadPos, writer;
      cluster, clusterCount, frames, cues := null, 0, [], [];
      lastTimestamp, lastTrackTimestamp, forceNewCluster, newCuepoint := 0, map[], false, false;
      past, accepted, start := [], [], writer.Position();
    }

    /** The frames written to the last cluster. */
    ghost function Current(): seq<MuxFrame>
      reads `cluster, cluster
    {
      if cluster == null then [] else cluster.written
    }

    /** The last cluster is open; the file holds the clusters before it, each with its size, and then what
        there is of it; the cues are those of the first block of the cue track in each cluster; and a cue is
        still to come exactly when the last cluster has no such block yet. */
    ghost predicate Sound()
      reads `cluster, `clusterCount, `cues, `newCuepoint, `past, cluster, writer
    {
      && style.scale > 0 && writer.Valid() && AtEnd(writer) && payloadPos <= start && style.seekable == writer.seekable
      && PastFine(past, style, start - payloadPos)
      && if cluster == null
         then past == [] && cues == [] && !newCuepoint && writer.Position() == start && clusterCount == 0
         else Open(cluster)
    }

    ghost predicate Open(c: Cluster)
      requires style.scale > 0 && writer.Valid()
      reads `clusterCount, `cues, `newCuepoint, `past, c, writer
    {
      && c.writer == writer && c.Valid() && Lists(c.stored) && c.scale == style.scale && c.fixedSize == style.fixedSize
      && !c.holdBack && !c.finalized && c.timecode <= INT64_MAX
      && (c.headerWritten ==> c.written != [])
      && start <= c.origin <= |writer.Data()| && c.positionForCues == c.origin - payloadPos
      && writer.Data()[start..c.origin] == FileOf(past, style)
      && clusterCount == |past| + 1
      && CuesFine(outputCues, cuesTrack, style.scale, past, c.written, c.positionForCues, cues, newCuepoint)
    }

    /** The blocks written so far and then the queue are the frames accepted, in that order. */
    ghost predicate Conserved(queue: seq<MuxFrame>)
      reads `cluster, cluster, `past, `accepted
    {
      AllBlocks(past) + Current() + queue == accepted
    }

    ghost predicate Valid()
      reads `cluster, `clusterCount, `cues, `newCuepoint, `past, `accepted, `frames, cluster, writer
    {
      Sound() && Conserved(frames) && forall i :: 0 <= i < |frames| ==> InRange(frames[i])
    }

    function Given(): Settings {
      Settings(style, maxClusterDuration, maxClusterSize, hasVideo, tracks)
    }

    /** The plan this segment stands for. */
    ghost function Now(): Plan
      reads `cluster, `past, `frames, `lastTimestamp, `lastTrackTimestamp, `forceNewCluster, cluster
    {
      Plan(Groups(past), Last(), frames, lastTimestamp, lastTrackTimestamp, forceNewCluster)
    }

    ghost function Last(): Option<Group>
      reads `cluster, cluster
    {
      if cluster == null then None else Some(Group(cluster.written, cluster.timecode))
    }

    /** Unless its frames may wait, the cue track has been accepted in the order of time. */
    ghost predicate CueTrackInOrder()
      reads `accepted, `lastTimestamp
    {
      Queues(cuesTrack, Given()) || TrackNotBack(accepted, cuesTrack, lastTimestamp)
    }

    /** Adds a frame to the last cluster, and the cue that is due. */
    method WriteToCluster(f: MuxFrame) returns (ok: bool)
      requires Sound() && cluster != null && InRange(f)
      modifies writer, cluster, `cues, `newCuepoint
      ensures writer.Valid()
      ensures ok ==>
                Sound() && cluster.written == old(cluster.written) + [f] && InReach(f, cluster.timecode, style.scale)
      ensures style.scale > 0 && (writer.reliable && InReach(f, cluster.timecode, style.scale) ==> ok)
    {
      hide ClusterBody, ClusterHead, PastFine, FileOf, CuesFine, AllInReach, IsValid, Fits32, Merging, Stamped;
      var c := cluster;
      ghost var data := writer.Data();
      CuesStayFine(outputCues, cuesTrack, style.scale, past, c.written, c.positionForCues, cues, newCuepoint, f);
      ok := c.QueueOrWriteFrame(f);
      if !ok { return; }
      SamePart(data, writer.Data(), start, c.origin);
      if newCuepoint && cuesTrack == f.track {
        ok := AddCuePoint(f.timestamp, cuesTrack);
      }
    }

    /** The cue points at the block last written to the last cluster; without a cluster there is none. */
    method AddCuePoint(timestamp: nat, track: nat) returns (ok: bool)
      requires style.scale > 0 && (cluster != null ==> cluster.positionForCues >= 0)
      modifies `cues, `newCuepoint
      ensures ok <==> cluster != null
      ensures !ok ==> cues == old(cues) && newCuepoint == old(newCuepoint)
      ensures ok ==> !newCuepoint
      ensures ok ==> cues == old(cues) + [Cues.Cue(timestamp / style.scale, track, cluster.positionForCues,
                                                   cluster.blocksAdded, true)]
    {
      if cluster == null { return false; }
      cues := cues + [Cues.Cue(timestamp / style.scale, track, cluster.positionForCues, cluster.blocksAdded, true)];
      newCuepoint := false;
      ok := true;
    }

    /** Writes the first frame of the queue; the rest stays. */
    method WriteNext(f: MuxFrame, ghost rest: seq<MuxFrame>) returns (ok: bool)
      requires Sound() && cluster != null && InRange(f) && Conserved([f] + rest)
      modifies writer, cluster, `cues, `newCuepoint, `lastTimestamp, `lastTrackTimestamp
      ensures writer.Valid() && (ok ==> Sound() && Conserved(rest))
      ensures ok ==> cluster.written == old(cluster.written) + [f]
      ensures ok ==> lastTimestamp == if f.timestamp > old(lastTimestamp) then f.timestamp else old(lastTimestamp)
      ensures ok ==>
                lastTrackTimestamp
                == if f.timestamp > old(lastTimestamp) then old(lastTrackTimestamp)[f.track := f.timestamp]
                    else old(lastTrackTimestamp)
      ensures style.scale > 0 && (ok ==> InReach(f, cluster.timecode, style.scale))
      ensures writer.reliable && InReach(f, cluster.timecode, style.scale) ==> ok
    {
      hide Open, PastFine, AllBlocks, InRange, AllInReach, InReach;
      OneWritten(AllBlocks(past), Current(), f, rest);
      ok := WriteToCluster(f);
      if !ok { return; }
      if f.timestamp > lastTimestamp {
        lastTimestamp := f.timestamp;
        lastTrackTimestamp := lastTrackTimestamp[f.track := f.timestamp];
      }
    }

    /** Part of a queue has been written to the last cluster, and what is remembered follows. */
    ghost predicate Passed(before: Plan, n: nat)
      requires before.open.Some? && n <= |before.queue|
      reads `cluster, `lastTimestamp, `lastTrackTimestamp, cluster
    {
      && style.scale > 0 && cluster != null
      && Last() == Some(Grown(before.open.value, before.queue[..n]))
      && lastTimestamp == LastAfter(before.last, before.queue[..n])
      && lastTrackTimestamp == LastOfAfter(before.last, before.lastOf, before.queue[..n])
      && AllInReach(before.queue[..n], cluster.timecode, style.scale)
    }

    lemma NonePassed(before: Plan)
      requires cluster != null && style.scale > 0 && before.open == Last() && before.last == lastTimestamp &&
               before.lastOf == lastTrackTimestamp
      ensures Passed(before, 0)
    {
      assert before.queue[..0] == [] && cluster.written + [] == cluster.written;
    }

    /** Writes one more frame of a queue. */
    method PassNext(ghost before: Plan, n: nat, f: MuxFrame) returns (ok: bool)
      requires Sound() && before.open.Some? && n < |before.queue| && Passed(before, n) && f == before.queue[n] &&
               InRange(f)
      requires Conserved(before.queue[n..])
      modifies writer, cluster, `cues, `newCuepoint, `lastTimestamp, `lastTrackTimestamp
      ensures writer.Valid() && (ok ==> Sound() && Conserved(before.queue[n + 1..]) && Passed(before, n + 1))
      ensures style.scale > 0 && (ok ==> InReach(f, before.open.value.timecode, style.scale))
      ensures writer.reliable && InReach(f, before.open.value.timecode, style.scale) ==> ok
    {
      hide Open, PastFine, AllBlocks, InRange, InReach, Sound, Conserved, LastAfter, LastOfAfter;
      ghost var queue := before.queue;
      assert queue[n..] == [f] + queue[n + 1..];
      assert queue[..n + 1] == queue[..n] + [f];
      LastMore(before.last, before.lastOf, queue[..n], f);
      ok := WriteNext(f, queue[n + 1..]);
      if ok { Appending(before.open.value.frames, queue[..n], f); }
    }

    lemma Appending(a: seq<MuxFrame>, b: seq<MuxFrame>, f: MuxFrame)
      ensures a + b + [f] == a + (b + [f])
    {
    }

    /** Writes the whole queue to the last cluster; answers -1 when it cannot. */
    method WriteFramesAll() returns (result: int)
      requires Valid()
      modifies `frames, `cues, `newCuepoint, `lastTimestamp, `lastTrackTimestamp, writer, cluster
      ensures writer.Valid() && style.scale > 0
      ensures result >= 0 ==> Valid() && frames == [] && result == |old(frames)|
      ensures result < 0 ==> result == -1
      ensures result >= 0 ==> old(CanFlush(Now(), Given())) && Now() == Flushed(old(Now()))
      ensures writer.reliable && old(CanFlush(Now(), Given())) ==> result >= 0
    {
      hide Open, PastFine, AllBlocks, InRange, InReach, Sound, Conserved, LastAfter, LastOfAfter, Groups;
      ScaleIs();
      ghost var before := Now();
      if |frames| == 0 {
        NothingFlushed(before);
        return 0;
      }
      if cluster == null { return -1; }
      ghost var queue := frames;
      assert queue[0..] == queue;
      NonePassed(before);
      for i := 0 to |frames|
        invariant frames == queue && Sound() && Conserved(queue[i..]) && Passed(before, i)
      {
        var ok := PassNext(before, i, frames[i]);
        if !ok { return -1; }
      }
      ScaleIs();
      result := |frames|;
      frames := [];
      assert queue[|queue|..] == [] && queue[..|queue|] == queue;
    }

    lemma ScaleIs()
      requires Sound()
      ensures style.scale > 0 && writer.Valid()
    {
    }

    lemma NothingFlushed(p: Plan)
      requires p.queue == []
      ensures Flushed(p) == p
    {
      if p.open.Some? { assert p.open.value.frames + [] == p.open.value.frames; }
    }

    /** The early part of the queue has been written to the last cluster, if there is one. */
    ghost predicate EarlyGone(before: Plan, timestamp: nat)
      reads `cluster, `past, `frames, `lastTimestamp, `lastTrackTimestamp, `forceNewCluster, cluster
    {
      var n := Moves(before, timestamp);
      && frames == before.queue[n..] && Groups(past) == before.closed
      && if cluster == null then before.open.None? && Now() == before else before.open.Some? && Passed(before, n)
    }

    /** It can be, as far as the reach of the last cluster goes. */
    ghost predicate CanPass(before: Plan, timestamp: nat)
      requires style.scale > 0
    {
      before.open.Some? ==> AllInReach(before.queue[..Moves(before, timestamp)], before.open.value.timecode,
                                       style.scale)
    }

    /** Writes the early part of the queue to the last cluster. */
    method PassEarly(timestamp: nat, ghost before: Plan) returns (ok: bool, shiftLeft: nat)
      requires Valid() && before == Now() && |frames| > 0 && cluster != null
      modifies `cues, `newCuepoint, `lastTimestamp, `lastTrackTimestamp, writer, cluster
      ensures writer.Valid() && style.scale > 0 && shiftLeft < |frames|
      ensures ok ==> Sound() && shiftLeft == Moves(before, timestamp)
      ensures ok ==> Conserved(frames[shiftLeft..]) && Passed(before, shiftLeft)
      ensures writer.reliable && CanPass(before, timestamp) ==> ok
    {
      hide Open, PastFine, AllBlocks, InRange, InReach, Sound, Conserved, LastAfter, LastOfAfter, Groups, Early;
      ScaleIs();
      assert frames[0..] == frames;
      NonePassed(before);
      shiftLeft := 0;
      var more := true;
      while shiftLeft + 1 < |frames| && more
        invariant 0 <= shiftLeft < |frames| && Sound() && Conserved(frames[shiftLeft..]) && Passed(before, shiftLeft)
        invariant forall i :: 1 <= i <= shiftLeft ==> frames[i].timestamp <= timestamp
        invariant !more ==> shiftLeft + 1 < |frames| && frames[shiftLeft + 1].timestamp > timestamp
        decreases |frames| - shiftLeft, more
      {
        if frames[shiftLeft + 1].timestamp > timestamp {
          more := false;
        } else {
          NotAllEarly(before, timestamp, shiftLeft);
          ok := PassNext(before, shiftLeft, frames[shiftLeft]);
          if !ok { return; }
          shiftLeft := shiftLeft + 1;
        }
      }
      ScaleIs();
      EarlyUnique(frames, timestamp, shiftLeft);
      ok := true;
    }

    /** Writes to the cluster that is about to be completed the early part of the queue. */
    method WriteFramesLessThan(timestamp: nat) returns (ok: bool)
      requires Valid()
      modifies `frames, `cues, `newCuepoint, `lastTimestamp, `lastTrackTimestamp, writer, cluster
      ensures writer.Valid() && style.scale > 0
      ensures ok ==> Valid() && EarlyGone(old(Now()), timestamp)
      ensures writer.reliable && CanPass(old(Now()), timestamp) ==> ok
    {
      hide *;
      NowIs();
      ghost var before := Now();
      ok := true;
      if |frames| > 0 && cluster != null {
        var shiftLeft;
        ok, shiftLeft := PassEarly(timestamp, before);
        if !ok { return; }
        DropFirst(shiftLeft, timestamp, before);
      } else {
        NoneEarly(before, timestamp);
      }
    }

    lemma NowIs()
      requires Valid()
      ensures writer.Valid() && style.scale > 0 && forall i :: 0 <= i < |frames| ==> InRange(frames[i])
      ensures Now().queue == frames && Now().closed == Groups(past) && (Now().open.Some? <==> cluster != null)
    {
      hide PastFine, Open, AllBlocks, InRange;
    }

    lemma NoneEarly(before: Plan, timestamp: nat)
      requires Valid() && before == Now() && (|frames| == 0 || cluster == null)
      ensures EarlyGone(before, timestamp)
    {
      hide Open, PastFine, AllBlocks, InRange, InReach, Conserved, LastAfter, LastOfAfter, Groups, Passed;
      if cluster != null { NonePassed(before); }
    }

    method DropFirst(n: nat, ghost timestamp: nat, ghost before: Plan)
      requires Sound() && n <= |frames| && Conserved(frames[n..])
      requires forall i :: 0 <= i < |frames| ==> InRange(frames[i])
      requires cluster != null && before.open.Some? && before.queue == frames && before.closed == Groups(past)
      requires Passed(before, n) && n == Moves(before, timestamp)
      modifies `frames
      ensures Valid() && EarlyGone(before, timestamp)
    {
      hide Open, PastFine, AllBlocks, InRange, InReach, Sound, Conserved, LastAfter, LastOfAfter, Groups, Early,
           Passed;
      frames := frames[n..];
    }

    /** Whether a frame begins a new cluster: 0 and 1 say no and yes, 2 that another test is needed, -1 that
        the frame is too early. */
    method TestFrame(track: nat, timestamp: nat, isKey: bool) returns (result: int)
      requires Sound()
      ensures style.scale > 0 && -1 <= result <= 2
      ensures result == -1 <==> !forceNewCluster && cluster != null && timestamp / style.scale < cluster.timecode
      ensures result == 2 <==>
                !forceNewCluster && cluster != null && timestamp / style.scale - cluster.timecode > MAX_BLOCK_TIMECODE
      ensures forceNewCluster || Reachable(Now(), timestamp, Given()) ==>
                (result == 1 <==> Due(Now(), track, timestamp, isKey, Given()))
    {
      hide PastFine, ClusterBody, FileOf, CuesFine, AllInReach;
      if forceNewCluster { return 1; }
      if cluster == null { return 1; }
      var frameTimecode := timestamp / style.scale;
      if frameTimecode < cluster.timecode { return -1; }
      var delta := frameTimecode - cluster.timecode;
      if delta > MAX_BLOCK_TIMECODE { return 2; }
      if isKey && track in tracks && tracks[track] == Video { return 1; }
      var deltaNs := delta * style.scale;
      if maxClusterDuration > 0 && deltaNs >= maxClusterDuration { return 1; }
      if maxClusterSize > 0 && cluster.payloadSize >= maxClusterSize { return 1; }
      result := 0;
    }

    /** Completes the last cluster; its place in the past is taken by what it held. */
    method CompleteCluster(setLast: bool, duration: nat) returns (ok: bool)
      requires Sound() && cluster != null
      modifies writer, cluster, `past
      ensures writer.Valid()
      ensures ok ==> FileDone() && AllBlocks(past) == AllBlocks(old(past)) + old(Current()) && |past| == |old(past)| + 1
      ensures ok ==> Groups(past) == Groups(old(past)) + [old(Last()).value] && Sealable(old(Last()).value, style)
      ensures style.scale > 0 && (writer.reliable && old(Sealable(Last().value, style)) ==> ok)
      ensures ok ==> cues == if outputCues then CuesOf(past, cuesTrack, style.scale) else []
      ensures old(past) <= past
    {
      hide Open, ClusterBody, PastFine, FileOf, CuesOf, CueOf, AllInReach, AllBlocks, ClusterFile, Sealable;
      ghost var data, before := writer.Data(), past;
      OpenFacts(cluster);
      ghost var p;
      ok, p := Seal(setLast, duration);
      if !ok { return; }
      ClusterJoins(before, p, style, payloadPos, cuesTrack, data, writer.Data(), start, cluster.origin);
      GroupsMore(before, p);
      past := past + [p];
    }

    lemma OpenFacts(c: Cluster)
      requires style.scale > 0 && writer.Valid() && Open(c)
      ensures start <= c.origin <= |writer.Data()| && writer.Data()[start..c.origin] == FileOf(past, style)
      ensures c.positionForCues == c.origin - payloadPos >= 0
      ensures cues == if outputCues then CuesOf(past, cuesTrack, style.scale)
              + CueOf(c.written, c.positionForCues, cuesTrack, style.scale)
                      else []
    {
      CuesSoFar(outputCues, cuesTrack, style.scale, past, c.written, c.positionForCues, cues, newCuepoint);
    }

    /** Completes the last cluster in the file. */
    method Seal(setLast: bool, duration: nat) returns (ok: bool, ghost p: Past)
      requires Sound() && cluster != null && cluster.positionForCues >= 0
      modifies writer, cluster
      ensures writer.Valid() && (ok ==> AtEnd(writer))
      ensures ok ==> cluster.origin == old(cluster.origin) <= |writer.Data()| && cluster.origin <= |old(writer.Data())|
      ensures ok ==> p == Past(old(cluster.written), cluster.timecode, cluster.positionForCues)
      ensures ok ==> writer.Data()[..cluster.origin] == old(writer.Data())[..cluster.origin]
      ensures ok ==> writer.Data()[cluster.origin..] == ClusterFile(p, style) && Sealed(p, style)
      ensures style.scale > 0 && (writer.reliable && old(Sealable(Last().value, style)) ==> ok)
    {
      hide ClusterBody, PastFine, FileOf, CuesFine, AllInReach, Merging, Stamped, ClusterFile, WrittenAs;
      var c := cluster;
      p := Past(c.written, c.timecode, c.positionForCues);
      ghost var gone;
      ok, gone := c.Finalize(setLast, duration);
      if !ok { return; }
      ClusterIsFile(c, p, style);
    }

    /** All clusters are complete and in the file, one behind the other. */
    ghost predicate FileDone()
      reads `past, writer
    {
      && style.scale > 0 && writer.Valid() && AtEnd(writer) && payloadPos <= start <= |writer.Data()|
      && style.seekable == writer.seekable && PastFine(past, style, start - payloadPos)
      && writer.Data()[start..] == FileOf(past, style)
    }

    /** What a plan is once its last cluster has been completed. */
    ghost predicate ClosedAs(before: Plan, timestamp: nat)
      reads `past, `frames, `lastTimestamp, `lastTrackTimestamp
    {
      && style.scale > 0 && CanBegin(before, timestamp, Given())
      && var b := Begun(before, timestamp, Given());
      && Groups(past) == b.closed && frames == b.queue && lastTimestamp == b.last && lastTrackTimestamp == b.lastOf
    }

    /** Completes the last cluster, with the queued frames that belong to it. */
    method CloseCurrent(timestamp: nat) returns (ok: bool)
      requires Valid()
      modifies `frames, `cues, `newCuepoint, `lastTimestamp, `lastTrackTimestamp, `past, writer, cluster
      ensures writer.Valid() && style.scale > 0
      ensures ok ==> Between() && (!outputCues ==> !newCuepoint) && clusterCount == old(clusterCount)
      ensures ok ==> ClosedAs(old(Now()), timestamp)
      ensures writer.reliable && old(CanBegin(Now(), timestamp, Given())) ==> ok
    {
      hide *;
      ghost var before := Now();
      CanPassIs(before, timestamp);
      ok := WriteFramesLessThan(timestamp);
      if !ok { return; }
      ok := Close(before, timestamp);
    }

    lemma CanPassIs(p: Plan, timestamp: nat)
      requires Valid()
      ensures style.scale > 0 && Given().style == style && (CanBegin(p, timestamp, Given()) ==> CanPass(p, timestamp))
    {
      hide Sound, Conserved, InRange, AllInReach, Sealable;
      ValidScale();
      if CanBegin(p, timestamp, Given()) { EarlyReach(p, timestamp, Given()); }
    }

    /** Completes the last cluster, if there is one, once it has the early part of the queue. */
    method Close(ghost before: Plan, timestamp: nat) returns (ok: bool)
      requires Valid() && EarlyGone(before, timestamp)
      modifies `past, writer, cluster
      ensures writer.Valid() && style.scale > 0
      ensures ok ==> Between() && (!outputCues ==> !newCuepoint) && ClosedAs(before, timestamp)
      ensures writer.reliable && CanBegin(before, timestamp, Given()) ==> ok
    {
      hide *;
      BeforeClose(before, timestamp);
      CountIs();
      if cluster != null {
        ok := CompleteCluster(true, timestamp);
        if !ok { return; }
      } else {
        NothingFiled();
        NothingEarly(before, timestamp, Given());
        ok := true;
      }
      AfterClose(before, timestamp);
    }

    /** What the early part of the queue has left behind. */
    lemma BeforeClose(before: Plan, timestamp: nat)
      requires Valid() && EarlyGone(before, timestamp)
      ensures Sound() && style.scale > 0 && writer.Valid() && Given().style == style
      ensures AllBlocks(past) + Current() + frames == accepted && forall i :: 0 <= i < |frames| ==> InRange(frames[i])
      ensures frames == before.queue[Moves(before, timestamp)..] && Groups(past) == before.closed
      ensures lastTimestamp == LastAfter(before.last, before.queue[..Moves(before, timestamp)])
      ensures lastTrackTimestamp == LastOfAfter(before.last, before.lastOf, before.queue[..Moves(before, timestamp)])
      ensures cluster == null ==> before.open.None? && AllBlocks(past) + frames == accepted
      ensures cluster != null ==>
                && before.open.Some? && Last()
                    == Some(Grown(before.open.value, before.queue[..Moves(before, timestamp)]))
                && (CanBegin(before, timestamp, Given()) <==> Sealable(Last().value, style))
    {
      hide PastFine, Open, AllBlocks, InRange, Groups, Sealable, AllInReach;
      if cluster == null { NothingLeft(AllBlocks(past), Current()); }
    }

    lemma AfterClose(before: Plan, timestamp: nat)
      requires style.scale > 0 && FileDone() && clusterCount == |past| && AllBlocks(past) + frames == accepted
      requires cues == if outputCues then CuesOf(past, cuesTrack, style.scale) else []
      requires forall i :: 0 <= i < |frames| ==> InRange(frames[i])
      requires CanBegin(before, timestamp, Given()) && frames == before.queue[Moves(before, timestamp)..]
      requires lastTimestamp == LastAfter(before.last, before.queue[..Moves(before, timestamp)])
      requires lastTrackTimestamp == LastOfAfter(before.last, before.lastOf, before.queue[..Moves(before, timestamp)])
      requires Groups(past) == if before.open.None? then before.closed
                               else before.closed + [Grown(before.open.value, before.queue[..Moves(before, timestamp)])]
      ensures Between() && ClosedAs(before, timestamp)
    {
      hide FileDone, AllBlocks, CuesOf, InRange, CanBegin, LastAfter, LastOfAfter, Groups, Moves;
    }

    /** Between two clusters: the complete ones are in the file, and the queue follows their blocks. */
    ghost predicate Between()
      reads `clusterCount, `cues, `past, `accepted, `frames, writer
    {
      && FileDone() && clusterCount == |past| && AllBlocks(past) + frames == accepted
      && cues == (if outputCues then CuesOf(past, cuesTrack, style.scale) else [])
      && forall i :: 0 <= i < |frames| ==> InRange(frames[i])
    }

    /** Completes the last cluster, and begins a new one. */
    method MakeNewCluster(timestamp: nat) returns (ok: bool)
      requires Valid() && timestamp <= INT64_MAX
      modifies `frames, `cues, `newCuepoint, `lastTimestamp, `lastTrackTimestamp, `past, `cluster, `clusterCount,
               writer, cluster
      ensures writer.Valid() && style.scale > 0
      ensures ok ==> Valid() && cluster != null && fresh(cluster) && clusterCount == old(clusterCount) + 1
      ensures ok ==> old(CanBegin(Now(), timestamp, Given())) && Now() == Begun(old(Now()), timestamp, Given())
      ensures writer.reliable && old(CanBegin(Now(), timestamp, Given())) ==> ok
      ensures cluster == old(cluster) || fresh(cluster)
    {
      hide Open, PastFine, AllBlocks, FileOf, CuesOf, InRange, AllInReach, Sound, Conserved, FileDone, Between,
           LastAfter, LastOfAfter, Groups, Sealable, Moves, TimecodeFor;
      ghost var before := Now();
      ok := CloseCurrent(timestamp);
      if !ok { return; }
      if outputCues { newCuepoint := true; }
      TimecodeInRange(timestamp);
      var timecode := NewTimecode(timestamp);
      Begin(timecode);
    }

    /** The timecode of the new cluster: that of the frame, or of the first queued one if it is earlier. */
    method NewTimecode(timestamp: nat) returns (timecode: nat)
      requires style.scale > 0
      ensures timecode == TimecodeFor(frames, timestamp, style.scale)
    {
      timecode := timestamp / style.scale;
      if |frames| > 0 {
        var tc := frames[0].timestamp / style.scale;
        if tc < timecode { timecode := tc; }
      }
    }

    /** Begins a cluster behind the complete ones. */
    method Begin(timecode: nat)
      requires Between() && (newCuepoint <==> outputCues) && timecode <= INT64_MAX
      modifies `cluster, `clusterCount
      ensures Valid() && cluster != null && fresh(cluster) && cluster.written == [] && cluster.timecode == timecode
      ensures clusterCount == old(clusterCount) + 1
    {
      hide Open, PastFine, AllBlocks, FileOf, CuesOf, InRange, AllInReach;
      var c := new Cluster(timecode, writer.Position() - payloadPos, style.scale, false, style.fixedSize, writer);
      cluster := c;
      clusterCount := clusterCount + 1;
      Opened(c);
      NothingYet(AllBlocks(past), frames);
    }

    lemma TimecodeInRange(timestamp: nat)
      requires Between() && timestamp <= INT64_MAX
      ensures style.scale > 0 && TimecodeFor(frames, timestamp, style.scale) <= INT64_MAX
    {
      Smaller(timestamp, style.scale);
    }

    lemma CountIs()
      requires Sound()
      ensures clusterCount == |past| + (if cluster == null then 0 else 1)
      ensures !outputCues ==> !newCuepoint
    {
    }

    lemma NothingFiled()
      requires Sound() && cluster == null
      ensures FileDone() && cues == if outputCues then CuesOf(past, cuesTrack, style.scale) else []
    {
    }

    lemma Opened(c: Cluster)
      requires FileDone() && c.Valid() && Lists(c.stored) && c.writer == writer && c.scale == style.scale
      requires c.fixedSize == style.fixedSize && !c.holdBack && !c.finalized && !c.headerWritten && c.written == []
      requires c.timecode <= INT64_MAX && c.origin == writer.Position() &&
               c.positionForCues == c.origin - payloadPos && clusterCount == |past| + 1
      requires cues == if outputCues then CuesOf(past, cuesTrack, style.scale) else []
      requires newCuepoint <==> outputCues
      ensures Open(c)
    {
      NoCueYet([], c.positionForCues, cuesTrack, style.scale);
      hide ClusterBody, PastFine, FileOf, CuesOf, CueOf;
    }

    /** Begins a new cluster if one is due, and writes the queue to it.  The source loops while `TestFrame`
        answers 2; it cannot, so there is one pass. */
    method DoNewClusterProcessing(track: nat, timestamp: nat, isKey: bool) returns (ok: bool, ghost answer: int)
      requires Valid() && timestamp <= INT64_MAX && style.scale > 0 &&
               (forceNewCluster || Reachable(Now(), timestamp, Given()))
      modifies `frames, `cues, `newCuepoint, `lastTimestamp, `lastTrackTimestamp, `past, `cluster, `clusterCount,
               `forceNewCluster,
        writer, cluster
      ensures writer.Valid() && 0 <= answer <= 1 && (cluster == old(cluster) || fresh(cluster))
      ensures ok ==> Valid() && cluster != null && frames == [] && !forceNewCluster
      ensures answer == 1 <==> old(Due(Now(), track, timestamp, isKey, Given()))
      ensures ok ==> clusterCount == old(clusterCount) + answer
      ensures ok && answer == 0 ==> cluster == old(cluster)
      ensures ok && answer == 1 ==> fresh(cluster)
      ensures ok ==>
                && old(CanPrepare(Now(), track, timestamp, isKey, Given()))
                && Now() == PreparedFor(old(Now()), answer == 1, timestamp, Given())
      ensures writer.reliable && old(CanPrepare(Now(), track, timestamp, isKey, Given())) ==> ok
    {
      hide Open, PastFine, AllBlocks, InRange, AllInReach, Sound, Conserved, LastAfter, LastOfAfter, Groups, Due,
           Begun, Flushed, CanBegin, CanFlush, Reachable;
      var result := TestFrame(track, timestamp, isKey);
      TestAnswers(result, track, timestamp, isKey);
      answer := result;
      ghost var before := Now();
      NotForced(before, track, timestamp, isKey, Given());
      forceNewCluster := false;
      if result > 0 {
        ok := MakeNewCluster(timestamp);
        if !ok { return; }
      }
      var frameCount := WriteFramesAll();
      if frameCount < 0 { return false, answer; }
      ok := true;
    }

    /** The answers -1 and 2 are for frames that the last cluster cannot reach, and these force a new one. */
    lemma TestAnswers(result: int, track: nat, timestamp: nat, isKey: bool)
      requires style.scale > 0 && -1 <= result <= 2 && (forceNewCluster || Reachable(Now(), timestamp, Given()))
      requires result == -1 <==> !forceNewCluster && cluster != null && timestamp / style.scale < cluster.timecode
      requires result == 2 <==>
                 !forceNewCluster && cluster != null && timestamp / style.scale - cluster.timecode > MAX_BLOCK_TIMECODE
      ensures 0 <= result <= 1
      ensures !Due(Now(), track, timestamp, isKey, Given()) ==> cluster != null
    {
      hide Payload, Groups;
    }

    method QueueFrame(f: MuxFrame)
      requires Valid() && InRange(f)
      modifies `frames, `accepted
      ensures Valid() && frames == old(frames) + [f] && accepted == old(accepted) + [f]
      ensures old(CueTrackInOrder()) && Queues(f.track, Given()) ==> CueTrackInOrder()
    {
      hide Open, PastFine, AllBlocks, InRange, AllInReach, TrackNotBack, Queues;
      if TrackNotBack(accepted, cuesTrack, lastTimestamp) && f.track != cuesTrack {
        OrderMore(accepted, accepted + [f], f, cuesTrack, lastTimestamp, lastTimestamp);
      }
      Then(AllBlocks(past) + Current(), frames, [f]);
      frames := frames + [f];
      accepted := accepted + [f];
    }

    /** A frame that is no key frame and cannot be a SimpleBlock needs a reference: the time of the frame
        before it in its track. */
    method WithReference(f: MuxFrame) returns (g: MuxFrame)
      ensures g == Referenced(f, lastTrackTimestamp)
      ensures SameButReference(g, f) && (InRange(f) ==> InRange(g)) && g.track == f.track && g.timestamp == f.timestamp
    {
      g := f;
      if !CanBeSimpleBlock(f) && !f.key && f.reference.None? {
        g := f.(reference := Some((if f.track in lastTrackTimestamp then lastTrackTimestamp[f.track] else 0) as int));
      }
    }

    /** A frame that the last cluster cannot reach needs a new one. */
    method ForceIfFar(timestamp: nat)
      requires Valid() && timestamp <= INT64_MAX
      modifies `forceNewCluster
      ensures style.scale > 0 && (forceNewCluster <==>
                                  old(forceNewCluster) || !Reachable(old(Now()), timestamp, Given()))
    {
      hide *;
      FarIs(timestamp);
      if cluster != null {
        var relative := ToUInt64(timestamp / style.scale - cluster.timecode);
        if relative > MAX_BLOCK_TIMECODE { forceNewCluster := true; }
      }
    }

    /** The unsigned difference of the times says whether the last cluster can reach a frame. */
    lemma FarIs(timestamp: nat)
      requires Valid() && timestamp <= INT64_MAX
      ensures style.scale > 0
      ensures cluster == null ==> Reachable(Now(), timestamp, Given())
      ensures cluster != null ==>
                (ToUInt64(timestamp / style.scale - cluster.timecode) > MAX_BLOCK_TIMECODE
                 <==> !Reachable(Now(), timestamp, Given()))
    {
      hide PastFine, AllBlocks, InRange, ClusterBody, Groups, FileOf, CuesFine;
      if cluster != null {
        Smaller(timestamp, style.scale);
        Wraps(timestamp / style.scale - cluster.timecode);
      }
    }

    /** Takes a frame: queues it, or writes it behind everything queued, in a new cluster if one is due. */
    method AddGenericFrame(f: MuxFrame) returns (ok: bool)
      requires Valid() && InRange(f)
      modifies this, writer, cluster
      ensures writer.Valid() && style.scale > 0
      ensures ok ==> old(Takes(Now(), f, Given())) && Now() == After(old(Now()), f, Given())
      ensures writer.reliable && old(Takes(Now(), f, Given())) ==> ok
      ensures ok ==> Valid() && accepted == old(accepted) + [Accepted(old(Now()), f, Given())]
      ensures ok ==> clusterCount == old(clusterCount) + NewClusters(old(Now()), f, Given())
      ensures ok && old(CueTrackInOrder()) ==> CueTrackInOrder()
      ensures cluster == old(cluster) || fresh(cluster)
    {
      hide Open, PastFine, Sound, Conserved, InRange, Reachable, AllBlocks, TrackNotBack, Groups, Due, CanPrepare,
           Prepared, Fits, Written, Queues, Takes, After, Accepted, NewClusters, Referenced;
      ScaleIs();
      ghost var plan := Now();
      NotTaken(plan, f, Given());
      if f.timestamp < lastTimestamp { return false; }
      if f.track !in tracks { return false; }
      InTime(f);
      ForceIfFar(f.timestamp);
      QueuesIs(f.track);
      if hasVideo && tracks[f.track] == Audio && !forceNewCluster {
        TakenLater(plan, f, Given());
        QueueFrame(f);
        return true;
      }
      TakenNow(plan, f, Given());
      ok := WriteNow(f);
    }

    lemma QueuesIs(t: nat)
      ensures Queues(t, Given()) <==> hasVideo && t in tracks && tracks[t] == Audio
    {
    }

    /** Writes a frame behind everything queued, in a new cluster if one is due. */
    method WriteNow(f: MuxFrame) returns (ok: bool)
      requires Valid() && InRange(f) && style.scale > 0 && (forceNewCluster || Reachable(Now(), f.timestamp, Given()))
      modifies this, writer, cluster
      ensures writer.Valid() && (cluster == old(cluster) || fresh(cluster))
      ensures ok ==> Valid()
      ensures ok && f.timestamp >= old(lastTimestamp) && old(CueTrackInOrder()) ==> CueTrackInOrder()
      ensures ok ==>
                && old(CanPrepare(Now(), f.track, f.timestamp, f.key, Given()))
                && var p := Prepared(old(Now()), f, Given());
                && Fits(p, f, Given()) && Now() == Written(p, f) &&
                    accepted == old(accepted) + [Referenced(f, p.lastOf)]
      ensures ok ==>
                clusterCount == old(clusterCount) + if old(Due(Now(), f.track, f.timestamp, f.key, Given())) then 1
                    else 0
      ensures writer.reliable && old(CanPrepare(Now(), f.track, f.timestamp, f.key, Given())) &&
              Fits(old(Prepared(Now(), f, Given())), f, Given())
              ==> ok
    {
      hide *;
      InTime(f);
      CueOrderStays(f);
      ghost var answer;
      Remembered();
      PreparedIs(Now(), f, Given());
      ok, answer := DoNewClusterProcessing(f.track, f.timestamp, f.key);
      if !ok { return; }
      Remembered();
      ok := WriteBehind(f);
    }

    lemma Remembered()
      ensures Given().style == style && Now().lastOf == lastTrackTimestamp
    {
    }

    /** What the order of the cue track needs of a frame. */
    lemma CueOrderStays(f: MuxFrame)
      ensures CueTrackInOrder() && f.timestamp >= lastTimestamp ==> CueOrderFor(accepted, f)
    {
    }

    ghost predicate CueOrderFor(accepted: seq<MuxFrame>, f: MuxFrame) {
      Queues(cuesTrack, Given()) || exists was: nat :: was <= f.timestamp && TrackNotBack(accepted, cuesTrack, was)
    }

    /** Writes a frame behind everything else to the last cluster. */
    method WriteBehind(f: MuxFrame) returns (ok: bool)
      requires Valid() && cluster != null && frames == [] && InRange(f) && !forceNewCluster
      modifies writer, cluster, `cues, `newCuepoint, `accepted, `lastTimestamp, `lastTrackTimestamp
      ensures writer.Valid() && style.scale > 0
      ensures ok ==> Valid() && old(Fits(Now(), f, Given())) && Now() == Written(old(Now()), f)
      ensures ok ==> accepted == old(accepted) + [Referenced(f, old(lastTrackTimestamp))]
      ensures ok && CueOrderFor(old(accepted), f) ==> CueTrackInOrder()
      ensures writer.reliable && old(Fits(Now(), f, Given())) ==> ok
    {
      hide Open, PastFine, Conserved, Sound, InRange, AllBlocks, Groups, InReach, TrackNotBack, Queues;
      ghost var before := accepted;
      var g := WithReference(f);
      ok := WriteAccepted(g);
      if !ok { return; }
      lastTimestamp := g.timestamp;
      lastTrackTimestamp := lastTrackTimestamp[g.track := g.timestamp];
      if CueOrderFor(before, f) && !Queues(cuesTrack, Given()) {
        var was: nat :| was <= f.timestamp && TrackNotBack(before, cuesTrack, was);
        OrderMore(before, accepted, g, cuesTrack, was, lastTimestamp);
      }
    }

    /** Writes a frame when the queue is empty. */
    method WriteAccepted(f: MuxFrame) returns (ok: bool)
      requires Valid() && cluster != null && frames == [] && InRange(f)
      modifies writer, cluster, `cues, `newCuepoint, `accepted
      ensures writer.Valid()
      ensures ok ==> Valid() && accepted == old(accepted) + [f] && cluster.written == old(cluster.written) + [f]
      ensures style.scale > 0 && (ok ==> InReach(f, cluster.timecode, style.scale))
      ensures writer.reliable && InReach(f, cluster.timecode, style.scale) ==> ok
    {
      hide Open, PastFine, AllBlocks, AllInReach, InRange, InReach;
      LastWritten(AllBlocks(past), Current(), f);
      ok := WriteToCluster(f);
      if ok { accepted := accepted + [f]; }
    }

    /** At the end the queue is written and the last cluster completed: every frame accepted is in the file,
        in the order of acceptance, each in reach of its cluster. */
    method FinishClusters() returns (ok: bool)
      requires Valid()
      modifies this, writer, cluster
      ensures writer.Valid() && accepted == old(accepted) && style.scale > 0
      ensures ok ==> frames == [] && FileDone() && AllBlocks(past) == accepted
      ensures ok ==> cues == if outputCues then CuesOf(past, cuesTrack, style.scale) else []
      ensures ok ==> old(CanFinish(Now(), Given())) && Groups(past) == Completed(old(Now()))
      ensures writer.reliable && old(CanFinish(Now(), Given())) ==> ok
    {
      hide Open, PastFine, AllBlocks, FileOf, CuesOf, AllInReach, InRange, Sound, Conserved, Groups, Sealable,
           CanFlush, LastAfter, LastOfAfter;
      ScaleIs();
      var written := WriteFramesAll();
      if written < 0 { return false; }
      if cluster != null {
        NothingLeft(AllBlocks(past), Current());
        Conservation();
        ok := CompleteCluster(false, 0);
        if !ok { return; }
      } else {
        Conservation();
        NothingFiled();
        NothingLeft(AllBlocks(past), Current());
        NoMore(AllBlocks(past));
      }
      ok := true;
    }

    lemma Conservation()
      requires Valid()
      ensures Conserved(frames) && AllBlocks(past) + Current() + frames == accepted
    {
      hide Sound, AllBlocks, InRange;
    }

    /** A whole recording: on a sound writer it succeeds exactly when the plan says so. */
    method Record(input: seq<MuxFrame>) returns (ok: bool)
      requires Valid() && accepted == [] && Now() == EMPTY && forall i :: 0 <= i < |input| ==> InRange(input[i])
      modifies this, writer, cluster
      ensures writer.Valid() && style.scale > 0
      ensures ok ==> frames == [] && FileDone() && AllBlocks(past) == accepted && |accepted| == |input|
      ensures ok ==> forall i :: 0 <= i < |input| ==> SameButReference(accepted[i], input[i])
      ensures ok ==> cues == if outputCues then CuesOf(past, cuesTrack, style.scale) else []
      ensures ok ==> Records(input, Given()) && Groups(past) == Completed(RunOf(EMPTY, input, Given()))
      ensures ok ==> (exists cuts :: B.Divided(Groups(past), cuts, Given())) && B.AllKept(accepted, input, Given())
      ensures writer.reliable && Records(input, Given()) ==> ok
      ensures ok && (!Queues(cuesTrack, Given()) || TrackOrdered(input, cuesTrack)) ==> TimesInOrder(cues)
      ensures ok && outputCues ==>
                (TimesInOrder(cues) <==> Ascending(CueTimes(Completed(RunOf(EMPTY, input, Given())), cuesTrack,
                                                            style.scale)))
    {
      hide TrackOrdered, Valid, Sound, FileDone, AllBlocks, CuesOf, InRange, SameButReference, TrackNotBack,
           TimesInOrder, Groups, After, Takes, Accepted, CanFinish, Completed, Queues;
      ghost var s := Given();
      NoneInOrder();
      ValidScale();
      for i := 0 to |input|
        invariant CueTrackInOrder()
        invariant Valid() && |accepted| == i && (cluster == old(cluster) || fresh(cluster))
        invariant TakesAll(EMPTY, input[..i], s) && Now() == RunOf(EMPTY, input[..i], s)
        invariant forall k :: 0 <= k < i ==> SameButReference(accepted[k], input[k])
      {
        ghost var before := accepted;
        NextTaken(EMPTY, input, i, s);
        AcceptedSame(Now(), input[i], s);
        ok := AddGenericFrame(input[i]);
        if !ok { return; }
        assert forall k :: 0 <= k < i ==> accepted[k] == before[k];
      }
      assert input[..|input|] == input;
      OrderKnown();
      ok := FinishClusters();
      if ok {
        CueTimesAre(past, cuesTrack, style.scale);
        PlanKept(past, input, s);
      }
      if ok && (!Queues(cuesTrack, Given()) || TrackOrdered(input, cuesTrack)) { InOrderAtLast(input); }
    }

    lemma ValidScale()
      requires Valid()
      ensures style.scale > 0
    {
    }

    lemma NoneInOrder()
      requires accepted == []
      ensures CueTrackInOrder()
    {
    }

    lemma OrderKnown()
      requires CueTrackInOrder()
      ensures Queues(cuesTrack, Given()) || TrackOrdered(accepted, cuesTrack)
    {
    }

    lemma InOrderAtLast(input: seq<MuxFrame>)
      requires FileDone() && AllBlocks(past) == accepted && |accepted| == |input|
      requires forall i :: 0 <= i < |input| ==> SameButReference(accepted[i], input[i])
      requires TrackOrdered(accepted, cuesTrack) || TrackOrdered(input, cuesTrack)
      requires cues == if outputCues then CuesOf(past, cuesTrack, style.scale) else []
      ensures TimesInOrder(cues)
    {
      CuesInOrder(past, cuesTrack, style.scale);
    }
  }

  /** The clusters of a completed recording are divided as the plan's are, and have the frames that came. */
  lemma PlanKept(past: seq<Past>, input: seq<MuxFrame>, s: Settings)
    requires s.style.scale > 0 && Groups(past) == Completed(RunOf(EMPTY, input, s)) && Records(input, s)
    ensures (exists cuts :: B.Divided(Groups(past), cuts, s)) && B.AllKept(AllBlocks(past), input, s)
  {
    FlushedAtLast(input, s);
    hide *;
    var cuts := B.ClustersDivided(input, s);
    B.FramesKept(input, s);
    AllBlocksFlat(past);
  }

  lemma FlushedAtLast(input: seq<MuxFrame>, s: Settings)
    requires s.style.scale > 0 && Records(input, s)
    ensures RunOf(EMPTY, input, s).open.None? ==> RunOf(EMPTY, input, s).queue == []
  {
    hide RunOf, TakesAll, Sealable;
  }

  lemma {:induction false} AllBlocksFlat(past: seq<Past>)
    ensures AllBlocks(past) == B.Flat(Groups(past))
  {
    if |past| > 0 {
      AllBlocksFlat(past[..|past| - 1]);
      B.FlatMore(Groups(past[..|past| - 1]), Group(past[|past| - 1].frames, past[|past| - 1].timecode));
    }
  }

  lemma AcceptedSame(p: Plan, f: MuxFrame, s: Settings)
    requires s.style.scale > 0
    ensures SameButReference(Accepted(p, f, s), f)
  {
    hide Prepared, Waits;
  }

  lemma InTime(f: MuxFrame)
    requires InRange(f)
    ensures f.timestamp <= INT64_MAX
  {
  }

  lemma Smaller(v: nat, d: nat)
    requires d > 0
    ensures 0 <= v / d <= v
  {
    var q := v / d;
    assert v == d * q + v % d;
    Monotone(1, d, q);
  }

  lemma Wraps(v: int)
    requires -INT64_MAX <= v <= INT64_MAX
    ensures ToUInt64(v) <= MAX_BLOCK_TIMECODE <==> 0 <= v <= MAX_BLOCK_TIMECODE
  {
  }

  lemma NothingYet(blocks: seq<MuxFrame>, queue: seq<MuxFrame>)
    ensures blocks + [] + queue == blocks + queue
  {
  }

  lemma NothingLeft(blocks: seq<MuxFrame>, current: seq<MuxFrame>)
    ensures blocks + current + [] == blocks + current
  {
  }

  lemma NoMore(blocks: seq<MuxFrame>)
    ensures blocks + [] == blocks
  {
  }

  lemma LastWritten(blocks: seq<MuxFrame>, current: seq<MuxFrame>, f: MuxFrame)
    ensures blocks + current + [] + [f] == blocks + (current + [f]) + []
  {
  }

  lemma OneWritten(blocks: seq<MuxFrame>, current: seq<MuxFrame>, f: MuxFrame, rest: seq<MuxFrame>)
    ensures blocks + current + ([f] + rest) == blocks + (current + [f]) + rest
  {
  }

  /** A complete cluster is in the file as it is counted among the past ones. */
  lemma ClusterIsFile(c: Cluster, p: Past, style: Style)
    requires c.Complete() && style == Style(c.scale, c.fixedSize, c.writer.seekable) && c.positionForCues >= 0
    requires p == Past(c.written, c.timecode, c.positionForCues) && c.timecode <= INT64_MAX && c.written != []
    ensures c.origin <= |c.writer.Data()| && c.writer.Data()[c.origin..] == ClusterFile(p, style)
    ensures Sealed(p, style)
  {
    hide ClusterBody;
  }

  lemma CuesSoFar(outputCues: bool, t: nat, scale: nat, past: seq<Past>, written: seq<MuxFrame>, position: int,
                  cues: seq<Cue>, newCuepoint: bool)
    requires scale > 0 && CuesFine(outputCues, t, scale, past, written, position, cues, newCuepoint)
    ensures position >= 0
    ensures cues == if outputCues then CuesOf(past, t, scale) + CueOf(written, position, t, scale) else []
  {
  }

  /** A cluster that is complete joins those before it. */
  lemma ClusterJoins(past: seq<Past>, p: Past, style: Style, payloadPos: nat, t: nat, before: seq<Byte>,
                     after: seq<Byte>,
                     start: nat, origin: nat)
    requires style.scale > 0 && payloadPos <= start && PastFine(past, style, start - payloadPos)
    requires Sealed(p, style) && p.position == origin - payloadPos
    requires start <= origin <= |before| && before[start..origin] == FileOf(past, style)
    requires origin <= |after| && after[..origin] == before[..origin] && after[origin..] == ClusterFile(p, style)
    ensures start <= |after| && after[start..] == FileOf(past + [p], style)
    ensures PastFine(past + [p], style, start - payloadPos) && AllBlocks(past + [p]) == AllBlocks(past) + p.frames
    ensures CuesOf(past + [p], t, style.scale)
            == CuesOf(past, t, style.scale) + CueOf(p.frames, p.position, t, style.scale)
  {
    hide PastFine, FileOf, CuesOf, CueOf, AllInReach, AllBlocks, ClusterFile;
    FirstLength(past, before, start, origin, style);
    PastMore(past, p, style, start - payloadPos, t);
    Joined(after, before, start, origin, ClusterFile(p, style));
  }

  lemma FirstLength(past: seq<Past>, data: seq<Byte>, start: nat, origin: nat, style: Style)
    requires style.scale > 0 && start <= origin <= |data| && data[start..origin] == FileOf(past, style)
    ensures origin == start + |FileOf(past, style)|
  {
  }

  lemma Joined(after: seq<Byte>, before: seq<Byte>, start: nat, origin: nat, last: seq<Byte>)
    requires start <= origin <= |before| && origin <= |after| && after[..origin] == before[..origin] &&
             after[origin..] == last
    ensures after[start..] == before[start..origin] + last
  {
    assert after[start..] == after[..origin][start..] + after[origin..];
    assert before[start..origin] == before[..origin][start..];
  }

  lemma SamePart(before: seq<Byte>, after: seq<Byte>, from: nat, to: nat)
    requires before <= after && from <= to <= |before|
    ensures after[from..to] == before[from..to]
  {
  }
}
