/** One cluster of the muxer (libwebm/mkvmuxer/mkvmuxer.cc, class `Cluster`): its bytes, and the frames it
    writes at once or holds back to merge them. */
module Clusters {
  import opened Bytes
  import opened Ebml
  import opened EbmlReader
  import opened EbmlWriter
  import opened Blocks
  import opened HoldBack

  // ----- the bytes of a cluster

  /** The ID of a cluster and a size that is not known yet. */
  function ClusterHead(): seq<Byte> {
    EncodeId(ID_CLUSTER) + BigEndian(0x01FF_FFFF_FFFF_FFFF, 8)
  }

  function TimecodeBytes(timecode: nat, fixedSize: bool): seq<Byte> {
    EncodeUInt(ID_TIMECODE, timecode, if fixedSize then 8 else 0)
  }

  function BlocksOf(frames: seq<MuxFrame>, timecode: nat, scale: nat): seq<Byte>
    requires scale > 0
  {
    if |frames| == 0 then []
    else
      var f := frames[|frames| - 1];
      BlocksOf(frames[..|frames| - 1], timecode, scale) + FrameBytes(f, f.timestamp / scale - timecode, scale)
  }

  lemma OneMoreBlock(frames: seq<MuxFrame>, f: MuxFrame, timecode: nat, scale: nat)
    requires scale > 0
    ensures BlocksOf(frames + [f], timecode, scale)
         == BlocksOf(frames, timecode, scale) + FrameBytes(f, f.timestamp / scale - timecode, scale)
  {
    hide FrameBytes;
    assert (frames + [f])[..|frames|] == frames;
  }

  /** Everything behind the size field. */
  function ClusterBody(frames: seq<MuxFrame>, timecode: nat, fixedSize: bool, scale: nat): seq<Byte>
    requires scale > 0
  {
    TimecodeBytes(timecode, fixedSize) + BlocksOf(frames, timecode, scale)
  }

  /** A frame lies within reach of a cluster: its time, in the scale's units, is at most 0x7FFF after the
      cluster's. */
  predicate InReach(f: MuxFrame, timecode: nat, scale: nat)
    requires scale > 0
  {
    IsValid(f) && 0 <= f.timestamp / scale - timecode <= MAX_BLOCK_TIMECODE
  }

  predicate AllInReach(frames: seq<MuxFrame>, timecode: nat, scale: nat)
    requires scale > 0
  {
    forall i :: 0 <= i < |frames| ==> InReach(frames[i], timecode, scale)
  }

  /** The lengths of a frame's buffers, which the writers cut to 32 bits. */
  predicate Fits32(f: MuxFrame) {
    |f.payload| < 0x7FFF_FFFC && (f.additional.Some? ==> |f.additional.value| < 0x8000_0000)
  }

  predicate AtEnd(w: Writer)
    requires w.Valid()
    reads w
  {
    w.Position() == |w.Data()|
  }

  /** Writing at the end of the file makes it longer. */
  lemma Longer(data: seq<Byte>, bs: seq<Byte>)
    ensures Splice(data, |data|, bs) == data + bs
  {
  }

  class Cluster {
    const timecode: nat
    const scale: nat
    /** Where the cluster's ID stands, counted from the segment's payload. */
    const positionForCues: int
    const fixedSize: bool
    /** `write_last_frame_with_duration_` */
    const holdBack: bool
    const writer: Writer
    var blocksAdded: nat
    var finalized: bool
    var headerWritten: bool
    var payloadSize: nat
    var sizePosition: int
    var stored: map<nat, seq<MuxFrame>>
    var lastBlock: map<nat, nat>
    /** The frames written, and where the cluster begins in the file. */
    ghost var written: seq<MuxFrame>
    ghost var origin: nat

    constructor (timecode: nat, positionForCues: int, scale: nat, holdBack: bool, fixedSize: bool, writer: Writer)
      requires scale > 0 && writer.Valid() && AtEnd(writer)
      ensures Valid() && !headerWritten && !finalized && written == [] && stored == map[] && lastBlock == map[]
      ensures this.timecode == timecode && this.positionForCues == positionForCues && this.scale == scale
      ensures this.holdBack == holdBack && this.fixedSize == fixedSize && this.writer == writer && blocksAdded == 0
      ensures origin == writer.Position() && Lists(stored) && Holding([], Books(stored, written, lastBlock))
    {
      this.timecode, this.positionForCues, this.scale := timecode, positionForCues, scale;
      this.holdBack, this.fixedSize, this.writer := holdBack, fixedSize, writer;
      blocksAdded, finalized, headerWritten, payloadSize, sizePosition := 0, false, false, 0, -1;
      stored, lastBlock, written, origin := map[], map[], [], writer.Position();
    }

    /** Until it is finalized: the payload size is the number of bytes behind the size field, and those
        bytes, at the end of the file, are the cluster's timecode and its blocks. */
    ghost predicate Valid()
      reads `blocksAdded, `headerWritten, `payloadSize, `sizePosition, `written, `origin, writer
    {
      && scale > 0 && writer.Valid() && AtEnd(writer) && blocksAdded == |written| &&
          AllInReach(written, timecode, scale)
      && (!headerWritten ==> payloadSize == 0 && written == [] && sizePosition == -1 && origin == writer.Position())
      && (headerWritten ==>
            && sizePosition == origin + 4 && writer.Position() == origin + 12 + payloadSize
            && payloadSize == |ClusterBody(written, timecode, fixedSize, scale)|
            && writer.Data()[origin..] == ClusterHead() + ClusterBody(written, timecode, fixedSize, scale))
    }

    method WriteClusterHeader() returns (ok: bool)
      requires Valid() && !headerWritten
      modifies writer, this`sizePosition, this`payloadSize, this`headerWritten
      ensures writer.Valid()
      ensures ok ==> Valid() && headerWritten && !finalized
      ensures ok ==> writer.Data() == old(writer.Data()) + ClusterHead() + TimecodeBytes(timecode, fixedSize)
      ensures writer.reliable && !finalized ==> ok
    {
      hide EncodeId, BigEndian, EncodeUInt, GetUIntSize;
      if finalized { return false; }
      ghost var before, data := writer.pending, writer.Data();
      var status := WriteID(writer, ID_CLUSTER);
      if status != 0 { return false; }
      sizePosition := writer.Position();
      status := SerializeInt(writer, 0x01FF_FFFF_FFFF_FFFF, 8);
      if status != 0 { return false; }
      Then(before, EncodeId(ID_CLUSTER), BigEndian(0x01FF_FFFF_FFFF_FFFF, 8));
      var fixed := if fixedSize then 8 else 0;
      ok := WriteUIntElement(writer, ID_TIMECODE, timecode, fixed);
      if !ok { return; }
      Then(before, ClusterHead(), TimecodeBytes(timecode, fixedSize));
      writer.AppendedData(ClusterHead() + TimecodeBytes(timecode, fixedSize));
      Longer(data, ClusterHead() + TimecodeBytes(timecode, fixedSize));
      payloadSize := payloadSize + UIntElementSize(ID_TIMECODE, timecode, fixed);
      headerWritten := true;
      HeadSizes(timecode, fixedSize);
      HeadOnly(data, timecode, fixedSize, scale);
    }

    method PreWriteBlock() returns (ok: bool)
      requires Valid()
      modifies writer, this`sizePosition, this`payloadSize, this`headerWritten
      ensures writer.Valid()
      ensures ok ==> Valid() && headerWritten && !finalized && old(writer.Data()) <= writer.Data()
      ensures writer.reliable && !finalized ==> ok
    {
      if finalized { return false; }
      if !headerWritten {
        ok := WriteClusterHeader();
        if !ok { return; }
      }
      ok := true;
    }

    /** Writes a frame behind those written before. */
    method DoWriteFrame(f: MuxFrame) returns (ok: bool)
      requires Valid() && Fits32(f)
      modifies writer, this`sizePosition, this`payloadSize, this`headerWritten, this`blocksAdded, this`lastBlock,
               this`written
      ensures writer.Valid()
      ensures ok ==> Valid() && headerWritten && !finalized && InReach(f, timecode, scale)
      ensures ok ==> written == old(written) + [f] && lastBlock == old(lastBlock)[f.track := f.timestamp]
      ensures ok ==> old(writer.Data()) <= writer.Data()
      ensures writer.reliable && !finalized && InReach(f, timecode, scale) ==> ok
    {
      hide ClusterBody, FrameBytes, ClusterHead, IsValid;
      if !IsValid(f) { return false; }
      ok := PreWriteBlock();
      if !ok { return; }
      ghost var data := writer.Data();
      label Header:
      var elementSize := WriteFrame(writer, f, timecode, scale);
      if elementSize == 0 { return false; }
      ghost var bytes := FrameBytes(f, f.timestamp / scale - timecode, scale);
      writer.AppendedData@Header(bytes);
      Longer(data, bytes);
      BodyGrows(written, f, timecode, fixedSize, scale);
      MovedEnd(data, origin, ClusterHead(), ClusterBody(written, timecode, fixedSize, scale), bytes);
      payloadSize := payloadSize + elementSize;
      blocksAdded := blocksAdded + 1;
      lastBlock := lastBlock[f.track := f.timestamp];
      written := written + [f];
    }

    /** No other track holds a frame earlier than `time`. */
    method OkayToWrite(t: nat, time: nat) returns (okay: bool)
      requires Lists(stored)
      ensures okay <==> NoneBefore(stored, t, time)
    {
      hide Fits32, IsValid;
      for k := 1 to MAX_TRACK_NUMBER + 1
        invariant forall u :: u in stored && u != t && u < k ==> time <= stored[u][0].timestamp
      {
        if k in stored && k != t && stored[k][0].timestamp < time { return false; }
      }
      okay := true;
    }

    /** Writes a frame at once, or queues it and writes those of its track that no other track has an earlier
        frame held back for. */
    method QueueOrWriteFrame(f: MuxFrame) returns (ok: bool)
      requires Valid() && Lists(stored) && Fits32(f)
      modifies writer, `sizePosition, `payloadSize, `headerWritten, `blocksAdded, `lastBlock, `written, `stored
      ensures writer.Valid()
      ensures ok ==> Valid() && Lists(stored) && IsValid(f)
      ensures ok && !holdBack ==>
                && headerWritten && !finalized && written == old(written) + [f] && stored == old(stored)
                && InReach(f, timecode, scale) && old(writer.Data()) <= writer.Data()
      ensures ok && holdBack ==> Queued(old(Books(stored, written, lastBlock)), Books(stored, written, lastBlock), f)
      ensures writer.reliable && !holdBack && !finalized && InReach(f, timecode, scale) ==> ok
      ensures writer.reliable && holdBack && !finalized && IsValid(f) ==>
                (AllInReach(Held(old(stored), f.track), timecode, scale) ==> ok)
    {
      InReachIsValid(f);
      hide *;
      if !IsValid(f) { return false; }
      if !holdBack {
        ok := DoWriteFrame(f);
        return;
      }
      ok := QueueFrame(f);
    }

    method QueueFrame(f: MuxFrame) returns (ok: bool)
      requires Valid() && Lists(stored) && Fits32(f) && IsValid(f)
      modifies writer, `sizePosition, `payloadSize, `headerWritten, `blocksAdded, `lastBlock, `written, `stored
      ensures writer.Valid()
      ensures ok ==> Valid() && Lists(stored)
      ensures ok ==> Queued(old(Books(stored, written, lastBlock)), Books(stored, written, lastBlock), f)
      ensures writer.reliable && !finalized && AllInReach(Held(old(stored), f.track), timecode, scale) ==> ok
    {
      ScaleSet();
      hide *;
      ghost var before, queue := Books(stored, written, lastBlock), Held(stored, f.track) + [f];
      JoinedFine(stored, f);
      Store(f);
      ghost var n;
      ok, n := WriteUpTo(f.track, queue);
      if ok {
        OthersSame(before, Books(stored, written, lastBlock), f, n);
        QueuedFine(before, Books(stored, written, lastBlock), f);
      }
    }

    /** Puts a frame behind those that its track holds. */
    method Store(f: MuxFrame)
      modifies `stored
      ensures stored == Joined(old(stored), f) && f.track in stored &&
              stored[f.track] == Held(old(stored), f.track) + [f]
    {
      stored := stored[f.track := (if f.track in stored then stored[f.track] else []) + [f]];
    }

    /** Writes the queued frames of one track, all but the last, as long as no other track has an earlier one. */
    method WriteUpTo(t: nat, ghost queue: seq<MuxFrame>) returns (ok: bool, ghost gone: nat)
      requires Valid() && Lists(stored) && t in stored && stored[t] == queue
      modifies writer, `sizePosition, `payloadSize, `headerWritten, `blocksAdded, `lastBlock, `written, `stored
      ensures writer.Valid()
      ensures ok ==> Valid() && MayGo(queue, old(stored), t, gone)
      ensures ok ==> Books(stored, written, lastBlock) == Went(queue, old(Books(stored, written, lastBlock)), t, gone)
      ensures writer.reliable && !finalized && AllInReach(ButLast(queue), timecode, scale) ==> ok
    {
      hide ClusterBody, ClusterHead, FrameList, IsValid, AllInReach, InReach, Lists, MayGo, NoneBefore, Went;
      var current := stored[t];
      ghost var before := Books(stored, written, lastBlock);
      FirstStored(stored, t, timecode, scale);
      ListFine(current, t);
      NothingWent(current, before, t);
      var n, okay := 0, true;
      while n < |current| - 1 && okay
        invariant 0 <= n < |current| && Valid() && stored == before.stored
        invariant Books(stored[t := current[n..]], written, lastBlock) == Went(current, before, t, n)
        invariant forall i :: 0 <= i < n ==> NoneBefore(before.stored, t, current[i].timestamp)
        invariant !okay ==> n + 1 < |current| && !NoneBefore(before.stored, t, current[n].timestamp)
        decreases |current| - n, okay
      {
        okay := OkayToWrite(t, current[n].timestamp);
        if okay {
          EarlyInReach(current, n, timecode, scale);
          OneWent(current, before, t, n);
          ok := DoWriteFrame(current[n]);
          if !ok { return false, n; }
          n := n + 1;
        }
      }
      MayGoIs(current, before.stored, t, n);
      stored := stored[t := current[n..]];
      ok, gone := true, n;
    }

    /** The track whose first frame is the earliest, and the lowest such track. */
    method PickEarliest() returns (t: nat)
      requires Lists(stored) && stored != map[]
      ensures t in stored && Earliest(stored, stored[t][0].timestamp)
      ensures forall u :: u in stored && u < t ==> stored[t][0].timestamp < stored[u][0].timestamp
    {
      hide Fits32;
      ghost var some :| some in stored;
      t := 0;
      for k := 1 to MAX_TRACK_NUMBER + 1
        invariant t == 0 ==> forall u :: u in stored ==> u >= k
        invariant t != 0 ==> t in stored && t < k
        invariant t != 0 ==> forall u :: u in stored && u < k ==> stored[t][0].timestamp <= stored[u][0].timestamp
        invariant t != 0 ==> forall u :: u in stored && u < t ==> stored[t][0].timestamp < stored[u][0].timestamp
      {
        if k in stored && (t == 0 || stored[k][0].timestamp < stored[t][0].timestamp) { t := k; }
      }
    }

    /** Writes all that is held back, merged by time; the last frame of a track may be given a duration. */
    method WriteHeld(setLast: bool, duration: nat, ghost came: seq<MuxFrame>)
        returns (ok: bool, ghost gone: seq<MuxFrame>)
      requires Valid() && Lists(stored)
      modifies writer, `sizePosition, `payloadSize, `headerWritten, `blocksAdded, `lastBlock, `written, `stored
      ensures writer.Valid()
      ensures ok ==> Valid() && stored == map[] && (headerWritten <==> old(headerWritten || stored != map[]))
      ensures ok && old(Holding(came, Books(stored, written, lastBlock))) ==>
                Merging(came, gone, map[]) && WrittenAs(written, gone, map[], setLast, duration)
      ensures writer.reliable && !finalized && old(AllNear(stored, timecode, scale)) ==> ok
    {
      hide ClusterBody, ClusterHead, Merging, Stamped, Lists, FrameList, IsValid, AllInReach, WrittenAs, HeldCount,
           AllNear, Earliest, Left, LastGiven, Front;
      gone := written;
      ghost var first, near := Books(stored, written, lastBlock), AllNear(stored, timecode, scale);
      ghost var held := Holding(came, first);
      if held { WrittenPlain(written, stored, setLast, duration); }
      ok := true;
      while stored != map[]
        invariant Valid() && Lists(stored) && ok
        invariant headerWritten ==> old(headerWritten) || first.stored != map[]
        invariant !headerWritten ==> stored == first.stored && !old(headerWritten)
        invariant held ==> Halfway(came, gone, Books(stored, written, lastBlock), setLast, duration)
        invariant near ==> AllNear(stored, timecode, scale)
        decreases HeldCount(stored, MAX_TRACK_NUMBER)
      {
        ghost var before := Books(stored, written, lastBlock);
        ghost var t;
        ok, t := WriteOne(setLast, duration);
        if !ok { return; }
        LeftIs(before, t, setLast, duration);
        FirstTaken(before.stored, t, timecode, scale);
        OneLess(before.stored, t, MAX_TRACK_NUMBER);
        if held { FirstLeaves(came, gone, before, setLast, duration, t); }
        gone := gone + [Front(before.stored, t)];
      }
    }

    /** Writes the earliest of the frames held back, `t` being its track. */
    method WriteOne(setLast: bool, duration: nat) returns (ok: bool, ghost t: nat)
      requires Valid() && Lists(stored) && stored != map[]
      modifies writer, `sizePosition, `payloadSize, `headerWritten, `blocksAdded, `lastBlock, `written, `stored
      ensures writer.Valid() && Foremost(old(stored), t)
      ensures ok ==> Valid() && headerWritten
      ensures ok ==>
                Books(stored, written, lastBlock) == Left(old(Books(stored, written, lastBlock)), t, setLast, duration)
      ensures writer.reliable && !finalized && old(AllNear(stored, timecode, scale)) ==> ok
    {
      ScaleSet();
      hide *;
      ghost var before := Books(stored, written, lastBlock);
      var track, f := FirstFrame(setLast, duration);
      t := track;
      ok := DoWriteFrame(f);
      LeftIs(before, track, setLast, duration);
      TakeFirst(track);
    }

    method TakeFirst(t: nat)
      requires Foremost(stored, t)
      modifies `stored
      ensures stored == Without(old(stored), t) && (old(Valid()) ==> Valid()) &&
              (old(writer.Valid()) ==> writer.Valid())
    {
      hide ClusterBody, ClusterHead, AllInReach, Earliest, FrameList;
      stored := if |stored[t]| == 1 then stored - {t} else stored[t := stored[t][1..]];
    }

    /** The earliest frame held back, and the duration it may be given. */
    method FirstFrame(setLast: bool, duration: nat) returns (t: nat, f: MuxFrame)
      requires Lists(stored) && stored != map[] && scale > 0
      ensures Foremost(stored, t) && f == LastGiven(stored, t, lastBlock, setLast, duration)
      ensures Fits32(f) && f.track == t && f.timestamp == Front(stored, t).timestamp
      ensures AllNear(stored, timecode, scale) ==> InReach(f, timecode, scale)
    {
      hide Lists, FrameList, AllNear, InReach, IsValid, Fits32, Closed, Earliest;
      t := PickEarliest();
      FirstStored(stored, t, timecode, scale);
      f := stored[t][0];
      ClosedInReach(f, duration, if t in lastBlock then lastBlock[t] else 0, timecode, scale);
      if setLast && |stored[t]| == 1 && !f.durationSet {
        f := CloseFrame(f, duration);
      }
    }

    lemma ScaleSet()
      requires Valid()
      ensures scale > 0
    {
    }

    lemma InReachIsValid(f: MuxFrame)
      requires Valid()
      ensures InReach(f, timecode, scale) ==> IsValid(f)
    {
    }

    /** Gives a frame a duration, and a reference when it needs one. */
    method CloseFrame(f: MuxFrame, duration: nat) returns (g: MuxFrame)
      ensures g == Closed(f, duration, if f.track in lastBlock then lastBlock[f.track] else 0)
      ensures g.track == f.track && g.timestamp == f.timestamp && (Fits32(f) ==> Fits32(g))
    {
      g := f.(duration := ToUInt64(duration - f.timestamp), durationSet := true);
      if !g.key && g.reference.None? {
        var before := if g.track in lastBlock then lastBlock[g.track] else 0;
        g := g.(reference := Some(before as int));
      }
    }

    /** The size field as it is once the cluster is complete. */
    function SizeField(): seq<Byte>
      reads `payloadSize
    {
      if writer.seekable then EncodeSized(payloadSize, 8) else BigEndian(0x01FF_FFFF_FFFF_FFFF, 8)
    }

    /** The complete cluster at the end of the file: its size is the number of bytes behind its size field. */
    ghost predicate Complete()
      reads `payloadSize, `written, `origin, `blocksAdded, writer
    {
      && scale > 0 && writer.Valid() && AtEnd(writer) && blocksAdded == |written| &&
          AllInReach(written, timecode, scale)
      && payloadSize == |ClusterBody(written, timecode, fixedSize, scale)| &&
          (writer.seekable ==> payloadSize <= MAX_CODED)
      && writer.Position() == origin + 12 + payloadSize
      && writer.Data()[origin..] == EncodeId(ID_CLUSTER) + SizeField()
          + ClusterBody(written, timecode, fixedSize, scale)
    }

    /** Writes what is held back and then the size; `gone` are the frames written, as they came. */
    method Finalize(setLast: bool, duration: nat, ghost came: seq<MuxFrame> := [])
        returns (ok: bool, ghost gone: seq<MuxFrame>)
      requires Valid() && Lists(stored)
      modifies writer, `sizePosition, `payloadSize, `headerWritten, `blocksAdded, `lastBlock, `written, `stored,
               `finalized
      ensures writer.Valid()
      ensures ok ==> Complete() && finalized && !old(finalized)
      ensures ok && !holdBack ==>
                && written == old(written) && stored == old(stored) && headerWritten && old(headerWritten)
                && origin <= |old(writer.Data())| && origin <= |writer.Data()|
                && writer.Data()[..origin] == old(writer.Data())[..origin]
      ensures ok && holdBack ==> stored == map[] && old(headerWritten || stored != map[])
      ensures ok && holdBack && old(Holding(came, Books(stored, written, lastBlock))) ==>
                && Merging(came, gone, map[]) && WrittenAs(written, gone, map[], setLast, duration)
                && AllEnded(written, gone, setLast, duration)
      ensures writer.reliable && !holdBack && !old(finalized) && old(headerWritten) ==>
                ((writer.seekable ==> old(payloadSize) <= MAX_CODED) ==> ok)
      ensures writer.reliable && holdBack && !old(finalized) && old(headerWritten || stored != map[])
              && old(AllNear(stored, timecode, scale)) ==>
                (ok <==> (writer.seekable ==> |ClusterBody(written, timecode, fixedSize, scale)| <= MAX_CODED))
      ensures writer.reliable && holdBack && !old(finalized) && old(AllNear(stored, timecode, scale))
              && old(Holding(came, Books(stored, written, lastBlock))) ==>
                Merging(came, gone, map[]) && WrittenAs(written, gone, map[], setLast, duration)
    {
      hide ClusterBody, Merging, Stamped, Lists, IsValid, AllInReach, AllNear, Holding, WrittenAs, AllEnded, EncodeId,
           BigEndian, EncodeSized;
      gone := written;
      if finalized { return false, gone; }
      if holdBack {
        ok, gone := WriteHeld(setLast, duration, came);
        if !ok { return; }
        if WrittenAs(written, gone, map[], setLast, duration) { DurationsEnd(written, gone, setLast, duration); }
      }
      if sizePosition == -1 { return false, gone; }
      ok := PatchSize();
      if !ok { return; }
      finalized := true;
    }

    /** Goes back to the size field and then to the end again, when the writer can. */
    method PatchSize() returns (ok: bool)
      requires Valid() && headerWritten
      modifies writer
      ensures writer.Valid() && (ok ==> Complete())
      ensures ok ==> origin <= |old(writer.Data())| && origin <= |writer.Data()|
      ensures ok ==> writer.Data()[..origin] == old(writer.Data())[..origin]
      ensures writer.reliable && (writer.seekable ==> payloadSize <= MAX_CODED) ==> ok
    {
      hide ClusterBody, IsValid, AllInReach, EncodeId, BigEndian, EncodeSized, Pow128, Splice;
      IdSize();
      if writer.seekable {
        ghost var data := writer.Data();
        var pos := writer.Position();
        var status := writer.SetPosition(sizePosition);
        if status != 0 { return false; }
        label AtSize:
        EightBytes();
        status := WriteUIntSize(writer, payloadSize, 8);
        if status != 0 { return false; }
        EncodedSize(payloadSize);
        writer.AppendedData@AtSize(EncodeSized(payloadSize, 8));
        Patched(data, origin, EncodeId(ID_CLUSTER), BigEndian(0x01FF_FFFF_FFFF_FFFF, 8),
                ClusterBody(written, timecode, fixedSize, scale), EncodeSized(payloadSize, 8));
        status := writer.SetPosition(pos);
        if status != 0 { return false; }
      }
      ok := true;
    }
  }

  ghost predicate FrameList(frames: seq<MuxFrame>, t: nat) {
    frames != [] && forall i :: 0 <= i < |frames| ==> Fits32(frames[i]) && IsValid(frames[i]) && frames[i].track == t
  }

  /** The stored frames are in the lists of their tracks, and no list is empty. */
  ghost predicate Lists(stored: map<nat, seq<MuxFrame>>) {
    forall t :: t in stored ==> 1 <= t <= MAX_TRACK_NUMBER && FrameList(stored[t], t)
  }

  /** Frames came in the order of time, and every track holds its last one back. */
  ghost predicate Holding(came: seq<MuxFrame>, b: Books) {
    && Merging(came, b.written, b.stored) && Stamped(b.lastBlock, b.written)
    && forall i :: 0 <= i < |b.written| ==> b.written[i].track in b.stored
  }

  lemma ArrivedHeld(came: seq<MuxFrame>, b: Books, f: MuxFrame)
    requires Holding(came, b) && f.timestamp >= Latest(came)
    ensures Holding(came + [f], b.(stored := Joined(b.stored, f)))
  {
    hide Merging, Stamped, Held, Latest;
    Arrives(came, b.written, b.stored, f);
  }

  /** Frames that may go leave what holds. */
  lemma {:induction false} WentHolds(came: seq<MuxFrame>, b: Books, t: nat, n: nat)
    requires Holding(came, b) && t in b.stored && n < |b.stored[t]|
    requires forall i :: 0 <= i < n ==> NoneBefore(b.stored, t, b.stored[t][i].timestamp)
    ensures Holding(came, Went(b.stored[t], b, t, n))
  {
    hide Merging, Stamped, NoneBefore;
    var queue := b.stored[t];
    if n == 0 {
      NothingWent(queue, b, t);
    } else {
      WentHolds(came, b, t, n - 1);
      var before := Went(queue, b, t, n - 1);
      OneWent(queue, b, t, n - 1);
      NextLeaves(came, before.written, b.stored, queue, n - 1, t);
      StampedMore(before.lastBlock, before.written, queue[n - 1]);
    }
  }

  /** When a frame comes that is not earlier than those before, the merge goes on. */
  lemma QueuedHolds(came: seq<MuxFrame>, before: Books, after: Books, f: MuxFrame)
    requires Holding(came, before) && f.timestamp >= Latest(came) && Queued(before, after, f)
    ensures Holding(came + [f], after)
  {
    ArrivedHeld(came, before, f);
    var n := QueuedAs(before, after, f);
    hide *;
    WentHolds(came + [f], before.(stored := Joined(before.stored, f)), f.track, n);
  }

  /** What has been queued are the frames that may go once the new one has joined its track. */
  lemma QueuedAs(before: Books, after: Books, f: MuxFrame) returns (n: nat)
    requires Queued(before, after, f)
    ensures var joined := before.(stored := Joined(before.stored, f));
            var queue := joined.stored[f.track];
            && n < |queue| && (forall i :: 0 <= i < n ==> NoneBefore(joined.stored, f.track, queue[i].timestamp))
            && after == Went(queue, joined, f.track, n)
  {
    var queue := Held(before.stored, f.track) + [f];
    n :| MayGo(queue, before.stored, f.track, n) && after == Went(queue, before, f.track, n);
    forall i | 0 <= i < n ensures NoneBefore(Joined(before.stored, f), f.track, queue[i].timestamp) {
      SameOthers(before.stored, queue, f.track, queue[i].timestamp);
    }
    assert Joined(before.stored, f)[f.track := queue[n..]] == before.stored[f.track := queue[n..]];
  }

  /** Every stored frame lies within reach of the cluster. */
  ghost predicate AllNear(stored: map<nat, seq<MuxFrame>>, timecode: nat, scale: nat)
    requires scale > 0
  {
    forall t :: t in stored ==> AllInReach(stored[t], timecode, scale)
  }

  function ButLast(frames: seq<MuxFrame>): seq<MuxFrame> {
    if |frames| == 0 then [] else frames[..|frames| - 1]
  }

  /** A valid frame joins the list of its track. */
  lemma JoinedFine(stored: map<nat, seq<MuxFrame>>, f: MuxFrame)
    requires Lists(stored) && IsValid(f) && Fits32(f)
    ensures Lists(Joined(stored, f)) && ButLast(Held(stored, f.track) + [f]) == Held(stored, f.track)
  {
    hide Fits32;
    assert FrameList(Held(stored, f.track) + [f], f.track);
  }

  lemma OthersSame(before: Books, after: Books, f: MuxFrame, n: nat)
    requires var queue, joined := Held(before.stored, f.track) + [f], Joined(before.stored, f);
             && MayGo(queue, joined, f.track, n)
             && after == Went(queue, Books(joined, before.written, before.lastBlock), f.track, n)
    ensures Queued(before, after, f)
  {
    var queue := Held(before.stored, f.track) + [f];
    OwnListIgnored(queue, before.stored, queue, f.track, n);
    assert after.stored == before.stored[f.track := queue[n..]];
    assert after == Went(queue, before, f.track, n);
  }

  /** The lists stay in order, and within reach if the frame is. */
  lemma QueuedFine(before: Books, after: Books, f: MuxFrame)
    requires Lists(before.stored) && IsValid(f) && Fits32(f) && Queued(before, after, f)
    ensures Lists(after.stored)
  {
    JoinedFine(before.stored, f);
    hide Fits32, IsValid, MayGo;
  }

  lemma QueuedNear(before: Books, after: Books, f: MuxFrame, timecode: nat, scale: nat)
    requires scale > 0 && AllNear(before.stored, timecode, scale) && InReach(f, timecode, scale) &&
             Queued(before, after, f)
    ensures AllNear(after.stored, timecode, scale)
  {
    hide InReach;
  }

  lemma EarlyInReach(frames: seq<MuxFrame>, n: nat, timecode: nat, scale: nat)
    requires scale > 0 && n + 1 < |frames|
    ensures AllInReach(ButLast(frames), timecode, scale) ==> InReach(frames[n], timecode, scale)
  {
    hide InReach;
    assert ButLast(frames)[n] == frames[n];
  }

  /** One track's first frame. */
  lemma FirstStored(stored: map<nat, seq<MuxFrame>>, t: nat, timecode: nat, scale: nat)
    requires Lists(stored) && t in stored && scale > 0
    ensures 1 <= t <= MAX_TRACK_NUMBER && FrameList(stored[t], t) && stored[t] != []
    ensures stored[t][0].track == t && Fits32(stored[t][0]) && IsValid(stored[t][0])
    ensures AllNear(stored, timecode, scale) ==> InReach(stored[t][0], timecode, scale)
  {
    hide InReach, IsValid, Fits32;
  }

  /** What is left when it has been taken away. */
  lemma FirstTaken(stored: map<nat, seq<MuxFrame>>, t: nat, timecode: nat, scale: nat)
    requires Lists(stored) && t in stored && scale > 0 && stored[t] != []
    ensures Lists(Without(stored, t))
    ensures AllNear(stored, timecode, scale) ==> AllNear(Without(stored, t), timecode, scale)
  {
    hide InReach, IsValid, Fits32;
  }

  /** A frame that is given a duration stays valid and where it is. */
  lemma ClosedInReach(f: MuxFrame, end: nat, before: nat, timecode: nat, scale: nat)
    requires scale > 0 && IsValid(f)
    ensures IsValid(Closed(f, end, before))
    ensures InReach(Closed(f, end, before), timecode, scale) <==> InReach(f, timecode, scale)
  {
  }

  /** No track's first frame is earlier than that of this one. */
  ghost predicate Foremost(stored: map<nat, seq<MuxFrame>>, t: nat) {
    && 1 <= t <= MAX_TRACK_NUMBER && t in stored && FrameList(stored[t], t) && stored[t] != []
    && Earliest(stored, stored[t][0].timestamp)
  }

  ghost function Front(stored: map<nat, seq<MuxFrame>>, t: nat): MuxFrame
    requires Foremost(stored, t)
  {
    stored[t][0]
  }

  /** It is given a duration when its track holds no other. */
  ghost function LastGiven(stored: map<nat, seq<MuxFrame>>, t: nat, lastBlock: map<nat, nat>, setLast: bool,
                           duration: nat): MuxFrame
    requires Foremost(stored, t)
  {
    var f := stored[t][0];
    if setLast && |stored[t]| == 1 && !f.durationSet then
        Closed(f, duration, if t in lastBlock then lastBlock[t] else 0) else f
  }

  /** The first frame of a track has been written. */
  ghost function Left(b: Books, t: nat, setLast: bool, duration: nat): Books
    requires Foremost(b.stored, t)
  {
    Books(Without(b.stored, t), b.written + [LastGiven(b.stored, t, b.lastBlock, setLast, duration)],
          b.lastBlock[t := Front(b.stored, t).timestamp])
  }

  lemma LeftIs(b: Books, t: nat, setLast: bool, duration: nat)
    requires Foremost(b.stored, t)
    ensures t in b.stored && b.stored[t] != [] && Front(b.stored, t) == b.stored[t][0]
    ensures Left(b, t, setLast, duration)
            == Books(Without(b.stored, t), b.written + [LastGiven(b.stored, t, b.lastBlock, setLast, duration)],
                     b.lastBlock[t := Front(b.stored, t).timestamp])
  {
  }

  /** The merge as far as it has come: `gone` are the frames that have left, and what is written has become of them. */
  ghost predicate Halfway(came: seq<MuxFrame>, gone: seq<MuxFrame>, b: Books, setLast: bool, duration: nat) {
    Merging(came, gone, b.stored) && WrittenAs(b.written, gone, b.stored, setLast, duration) &&
        Stamped(b.lastBlock, gone)
  }

  /** The earliest frame leaves, with a duration when it is the last of its track. */
  lemma FirstLeaves(came: seq<MuxFrame>, gone: seq<MuxFrame>, b: Books, setLast: bool, duration: nat, t: nat)
    requires Halfway(came, gone, b, setLast, duration)
    requires Foremost(b.stored, t)
    ensures Halfway(came, gone + [Front(b.stored, t)], Left(b, t, setLast, duration), setLast, duration)
  {
    ListFine(b.stored[t], t);
    hide Merging, WrittenAs, Stamped, FrameList, Earliest, Closed, LastTime, Without;
    Leaves(came, gone, b.stored, t);
    LeavesAs(b.written, gone, b.stored, setLast, duration, t);
    StampedMore(b.lastBlock, gone, b.stored[t][0]);
    LastBlockIs(b.lastBlock, gone, t);
  }

  lemma LastBlockIs(lastBlock: map<nat, nat>, gone: seq<MuxFrame>, t: nat)
    requires Stamped(lastBlock, gone)
    ensures LastTime(gone, t) == if t in lastBlock then lastBlock[t] else 0
  {
  }

  lemma IdSize()
    ensures |EncodeId(ID_CLUSTER)| == 4 && |BigEndian(0x01FF_FFFF_FFFF_FFFF, 8)| == 8
  {
  }

  lemma EncodedSize(value: nat)
    ensures |EncodeSized(value, 8)| == 8
  {
  }

  lemma EightBytes()
    ensures MAX_CODED == Pow128(8) - 2
  {
    SmallPowers(8);
  }

  /** Overwriting the size field leaves the rest as it is. */
  lemma Patched(data: seq<Byte>, origin: nat, id: seq<Byte>, unknown: seq<Byte>, body: seq<Byte>, size: seq<Byte>)
    requires origin <= |data| && data[origin..] == id + unknown + body && |id| == 4 && |unknown| == |size| == 8
    ensures var after := Splice(data, origin + 4, size);
            && |after| == |data| && after[origin..] == id + size + body && after[..origin] == data[..origin]
  {
    assert |data| == origin + 12 + |body|;
    var after := Splice(data, origin + 4, size);
    assert data[origin..origin + 4] == data[origin..][..4] == id;
    assert data[origin + 12..] == data[origin..][12..] == body;
    assert after == data[..origin + 4] + size + data[origin + 12..];
    assert data[..origin + 4] == data[..origin] + id;
  }

  lemma ListFine(frames: seq<MuxFrame>, t: nat)
    requires FrameList(frames, t)
    ensures frames != [] && forall i :: 0 <= i < |frames| ==>
            Fits32(frames[i]) && IsValid(frames[i]) && frames[i].track == t
  {
  }

  /** The times kept by track are those of the last frames written. */
  ghost predicate Stamped(lastBlock: map<nat, nat>, written: seq<MuxFrame>) {
    forall t: nat :: LastTime(written, t) == if t in lastBlock then lastBlock[t] else 0
  }

  lemma StampedMore(lastBlock: map<nat, nat>, gone: seq<MuxFrame>, f: MuxFrame)
    requires Stamped(lastBlock, gone)
    ensures Stamped(lastBlock[f.track := f.timestamp], gone + [f])
  {
    forall t: nat ensures LastTime(gone + [f], t) == if t in lastBlock[f.track := f.timestamp] then
        lastBlock[f.track := f.timestamp][t] else 0 {
      LastTimeMore(gone, f, t);
    }
  }

  lemma HeadSizes(timecode: nat, fixedSize: bool)
    ensures |ClusterHead()| == 12
    ensures |TimecodeBytes(timecode, fixedSize)| == UIntElementSize(ID_TIMECODE, timecode, if fixedSize then 8 else 0)
    ensures |EncodeId(ID_CLUSTER)| == 4
  {
    ElementSizesMatchEncodings(ID_TIMECODE, timecode, 0, [], if fixedSize then 8 else 0);
  }

  lemma HeadOnly(data: seq<Byte>, timecode: nat, fixedSize: bool, scale: nat)
    requires scale > 0
    ensures (data + (ClusterHead() + TimecodeBytes(timecode, fixedSize)))[|data|..]
            == ClusterHead() + ClusterBody([], timecode, fixedSize, scale)
    ensures |ClusterBody([], timecode, fixedSize, scale)| == |TimecodeBytes(timecode, fixedSize)|
    ensures data + (ClusterHead() + TimecodeBytes(timecode, fixedSize))
            == data + ClusterHead() + TimecodeBytes(timecode, fixedSize)
  {
    hide ClusterHead, TimecodeBytes;
    assert BlocksOf([], timecode, scale) == [];
  }

  lemma BodyGrows(frames: seq<MuxFrame>, f: MuxFrame, timecode: nat, fixedSize: bool, scale: nat)
    requires scale > 0
    ensures ClusterBody(frames + [f], timecode, fixedSize, scale)
         == ClusterBody(frames, timecode, fixedSize, scale) + FrameBytes(f, f.timestamp / scale - timecode, scale)
  {
    hide TimecodeBytes, BlocksOf, FrameBytes;
    OneMoreBlock(frames, f, timecode, scale);
    Then(TimecodeBytes(timecode, fixedSize), BlocksOf(frames, timecode, scale),
         FrameBytes(f, f.timestamp / scale - timecode, scale));
  }

  lemma MovedEnd(data: seq<Byte>, origin: nat, head: seq<Byte>, body: seq<Byte>, more: seq<Byte>)
    requires origin <= |data| && data[origin..] == head + body
    ensures (data + more)[origin..] == head + (body + more)
  {
    assert (data + more)[origin..] == data[origin..] + more;
  }

  /** A duration changes neither the time nor the track of a frame. */
  lemma WrittenInOrder(written: seq<MuxFrame>, gone: seq<MuxFrame>, setLast: bool, end: nat)
    requires InOrder(gone) && WrittenAs(written, gone, map[], setLast, end)
    ensures InOrder(written)
  {
    hide LastOfTrack, LastTime;
    forall i, j | 0 <= i < j < |written| ensures written[i].timestamp <= written[j].timestamp {
      assert written[i] == Finished(gone, map[], setLast, end, i) &&
          written[j] == Finished(gone, map[], setLast, end, j);
    }
  }

  /** Nothing is held when nothing has come. */
  lemma NothingHeld(b: Books)
    requires Holding([], b)
    ensures b.stored == map[]
  {
    forall t: nat ensures t !in b.stored {
      assert Track(b.written, t) + Held(b.stored, t) == Track([], t);
    }
  }

  lemma SomethingHeld(before: Books, after: Books, f: MuxFrame)
    requires Queued(before, after, f)
    ensures after.stored != map[]
  {
    assert f.track in after.stored;
  }

  /** A frame given a duration is in reach when it was. */
  lemma CameInReach(frames: seq<MuxFrame>, gone: seq<MuxFrame>, written: seq<MuxFrame>, setLast: bool, duration: nat,
                    timecode: nat, scale: nat)
    requires scale > 0 && multiset(gone) == multiset(frames) && WrittenAs(written, gone, map[], setLast, duration)
    requires AllInReach(written, timecode, scale) && forall i :: 0 <= i < |frames| ==> IsValid(frames[i])
    ensures AllInReach(frames, timecode, scale)
  {
    hide IsValid, InReach, Closed, LastOfTrack, LastTime;
    forall i | 0 <= i < |frames| ensures InReach(frames[i], timecode, scale) {
      assert frames[i] in multiset(gone);
      var j :| 0 <= j < |gone| && gone[j] == frames[i];
      assert written[j] == Finished(gone, map[], setLast, duration, j);
      ClosedInReach(gone[j], duration, LastTime(gone[..j], gone[j].track), timecode, scale);
    }
  }

  lemma HeldNear(stored: map<nat, seq<MuxFrame>>, t: nat, timecode: nat, scale: nat)
    requires scale > 0 && AllNear(stored, timecode, scale)
    ensures AllInReach(Held(stored, t), timecode, scale)
  {
    hide InReach;
  }

  // ----- sizes

  /** No frame takes more than 2^33 bytes. */
  lemma FrameBytesBound(f: MuxFrame, timecode: int, scale: nat)
    requires scale > 0 && IsValid(f) && Fits32(f)
    ensures |FrameBytes(f, timecode, scale)| <= 0x2_0000_0000
  {
    hide EncodeElement, BlockBytes, GroupPayload, GroupPayloadSize;
    if CanBeSimpleBlock(f) {
      var flags := if f.key then 0x80 else 0;
      BlockLength(f.track, timecode, flags, f.payload);
      SizeOfElement(ID_SIMPLE_BLOCK, BlockBytes(f.track, timecode, flags, f.payload));
    } else {
      GroupSizes(f, timecode, scale);
      GroupSizeBound(f, scale);
      SizeOfElement(ID_BLOCK_GROUP, GroupPayload(f, timecode, scale));
    }
    hide FrameBytes;
  }

  lemma GroupSizeBound(f: MuxFrame, scale: nat)
    requires scale > 0 && Fits32(f)
    ensures GroupPayloadSize(f, scale) <= 0x1_0000_0100
  {
    hide GetUIntSize, GetCodedUIntSize, GetIntSize, ReferenceValue, DurationValue;
  }

  lemma {:induction false} BlocksBound(frames: seq<MuxFrame>, timecode: nat, scale: nat)
    requires scale > 0 && forall i :: 0 <= i < |frames| ==> IsValid(frames[i]) && Fits32(frames[i])
    ensures |BlocksOf(frames, timecode, scale)| <= 0x2_0000_0000 * |frames|
  {
    hide FrameBytes, IsValid, Fits32;
    if |frames| > 0 {
      var f := frames[|frames| - 1];
      BlocksBound(frames[..|frames| - 1], timecode, scale);
      FrameBytesBound(f, f.timestamp / scale - timecode, scale);
    }
  }

  /** All frames are valid and their lengths fit. */
  predicate AllSmall(frames: seq<MuxFrame>) {
    forall i :: 0 <= i < |frames| ==> Fits32(frames[i]) && IsValid(frames[i])
  }

  /** A cluster of less than four million frames has a size that can be written. */
  lemma SmallBody(frames: seq<MuxFrame>, timecode: nat, fixedSize: bool, scale: nat)
    requires scale > 0 && |frames| < 0x40_0000 && AllSmall(frames)
    ensures |ClusterBody(frames, timecode, fixedSize, scale)| <= MAX_CODED
  {
    BlocksBound(frames, timecode, scale);
    HeadSizes(timecode, fixedSize);
    hide BlocksOf, TimecodeBytes, IsValid, Fits32;
  }

  /** What is written is as small as what came. */
  lemma WrittenSmall(frames: seq<MuxFrame>, gone: seq<MuxFrame>, written: seq<MuxFrame>, setLast: bool, duration: nat)
    requires multiset(gone) == multiset(frames) && WrittenAs(written, gone, map[], setLast, duration) &&
             AllSmall(frames)
    ensures |written| == |frames| && AllSmall(written)
  {
    hide IsValid, Fits32, Closed, LastOfTrack, LastTime;
    assert |multiset(gone)| == |gone| && |multiset(frames)| == |frames|;
    forall i | 0 <= i < |written| ensures Fits32(written[i]) && IsValid(written[i]) {
      assert gone[i] in multiset(frames);
      assert written[i] == Finished(gone, map[], setLast, duration, i);
      ClosedSmall(gone[i], duration, LastTime(gone[..i], gone[i].track));
    }
  }

  lemma ClosedSmall(f: MuxFrame, end: nat, before: nat)
    requires IsValid(f) && Fits32(f)
    ensures IsValid(Closed(f, end, before)) && Fits32(Closed(f, end, before))
  {
  }

  /** A whole cluster whose frames are held back: whatever came in the order of time is written, every frame
      once, in the order of time and of its track, and only the last frame of a track may gain a duration.  A sound
      writer takes exactly the frames that are within reach, if the size of the cluster can be written. */
  method MergeAll(c: Cluster, frames: seq<MuxFrame>, duration: nat) returns (ok: bool, ghost gone: seq<MuxFrame>)
    requires c.Valid() && Lists(c.stored) && Holding([], Books(c.stored, c.written, c.lastBlock)) && c.holdBack
    requires InOrder(frames) && forall i :: 0 <= i < |frames| ==> Fits32(frames[i])
    modifies c, c.writer
    ensures ok ==> c.Complete() && multiset(gone) == multiset(frames) && InOrder(gone) && InOrder(c.written)
    ensures ok ==> forall t: nat :: Track(gone, t) == Track(frames, t)
    ensures ok ==> WrittenAs(c.written, gone, map[], true, duration) && AllEnded(c.written, gone, true, duration)
    ensures c.scale > 0
    ensures ok ==> AllInReach(frames, c.timecode, c.scale) && (old(c.headerWritten) || frames != [])
    ensures c.writer.reliable && !old(c.finalized) && frames != [] && AllInReach(frames, c.timecode, c.scale) ==>
              (ok <==> (c.writer.seekable ==> |ClusterBody(c.written, c.timecode, c.fixedSize, c.scale)| <= MAX_CODED))
    ensures c.writer.reliable && !old(c.finalized) && 0 < |frames| < 0x40_0000 ==>
              (ok <==> AllInReach(frames, c.timecode, c.scale))
  {
    hide InOrder, Merging, Holding, WrittenAs, AllEnded, Track, Stamped, ClusterBody, ClusterHead, AllInReach,
        InReach, AllNear,
         FrameList, IsValid, Fits32, Queued, Lists;
    gone := [];
    NothingHeld(Books(c.stored, c.written, c.lastBlock));
    NothingNear(c.timecode, c.scale);
    ghost var near := AllInReach(frames, c.timecode, c.scale);
    for i := 0 to |frames|
      invariant c.Valid() && Lists(c.stored) && Holding(frames[..i], Books(c.stored, c.written, c.lastBlock))
      invariant c.finalized == old(c.finalized)
      invariant if i == 0 then c.stored == map[] && c.headerWritten == old(c.headerWritten) else c.stored != map[]
      invariant near ==> AllNear(c.stored, c.timecode, c.scale)
      invariant forall k :: 0 <= k < i ==> IsValid(frames[k])
    {
      NotEarlier(frames, i);
      ghost var before := Books(c.stored, c.written, c.lastBlock);
      if near {
        OneInReach(frames, i, c.timecode, c.scale);
        HeldNear(c.stored, frames[i].track, c.timecode, c.scale);
      }
      ok := c.QueueOrWriteFrame(frames[i]);
      if !ok { return; }
      ghost var after := Books(c.stored, c.written, c.lastBlock);
      assert frames[..i + 1] == frames[..i] + [frames[i]];
      QueuedHolds(frames[..i], before, after, frames[i]);
      SomethingHeld(before, after, frames[i]);
      if near { QueuedNear(before, after, frames[i], c.timecode, c.scale); }
    }
    assert frames[..|frames|] == frames;
    ok, gone := c.Finalize(true, duration, frames);
    if near && c.writer.reliable && !old(c.finalized) && |frames| < 0x40_0000 {
      MergeIsPermutation(frames, gone, map[]);
      AllFine(frames);
      WrittenSmall(frames, gone, c.written, true, duration);
      SmallBody(c.written, c.timecode, c.fixedSize, c.scale);
    }
    if ok {
      MergeIsPermutation(frames, gone, map[]);
      WrittenInOrder(c.written, gone, true, duration);
      CameInReach(frames, gone, c.written, true, duration, c.timecode, c.scale);
    }
  }

  lemma AllFine(frames: seq<MuxFrame>)
    requires forall i :: 0 <= i < |frames| ==> Fits32(frames[i])
    requires forall i :: 0 <= i < |frames| ==> IsValid(frames[i])
    ensures AllSmall(frames)
  {
  }

  lemma NothingNear(timecode: nat, scale: nat)
    requires scale > 0
    ensures AllNear(map[], timecode, scale)
  {
  }

  lemma OneInReach(frames: seq<MuxFrame>, i: nat, timecode: nat, scale: nat)
    requires scale > 0 && AllInReach(frames, timecode, scale) && i < |frames|
    ensures InReach(frames[i], timecode, scale) && IsValid(frames[i])
  {
    hide IsValid;
  }

  lemma NotEarlier(frames: seq<MuxFrame>, i: nat)
    requires InOrder(frames) && i < |frames|
    ensures frames[i].timestamp >= Latest(frames[..i])
  {
  }
}
