/** One frame as a SimpleBlock or a BlockGroup, as the muxer writes it (libwebm/mkvmuxer/mkvmuxerutil.cc; RFC 9559,
    sections 10.1 and 10.2). */
module Blocks {
  import opened Bytes
  import opened Ebml
  import opened EbmlReader
  import opened EbmlWriter

  const MAX_TRACK_NUMBER: nat := 126
  const MAX_BLOCK_TIMECODE: int := 0x7FFF

  /** A frame to be muxed; `additional` and `reference` may not have been set. */
  datatype MuxFrame = MuxFrame(payload: seq<Byte>, additional: Option<seq<Byte>>, addId: nat, duration: nat,
                               durationSet: bool,
                               key: bool, track: nat, timestamp: nat, discardPadding: int, reference: Option<int>)

  predicate CanBeSimpleBlock(f: MuxFrame) {
    f.additional.None? && f.discardPadding == 0 && f.duration == 0
  }

  predicate IsValid(f: MuxFrame) {
    && f.payload != []
    && (f.additional.Some? ==> f.additional.value != [])
    && 0 < f.track <= MAX_TRACK_NUMBER
    && (CanBeSimpleBlock(f) || f.key || f.reference.Some?)
  }

  // ----- what is written

  function BlockBytes(track: nat, timecode: int, flags: Byte, payload: seq<Byte>): seq<Byte> {
    EncodeVint(track) + BigEndian(timecode, 2) + [flags] + payload
  }

  function SimpleBlockBytes(f: MuxFrame, timecode: int): seq<Byte> {
    EncodeElement(ID_SIMPLE_BLOCK, BlockBytes(f.track, timecode, if f.key then 0x80 else 0, f.payload))
  }

  function MoreBytes(f: MuxFrame): seq<Byte>
    requires f.additional.Some?
  {
    EncodeUInt(ID_BLOCK_ADD_ID, f.addId) + EncodeElement(ID_BLOCK_ADDITIONAL, f.additional.value)
  }

  function AdditionsBytes(f: MuxFrame): seq<Byte> {
    if f.additional.None? then []
    else EncodeElement(ID_BLOCK_ADDITIONS, EncodeElement(ID_BLOCK_MORE, MoreBytes(f)))
  }

  function DiscardBytes(f: MuxFrame): seq<Byte> {
    if f.discardPadding == 0 then [] else EncodeInt(ID_DISCARD_PADDING, f.discardPadding)
  }

  /** The reference, written as an unsigned number whatever its sign. */
  function ReferenceValue(f: MuxFrame, scale: nat): nat
    requires scale > 0
  {
    ToUInt64(if f.reference.Some? then f.reference.value else 0) / scale
  }

  function ReferenceBytes(f: MuxFrame, scale: nat): seq<Byte>
    requires scale > 0
  {
    if f.key then [] else EncodeUInt(ID_REFERENCE_BLOCK, ReferenceValue(f, scale))
  }

  function DurationValue(f: MuxFrame, scale: nat): nat
    requires scale > 0
  {
    f.duration / scale
  }

  function DurationBytes(f: MuxFrame, scale: nat): seq<Byte>
    requires scale > 0
  {
    if DurationValue(f, scale) == 0 then [] else EncodeUInt(ID_BLOCK_DURATION, DurationValue(f, scale))
  }

  function BlockElement(f: MuxFrame, timecode: int): seq<Byte> {
    EncodeElement(ID_BLOCK, BlockBytes(f.track, timecode, 0, f.payload))
  }

  function GroupPayload(f: MuxFrame, timecode: int, scale: nat): seq<Byte>
    requires scale > 0
  {
    BlockElement(f, timecode) + AdditionsBytes(f) + DiscardBytes(f) + ReferenceBytes(f, scale) + DurationBytes(f, scale)
  }

  function GroupBytes(f: MuxFrame, timecode: int, scale: nat): seq<Byte>
    requires scale > 0
  {
    EncodeElement(ID_BLOCK_GROUP, GroupPayload(f, timecode, scale))
  }

  /** A frame as it stands in the file. */
  function FrameBytes(f: MuxFrame, timecode: int, scale: nat): seq<Byte>
    requires scale > 0
  {
    if CanBeSimpleBlock(f) then SimpleBlockBytes(f, timecode) else GroupBytes(f, timecode, scale)
  }

  // ----- writing

  /** Track numbers take one byte. */
  lemma TrackByte(track: nat)
    requires track <= MAX_TRACK_NUMBER
    ensures |EncodeVint(track)| == 1 && GetCodedUIntSize(track) == 1
  {
  }

  lemma BlockLength(track: nat, timecode: int, flags: Byte, payload: seq<Byte>)
    requires track <= MAX_TRACK_NUMBER
    ensures |BlockBytes(track, timecode, flags, payload)| == 4 + |payload|
  {
    TrackByte(track);
  }

  /** Track, timecode, flags and payload, one behind the other. */
  method WriteBlockBody(w: Writer, f: MuxFrame, timecode: int, flags: Byte) returns (ok: bool)
    requires w.Valid() && f.track <= MAX_TRACK_NUMBER
    modifies w
    ensures w.Valid()
    ensures ok ==> w.Appended(BlockBytes(f.track, timecode, flags, f.payload))
    ensures w.reliable ==> ok
  {
    hide EncodeVint, BigEndian;
    ghost var before := w.pending;
    var status := WriteUInt(w, f.track);
    if status != 0 { return false; }
    status := SerializeInt(w, timecode, 2);
    if status != 0 { return false; }
    Then(before, EncodeVint(f.track), BigEndian(timecode, 2));
    status := SerializeInt(w, flags, 1);
    if status != 0 { return false; }
    OneByte(flags);
    Then(before, EncodeVint(f.track) + BigEndian(timecode, 2), [flags]);
    status := w.Write(f.payload);
    if status != 0 { return false; }
    Then(before, EncodeVint(f.track) + BigEndian(timecode, 2) + [flags], f.payload);
    ok := true;
  }

  lemma OneByte(b: Byte)
    ensures BigEndian(b, 1) == [b]
  {
    assert BigEndian(b / 256, 0) == [];
  }

  /** Answers the number of bytes written, or 0. */
  method WriteSimpleBlock(w: Writer, f: MuxFrame, timecode: int) returns (written: nat)
    requires w.Valid() && f.track <= MAX_TRACK_NUMBER && |f.payload| < 0x7FFF_FFFC
    modifies w
    ensures w.Valid()
    ensures written != 0 ==> w.Appended(SimpleBlockBytes(f, timecode)) && written == |SimpleBlockBytes(f, timecode)|
    ensures w.reliable ==> written != 0
  {
    hide EncodeVint, BigEndian, BlockBytes;
    ghost var before := w.pending;
    var status := WriteID(w, ID_SIMPLE_BLOCK);
    if status != 0 { return 0; }
    var size := |f.payload| + 4;
    BlockLength(f.track, timecode, if f.key then 0x80 else 0, f.payload);
    status := WriteUInt(w, size);
    if status != 0 { return 0; }
    Then(before, EncodeId(ID_SIMPLE_BLOCK), EncodeVint(size));
    var flags := 0;
    if f.key { flags := 0x80; }
    var ok := WriteBlockBody(w, f, timecode, flags);
    if !ok { return 0; }
    Then(before, EncodeMaster(ID_SIMPLE_BLOCK, size), BlockBytes(f.track, timecode, flags, f.payload));
    SizeOfElement(ID_SIMPLE_BLOCK, BlockBytes(f.track, timecode, flags, f.payload));
    written := GetUIntSize(ID_SIMPLE_BLOCK) + GetCodedUIntSize(size) + 4 + |f.payload|;
  }

  lemma SizeOfElement(id: nat, payload: seq<Byte>)
    ensures |EncodeElement(id, payload)| == GetUIntSize(id) + GetCodedUIntSize(|payload|) + |payload|
  {
  }

  // The sizes of the parts of a BlockGroup, counted before anything is written.

  function MoreSize(f: MuxFrame): nat
    requires f.additional.Some?
  {
    UIntElementSize(ID_BLOCK_ADD_ID, f.addId) + BinaryElementSize(ID_BLOCK_ADDITIONAL, |f.additional.value|)
  }

  function MoreElementSize(f: MuxFrame): nat
    requires f.additional.Some?
  {
    MasterSize(ID_BLOCK_MORE, MoreSize(f)) + MoreSize(f)
  }

  function AdditionsSize(f: MuxFrame): nat {
    if f.additional.None? then 0 else MasterSize(ID_BLOCK_ADDITIONS, MoreElementSize(f)) + MoreElementSize(f)
  }

  function BlockElementSize(f: MuxFrame): nat {
    MasterSize(ID_BLOCK, 4 + |f.payload|) + (4 + |f.payload|)
  }

  function DiscardSize(f: MuxFrame): nat {
    if f.discardPadding == 0 then 0 else IntElementSize(ID_DISCARD_PADDING, f.discardPadding)
  }

  function ReferenceSize(f: MuxFrame, scale: nat): nat
    requires scale > 0
  {
    if f.key then 0 else UIntElementSize(ID_REFERENCE_BLOCK, ReferenceValue(f, scale))
  }

  function DurationSize(f: MuxFrame, scale: nat): nat
    requires scale > 0
  {
    if DurationValue(f, scale) > 0 then UIntElementSize(ID_BLOCK_DURATION, DurationValue(f, scale)) else 0
  }

  function GroupPayloadSize(f: MuxFrame, scale: nat): nat
    requires scale > 0
  {
    BlockElementSize(f) + AdditionsSize(f) + DurationSize(f, scale) + DiscardSize(f) + ReferenceSize(f, scale)
  }

  lemma MoreSizes(f: MuxFrame)
    requires f.additional.Some?
    ensures |MoreBytes(f)| == MoreSize(f)
    ensures |EncodeElement(ID_BLOCK_MORE, MoreBytes(f))| == MoreElementSize(f)
    ensures |AdditionsBytes(f)| == AdditionsSize(f)
  {
    hide EncodeElement, EncodeUInt, GetUIntSize, GetCodedUIntSize;
    ElementSizesMatchEncodings(ID_BLOCK_ADD_ID, f.addId, 0, [], 0);
    SizeOfElement(ID_BLOCK_ADDITIONAL, f.additional.value);
    SizeOfElement(ID_BLOCK_MORE, MoreBytes(f));
    SizeOfElement(ID_BLOCK_ADDITIONS, EncodeElement(ID_BLOCK_MORE, MoreBytes(f)));
  }

  lemma GroupSizes(f: MuxFrame, timecode: int, scale: nat)
    requires scale > 0 && f.track <= MAX_TRACK_NUMBER
    ensures |BlockElement(f, timecode)| == BlockElementSize(f) && |AdditionsBytes(f)| == AdditionsSize(f)
    ensures |DiscardBytes(f)| == DiscardSize(f) && |ReferenceBytes(f, scale)| == ReferenceSize(f, scale)
    ensures |DurationBytes(f, scale)| == DurationSize(f, scale)
    ensures |GroupPayload(f, timecode, scale)| == GroupPayloadSize(f, scale)
  {
    hide BlockElement, AdditionsBytes, DiscardBytes, ReferenceBytes, DurationBytes, BlockElementSize, AdditionsSize,
         DiscardSize, ReferenceSize, DurationSize;
    BlockSized(f, timecode);
    if f.additional.Some? { MoreSizes(f); } else { NoAdditions(f); }
    TailSized(f, scale);
  }

  lemma BlockSized(f: MuxFrame, timecode: int)
    requires f.track <= MAX_TRACK_NUMBER
    ensures |BlockElement(f, timecode)| == BlockElementSize(f)
  {
    hide EncodeElement, GetUIntSize, GetCodedUIntSize, BlockBytes;
    BlockLength(f.track, timecode, 0, f.payload);
    SizeOfElement(ID_BLOCK, BlockBytes(f.track, timecode, 0, f.payload));
  }

  lemma TailSized(f: MuxFrame, scale: nat)
    requires scale > 0
    ensures |DiscardBytes(f)| == DiscardSize(f) && |ReferenceBytes(f, scale)| == ReferenceSize(f, scale)
    ensures |DurationBytes(f, scale)| == DurationSize(f, scale)
  {
    hide EncodeUInt, EncodeInt, ReferenceValue, DurationValue, UIntElementSize, IntElementSize;
    IntSized(ID_DISCARD_PADDING, f.discardPadding);
    UIntSized(ID_REFERENCE_BLOCK, ReferenceValue(f, scale));
    UIntSized(ID_BLOCK_DURATION, DurationValue(f, scale));
  }

  lemma UIntSized(id: nat, value: nat)
    ensures |EncodeUInt(id, value)| == UIntElementSize(id, value)
  {
    ElementSizesMatchEncodings(id, value, 0, [], 0);
  }

  lemma IntSized(id: nat, value: int)
    ensures |EncodeInt(id, value)| == IntElementSize(id, value)
  {
    ElementSizesMatchEncodings(id, 0, value, [], 0);
  }

  lemma NoAdditions(f: MuxFrame)
    requires f.additional.None?
    ensures AdditionsBytes(f) == [] && AdditionsSize(f) == 0
  {
  }

  /** Every size in a group fits its size field: lengths are below 2^31. */
  lemma SizesCodable(f: MuxFrame, scale: nat)
    requires scale > 0 && |f.payload| < 0x7FFF_FFFC && (f.additional.Some? ==> |f.additional.value| < 0x8000_0000)
    ensures GroupPayloadSize(f, scale) <= MAX_CODED && 4 + |f.payload| <= MAX_CODED
    ensures f.additional.Some? ==> MoreSize(f) <= MAX_CODED && MoreElementSize(f) <= MAX_CODED
  {
    hide GetUIntSize, GetCodedUIntSize, ReferenceValue;
  }

  method WriteAdditions(w: Writer, f: MuxFrame) returns (ok: bool)
    requires w.Valid() && f.additional.Some?
    modifies w
    ensures w.Valid()
    ensures ok ==> w.Appended(AdditionsBytes(f))
    ensures w.reliable && MoreElementSize(f) <= MAX_CODED && MoreSize(f) <= MAX_CODED ==>
              (0 < |f.additional.value| <= MAX_CODED ==> ok)
  {
    hide EncodeMaster, EncodeUInt, EncodeElement, GetUIntSize, GetCodedUIntSize, MoreSize, MoreElementSize;
    ghost var before := w.pending;
    MoreSizes(f);
    var payloadSize, moreSize := MoreElementSize(f), MoreSize(f);
    ok := WriteEbmlMasterElement(w, ID_BLOCK_ADDITIONS, payloadSize);
    if !ok { return; }
    ok := WriteEbmlMasterElement(w, ID_BLOCK_MORE, moreSize);
    if !ok { return; }
    ghost var a, b := EncodeMaster(ID_BLOCK_ADDITIONS, payloadSize), EncodeMaster(ID_BLOCK_MORE, moreSize);
    ghost var c, d := EncodeUInt(ID_BLOCK_ADD_ID, f.addId), EncodeElement(ID_BLOCK_ADDITIONAL, f.additional.value);
    Then(before, a, b);
    ok := WriteUIntElement(w, ID_BLOCK_ADD_ID, f.addId);
    if !ok { return; }
    Then(before, a + b, c);
    ok := WriteBinaryElement(w, ID_BLOCK_ADDITIONAL, f.additional.value);
    if !ok { return; }
    Then(before, a + b + c, d);
    Nested(f, a, b, c, d);
  }

  lemma Nested(f: MuxFrame, a: seq<Byte>, b: seq<Byte>, c: seq<Byte>, d: seq<Byte>)
    requires f.additional.Some? && a == EncodeMaster(ID_BLOCK_ADDITIONS, MoreElementSize(f)) &&
             b == EncodeMaster(ID_BLOCK_MORE, MoreSize(f))
    requires c == EncodeUInt(ID_BLOCK_ADD_ID, f.addId) && d == EncodeElement(ID_BLOCK_ADDITIONAL, f.additional.value)
    ensures a + b + c + d == AdditionsBytes(f)
  {
    MoreSizes(f);
    hide EncodeMaster, EncodeUInt, GetUIntSize, GetCodedUIntSize, MoreSize, MoreElementSize;
    Regrouped4(a, b, c, d);
  }

  lemma Regrouped4(a: seq<Byte>, b: seq<Byte>, c: seq<Byte>, d: seq<Byte>)
    ensures a + b + c + d == a + (b + (c + d))
  {
  }

  /** Answers the number of bytes written, or 0. */
  method WriteBlock(w: Writer, f: MuxFrame, timecode: int, scale: nat) returns (written: nat)
    requires w.Valid() && f.track <= MAX_TRACK_NUMBER && scale > 0
    requires |f.payload| < 0x7FFF_FFFC && (f.additional.Some? ==> 0 < |f.additional.value| < 0x8000_0000)
    modifies w
    ensures w.Valid()
    ensures written != 0 ==> w.Appended(GroupBytes(f, timecode, scale)) && written == |GroupBytes(f, timecode, scale)|
    ensures w.reliable ==> written != 0
  {
    hide EncodeElement, EncodeMaster, BlockBytes, AdditionsBytes, GroupPayload, BlockElement, GetUIntSize,
         GetCodedUIntSize, MoreSize, MoreElementSize, GroupPayloadSize, BlockElementSize, DiscardBytes,
         ReferenceBytes, DurationBytes, AdditionsSize, DiscardSize, ReferenceSize, DurationSize;
    ghost var before := w.pending;
    GroupSizes(f, timecode, scale);
    SizesCodable(f, scale);
    var size := GroupPayloadSize(f, scale);
    var ok := WriteEbmlMasterElement(w, ID_BLOCK_GROUP, size);
    if !ok { return 0; }
    ghost var parts := EncodeMaster(ID_BLOCK_GROUP, size);
    ok := WriteBlockElement(w, f, timecode);
    if !ok { return 0; }
    Then(before, parts, BlockElement(f, timecode));
    if f.additional.Some? {
      ok := WriteAdditions(w, f);
      if !ok { return 0; }
    } else {
      NoAdditions(f);
    }
    ghost var parts1 := parts + BlockElement(f, timecode);
    Then(before, parts1, AdditionsBytes(f));
    ok := WriteTail(w, f, scale);
    if !ok { return 0; }
    Then(before, parts1 + AdditionsBytes(f), DiscardBytes(f) + ReferenceBytes(f, scale) + DurationBytes(f, scale));
    GroupAssembled(f, timecode, scale, parts);
    SizeOfElement(ID_BLOCK_GROUP, GroupPayload(f, timecode, scale));
    written := MasterSize(ID_BLOCK_GROUP, size) + size;
  }

  lemma GroupAssembled(f: MuxFrame, timecode: int, scale: nat, head: seq<Byte>)
    requires scale > 0 && f.track <= MAX_TRACK_NUMBER &&
             head == EncodeMaster(ID_BLOCK_GROUP, GroupPayloadSize(f, scale))
    ensures head + BlockElement(f, timecode) + AdditionsBytes(f)
            + (DiscardBytes(f) + ReferenceBytes(f, scale) + DurationBytes(f, scale))
         == GroupBytes(f, timecode, scale)
  {
    GroupSizes(f, timecode, scale);
    hide EncodeMaster, BlockElement, AdditionsBytes, DiscardBytes, ReferenceBytes, DurationBytes, GroupPayloadSize;
    Regrouped(head, BlockElement(f, timecode), AdditionsBytes(f), DiscardBytes(f), ReferenceBytes(f, scale),
              DurationBytes(f, scale));
  }

  lemma Regrouped(h: seq<Byte>, a: seq<Byte>, b: seq<Byte>, c: seq<Byte>, d: seq<Byte>, e: seq<Byte>)
    ensures h + a + b + (c + d + e) == h + (a + b + c + d + e)
  {
  }

  /** The Block inside the group; its flags are always 0. */
  method WriteBlockElement(w: Writer, f: MuxFrame, timecode: int) returns (ok: bool)
    requires w.Valid() && f.track <= MAX_TRACK_NUMBER && |f.payload| < 0x7FFF_FFFC
    modifies w
    ensures w.Valid()
    ensures ok ==> w.Appended(BlockElement(f, timecode))
    ensures w.reliable ==> ok
  {
    hide EncodeMaster, BlockBytes;
    ghost var before := w.pending;
    BlockLength(f.track, timecode, 0, f.payload);
    ok := WriteEbmlMasterElement(w, ID_BLOCK, 4 + |f.payload|);
    if !ok { return; }
    ok := WriteBlockBody(w, f, timecode, 0);
    if !ok { return; }
    Then(before, EncodeMaster(ID_BLOCK, 4 + |f.payload|), BlockBytes(f.track, timecode, 0, f.payload));
  }

  /** Discard padding, reference and duration, as far as there are any. */
  method WriteTail(w: Writer, f: MuxFrame, scale: nat) returns (ok: bool)
    requires w.Valid() && scale > 0
    modifies w
    ensures w.Valid()
    ensures ok ==> w.Appended(DiscardBytes(f) + ReferenceBytes(f, scale) + DurationBytes(f, scale))
    ensures w.reliable ==> ok
  {
    hide EncodeInt, EncodeUInt, ReferenceValue, DurationValue;
    ghost var before := w.pending;
    ok := true;
    if f.discardPadding != 0 {
      ok := WriteIntElement(w, ID_DISCARD_PADDING, f.discardPadding);
      if !ok { return; }
    }
    assert w.Appended(DiscardBytes(f));
    if !f.key {
      ok := WriteUIntElement(w, ID_REFERENCE_BLOCK, ReferenceValue(f, scale));
      if !ok { return; }
    }
    Then(before, DiscardBytes(f), ReferenceBytes(f, scale));
    var duration := DurationValue(f, scale);
    if duration > 0 {
      ok := WriteUIntElement(w, ID_BLOCK_DURATION, duration);
      if !ok { return; }
    }
    Then(before, DiscardBytes(f) + ReferenceBytes(f, scale), DurationBytes(f, scale));
  }

  /** Writes a frame into a cluster that starts at `clusterTimecode`; answers the number of bytes written,
      or 0 for a frame that is not valid or lies outside the cluster's reach. */
  method WriteFrame(w: Writer, f: MuxFrame, clusterTimecode: nat, scale: nat) returns (written: nat)
    requires w.Valid() && |f.payload| < 0x7FFF_FFFC && (f.additional.Some? ==> |f.additional.value| < 0x8000_0000)
    modifies w
    ensures w.Valid()
    ensures written != 0 ==>
              && scale > 0 && IsValid(f) && 0 <= f.timestamp / scale - clusterTimecode <= MAX_BLOCK_TIMECODE
              && var bytes := FrameBytes(f, f.timestamp / scale - clusterTimecode, scale);
                 w.Appended(bytes) && written == |bytes|
    ensures w.reliable && scale > 0 && IsValid(f) &&
            0 <= f.timestamp / scale - clusterTimecode <= MAX_BLOCK_TIMECODE ==>
              written != 0
  {
    hide SimpleBlockBytes, GroupBytes;
    if !IsValid(f) || scale == 0 { return 0; }
    var relative := f.timestamp / scale - clusterTimecode;
    if relative < 0 || relative > MAX_BLOCK_TIMECODE { return 0; }
    if CanBeSimpleBlock(f) {
      written := WriteSimpleBlock(w, f, relative);
    } else {
      written := WriteBlock(w, f, relative, scale);
    }
  }
}
