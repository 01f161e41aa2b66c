/** The parser's block entries (libwebm/mkvparser/mkvparser.cc): SimpleBlocks and BlockGroups, each read back
    as the frame that was written. */
module BlockEntries {
  import opened Bytes
  import opened Ebml
  import opened EbmlReader
  import opened Blocks
  import EbmlWriter
  import L = Lacing

  /** A block, the bytes it takes in the file, and what its group says about it. */
  datatype Entry =
    | SimpleEntry(start: nat, size: nat, block: L.BlockValue, key: bool)
    | GroupEntry(start: nat, size: nat, block: L.BlockValue, key: bool, prev: int, next: int, duration: int,
                 discardPadding: int)

  function SimpleEntryAt(src: seq<Byte>, start: nat, size: nat): Option<Entry> {
    match L.BlockAt(src, start, size)
    case None => None
    case Some(block) =>
      if L.LacingOf(block.flags) != 0 && start + size > |src| then None
      else Some(SimpleEntry(start, size, block, block.flags >= 0x80))
  }

  // ----- the children of a BlockGroup, which are gone through twice

  /** A child whose size is not the one reserved for an unknown size. */
  function ChildAt(src: seq<Byte>, pos: int, stop: int): (h: Option<Header>)
    ensures h.Some? ==> h == HeaderAt(src, pos, stop)
  {
    match HeaderAt(src, pos, stop)
    case None => None
    case Some(h) =>
      var len := UIntAt(src, pos + IdAt(src, pos).value.1).value.1;
      if h.size == Pow128(len) - 1 then None else Some(h)
  }

  /** A Block has a track number, and room for its timecode, its flags and at least one byte more. */
  predicate BlockStarts(src: seq<Byte>, pos: int, stop: int) {
    && UIntAt(src, pos).Some? && UIntAt(src, pos).value.0 > 0
    && pos + UIntAt(src, pos).value.1 + 3 < stop
    && pos + UIntAt(src, pos).value.1 + 2 < |src|
  }

  /** What the first time through makes of a child: the discard padding known then. */
  function Checked(src: seq<Byte>, h: Header, discard: int): Option<int> {
    if h.size == 0 then Some(discard)
    else if h.id == ID_DISCARD_PADDING then
      if 0 <= h.payload && 1 <= h.size <= 8 && h.payload + h.size <= |src|
      then Some(SignedFromBigEndian(src[h.payload..h.payload + h.size])) else None
    else if h.id == ID_BLOCK then
      if BlockStarts(src, h.payload, h.payload + h.size) then Some(discard) else None
    else Some(discard)
  }

  /** The first time through. */
  function CheckGroup(src: seq<Byte>, pos: int, stop: int, discard: int): Option<int>
    decreases stop - pos
  {
    if pos >= stop then if pos == stop then Some(discard) else None
    else match ChildAt(src, pos, stop)
         case None => None
         case Some(h) =>
           if h.payload + h.size > stop then None
           else match Checked(src, h, discard)
                case None => None
                case Some(d) => CheckGroup(src, h.payload + h.size, stop, d)
  }

  /** What the second time through collects. */
  datatype Group = Group(block: Option<Header>, prev: int, next: int, duration: int)

  function Collected(src: seq<Byte>, h: Header, g: Group): Option<Group> {
    if h.id == ID_BLOCK then Some(if g.block.None? then g.(block := Some(h)) else g)
    else if h.id == ID_BLOCK_DURATION then
      if 0 <= h.payload && 1 <= h.size <= 8 && h.payload + h.size <= |src|
         && ToInt64(FromBigEndian(src[h.payload..h.payload + h.size])) >= 0
      then Some(g.(duration := ToInt64(FromBigEndian(src[h.payload..h.payload + h.size])))) else None
    else if h.id == ID_REFERENCE_BLOCK then
      if 0 <= h.payload && 1 <= h.size <= 8 && h.payload + h.size <= |src| then
        var time := SignedFromBigEndian(src[h.payload..h.payload + h.size]);
        Some(if time <= 0 then g.(prev := time) else g.(next := time))
      else None
    else Some(g)
  }

  function CollectGroup(src: seq<Byte>, pos: int, stop: int, g: Group): Option<Group>
    decreases stop - pos
  {
    if pos >= stop then if pos == stop then Some(g) else None
    else match HeaderAt(src, pos, stop)
         case None => None
         case Some(h) =>
           match Collected(src, h, g)
           case None => None
           case Some(more) => if h.payload + h.size > stop then None
               else CollectGroup(src, h.payload + h.size, stop, more)
  }

  /** The block of a group, with everything the group says about it. */
  function GroupEntryOf(src: seq<Byte>, g: Group, discard: int): Option<Entry> {
    if g.block.None? || g.block.value.payload < 0 || g.block.value.size < 0 then None
    else match L.BlockAt(src, g.block.value.payload, g.block.value.size)
         case None => None
         case Some(block) =>
           Some(GroupEntry(g.block.value.payload, g.block.value.size, block, g.prev > 0 && g.next <= 0, g.prev,
                           g.next, g.duration, discard))
  }

  function GroupEntryAt(src: seq<Byte>, start: nat, size: nat): Option<Entry> {
    if start + size > |src| then None
    else match CheckGroup(src, start, start + size, 0)
         case None => None
         case Some(discard) =>
           match CollectGroup(src, start, start + size, Group(None, 1, 0, -1))
           case None => None
           case Some(g) => GroupEntryOf(src, g, discard)
  }

  /** The entry of an element with this header. */
  function EntryOf(src: seq<Byte>, h: Header): Option<Entry> {
    if h.payload < 0 || h.size < 0 then None
    else if h.id == ID_SIMPLE_BLOCK then SimpleEntryAt(src, h.payload, h.size)
    else if h.id == ID_BLOCK_GROUP then GroupEntryAt(src, h.payload, h.size)
    else None
  }

  /** The entry whose element begins at `pos`. */
  function EntryAt(src: seq<Byte>, pos: int): Option<Entry> {
    match HeaderAt(src, pos, -1)
    case None => None
    case Some(h) => EntryOf(src, h)
  }

  // ----- what was written is read back

  /** The body of a block, read back: the frame is the payload. */
  lemma BlockReadsBack(src: seq<Byte>, p: nat, track: nat, timecode: int, flags: Byte, payload: seq<Byte>)
    requires At(src, p, BlockBytes(track, timecode, flags, payload)) && payload != []
    requires 0 < track <= MAX_TRACK_NUMBER && 0 <= timecode <= MAX_BLOCK_TIMECODE && L.LacingOf(flags) == 0
    ensures L.BlockAt(src, p, 4 + |payload|) == Some(L.BlockValue(track, timecode, flags, [L.Frame(p + 4, |payload|)]))
    ensures At(src, p + 4, payload)
    ensures BlockStarts(src, p, p + 4 + |payload|)
  {
    hide At, EncodeVint, UIntAt, SignedFromBigEndian, L.LacingOf;
    TrackByte(track);
    AtSplit(src, p, EncodeVint(track) + BigEndian(timecode, 2) + [flags], payload);
    AtSplit(src, p, EncodeVint(track) + BigEndian(timecode, 2), [flags]);
    AtSplit(src, p, EncodeVint(track), BigEndian(timecode, 2));
    AtFirst(src, p + 3, [flags]);
    VintRoundTrip(src, p, track);
    TimecodeFits(timecode);
    IntPayloadRoundTrip(src, p + 1, timecode, 2);
  }

  /** Any SimpleBlock that lies in the file is read exactly when it is laced as its flags say; the highest bit of these
      makes it a key frame, whatever the others are. */
  lemma SimpleExact(src: seq<Byte>, start: nat, size: nat, track: nat, timecode: int, flags: Byte, body: nat,
                    frames: seq<L.Frame>, key: bool)
    requires L.Begins(src, start, track, timecode, flags, body) && start + size <= |src| <= INT64_MAX
    ensures var block := L.BlockValue(track, timecode, flags, frames);
            SimpleEntryAt(src, start, size) == Some(SimpleEntry(start, size, block, key)) <==>
            L.WellLaced(src, flags, frames, body, start + size) && (key <==> flags / 128 == 1)
  {
    hide L.BlockAt, L.WellLaced, L.Begins, L.LacingOf;
    L.BlockExact(src, start, size, track, timecode, flags, body, frames);
  }

  lemma TimecodeFits(timecode: int)
    requires 0 <= timecode <= MAX_BLOCK_TIMECODE
    ensures FitsSigned(timecode, 2)
  {
    assert Pow256(2) == 0x1_0000;
  }

  lemma ElementAt(src: seq<Byte>, p: nat, id: nat, body: seq<Byte>)
    requires At(src, p, EncodeElement(id, body)) && ValidId(id) && |body| <= MAX_CODED
    ensures At(src, p, EncodeMaster(id, |body|)) && At(src, p + MasterSize(id, |body|), body)
    ensures |EncodeElement(id, body)| == MasterSize(id, |body|) + |body|
  {
    AtSplit(src, p, EncodeMaster(id, |body|), body);
  }

  /** A child of a group is found as the element that was written. */
  lemma ChildReadsBack(src: seq<Byte>, p: nat, stop: int, id: nat, body: seq<Byte>)
    requires At(src, p, EncodeElement(id, body)) && ValidId(id) && |body| <= MAX_CODED
    requires stop < 0 || p + |EncodeElement(id, body)| <= stop
    ensures ChildAt(src, p, stop) == HeaderAt(src, p, stop) == Some(Header(id, |body|, p + MasterSize(id, |body|)))
    ensures |EncodeElement(id, body)| == MasterSize(id, |body|) + |body|
    ensures At(src, p + MasterSize(id, |body|), body)
  {
    hide At, EncodeMaster, IdAt, UIntAt, ValidId, HeaderAt, Pow128;
    ElementAt(src, p, id, body);
    HeaderRoundTrip(src, p, stop, id, |body|);
    HeaderParts(src, p, id, |body|);
    CodedSizeIsLeast(|body|);
  }

  lemma CheckStep(src: seq<Byte>, p: nat, stop: int, id: nat, body: seq<Byte>, d: int, d': int)
    requires At(src, p, EncodeElement(id, body)) && ValidId(id) && |body| <= MAX_CODED
    requires p + |EncodeElement(id, body)| <= stop
    requires Checked(src, Header(id, |body|, p + MasterSize(id, |body|)), d) == Some(d')
    ensures CheckGroup(src, p, stop, d) == CheckGroup(src, p + |EncodeElement(id, body)|, stop, d')
  {
    hide At, EncodeElement, ChildAt, HeaderAt, Checked, ValidId, MasterSize;
    ChildReadsBack(src, p, stop, id, body);
    MasterPositive(id, |body|);
  }

  lemma MasterPositive(id: nat, size: nat)
    ensures MasterSize(id, size) >= 2
  {
  }

  lemma CollectStep(src: seq<Byte>, p: nat, stop: int, id: nat, body: seq<Byte>, g: Group, g': Group)
    requires At(src, p, EncodeElement(id, body)) && ValidId(id) && |body| <= MAX_CODED
    requires p + |EncodeElement(id, body)| <= stop
    requires Collected(src, Header(id, |body|, p + MasterSize(id, |body|)), g) == Some(g')
    ensures CollectGroup(src, p, stop, g) == CollectGroup(src, p + |EncodeElement(id, body)|, stop, g')
  {
    hide At, EncodeElement, ChildAt, HeaderAt, Collected, ValidId, MasterSize;
    ChildReadsBack(src, p, stop, id, body);
    MasterPositive(id, |body|);
  }

  /** What one part of a group, which may be missing, does to the two passes. */
  predicate Passes(src: seq<Byte>, p: nat, part: seq<Byte>, stop: int, d: int, d': int, g: Group, g': Group) {
    && CheckGroup(src, p, stop, d) == CheckGroup(src, p + |part|, stop, d')
    && CollectGroup(src, p, stop, g) == CollectGroup(src, p + |part|, stop, g')
  }

  /** The body of the frame's block begins at `q`. */
  predicate BodyAt(src: seq<Byte>, q: nat, f: MuxFrame, timecode: int) {
    && L.BlockAt(src, q, 4 + |f.payload|) == Some(L.BlockValue(f.track, timecode, 0, [L.Frame(q + 4, |f.payload|)]))
    && At(src, q + 4, f.payload)
  }

  lemma BlockPasses(src: seq<Byte>, p: nat, stop: int, f: MuxFrame, timecode: int)
    requires At(src, p, BlockElement(f, timecode)) && p + |BlockElement(f, timecode)| <= stop &&
             |f.payload| < 0x7FFF_FFFC
    requires IsValid(f) && 0 <= timecode <= MAX_BLOCK_TIMECODE
    ensures exists q: nat ::
      && BodyAt(src, q, f, timecode)
      && Passes(src, p, BlockElement(f, timecode), stop, 0, 0, Group(None, 1, 0, -1),
                Group(Some(Header(ID_BLOCK, 4 + |f.payload|, q)), 1, 0, -1))
  {
    hide At, EncodeElement, BlockBytes, L.BlockAt, CheckGroup, CollectGroup, MasterSize, BlockStarts;
    var body := BlockBytes(f.track, timecode, 0, f.payload);
    BlockLength(f.track, timecode, 0, f.payload);
    ElementAt(src, p, ID_BLOCK, body);
    var q := p + MasterSize(ID_BLOCK, |body|);
    BlockReadsBack(src, q, f.track, timecode, 0, f.payload);
    var h := Header(ID_BLOCK, |body|, q);
    CheckStep(src, p, stop, ID_BLOCK, body, 0, 0);
    CollectStep(src, p, stop, ID_BLOCK, body, Group(None, 1, 0, -1), Group(Some(h), 1, 0, -1));
    assert BodyAt(src, q, f, timecode);
  }

  lemma AdditionsPass(src: seq<Byte>, p: nat, stop: int, f: MuxFrame, d: int, g: Group)
    requires At(src, p, AdditionsBytes(f)) && p + |AdditionsBytes(f)| <= stop
    requires f.additional.Some? ==> |f.additional.value| < 0x8000_0000
    ensures Passes(src, p, AdditionsBytes(f), stop, d, d, g, g)
  {
    hide At, EncodeElement, CheckGroup, CollectGroup, MoreBytes, MoreElementSize;
    if f.additional.Some? {
      var body := EncodeElement(ID_BLOCK_MORE, MoreBytes(f));
      MoreSizes(f);
      AdditionsCodable(f);
      CheckStep(src, p, stop, ID_BLOCK_ADDITIONS, body, d, d);
      CollectStep(src, p, stop, ID_BLOCK_ADDITIONS, body, g, g);
    }
  }

  /** The additional bytes and their number are there to be read, though the parser passes over them: a BlockAdditions
      element (0x75A1) with a BlockMore (0xA6), in which a BlockAddID (0xEE) is followed by a BlockAdditional (0xA5). */
  lemma AdditionsReadBack(src: seq<Byte>, p: nat, f: MuxFrame)
      returns (all: Header, more: Header, number: Header, data: Header)
    requires At(src, p, AdditionsBytes(f)) && f.additional.Some? && |f.additional.value| < 0x8000_0000
    requires f.addId <= INT64_MAX
    ensures HeaderAt(src, p, -1) == Some(all) && all.id == 0x75A1 && Ends(all) == p + |AdditionsBytes(f)|
    ensures HeaderAt(src, all.payload, -1) == Some(more) && more.id == 0xA6 && Ends(more) == Ends(all)
    ensures HeaderAt(src, more.payload, -1) == Some(number) && number.id == 0xEE && ValueAt(src, number) == f.addId
    ensures HeaderAt(src, Ends(number), -1) == Some(data) && data.id == 0xA5 && Ends(data) == Ends(all)
    ensures data.size == |f.additional.value| && At(src, data.payload, f.additional.value)
  {
    hide At, EncodeElement, EncodeUInt, HeaderAt, MasterSize, ValidId, UIntBytes, ValueAt;
    var body := EncodeElement(ID_BLOCK_MORE, MoreBytes(f));
    MoreSizes(f);
    AdditionsCodable(f);
    AdditionIds();
    all := FoundElement(src, p, ID_BLOCK_ADDITIONS, body);
    more := FoundElement(src, all.payload, ID_BLOCK_MORE, MoreBytes(f));
    AtSplit(src, more.payload, EncodeUInt(ID_BLOCK_ADD_ID, f.addId),
            EncodeElement(ID_BLOCK_ADDITIONAL, f.additional.value));
    number := FoundNumber(src, more.payload, ID_BLOCK_ADD_ID, f.addId);
    data := FoundElement(src, Ends(number), ID_BLOCK_ADDITIONAL, f.additional.value);
  }

  function Ends(h: Header): int {
    h.payload + h.size
  }

  lemma AdditionIds()
    ensures ID_BLOCK_ADDITIONS == 0x75A1 && ID_BLOCK_MORE == 0xA6 && ID_BLOCK_ADD_ID == 0xEE
    ensures ID_BLOCK_ADDITIONAL == 0xA5
    ensures ValidId(ID_BLOCK_ADDITIONS) && ValidId(ID_BLOCK_MORE) && ValidId(ID_BLOCK_ADD_ID)
    ensures ValidId(ID_BLOCK_ADDITIONAL)
  {
  }

  lemma FoundElement(src: seq<Byte>, p: nat, id: nat, body: seq<Byte>) returns (h: Header)
    requires At(src, p, EncodeElement(id, body)) && ValidId(id) && |body| <= MAX_CODED
    ensures h == Header(id, |body|, p + MasterSize(id, |body|)) && HeaderAt(src, p, -1) == Some(h)
    ensures Ends(h) == p + |EncodeElement(id, body)| && At(src, h.payload, body)
  {
    hide At, EncodeElement, HeaderAt, ValidId, MasterSize;
    h := Header(id, |body|, p + MasterSize(id, |body|));
    ElementAt(src, p, id, body);
    HeaderRoundTrip(src, p, -1, id, |body|);
  }

  lemma FoundNumber(src: seq<Byte>, p: nat, id: nat, value: nat) returns (h: Header)
    requires At(src, p, EncodeUInt(id, value)) && ValidId(id) && value <= INT64_MAX
    ensures h.id == id && HeaderAt(src, p, -1) == Some(h) && Ends(h) == p + |EncodeUInt(id, value)|
    ensures ValueAt(src, h) == value
  {
    hide At, EncodeElement, HeaderAt, BigEndian, FromBigEndian, ToInt64, GetUIntSize, MasterSize, ValidId;
    var body := UIntBytes(value);
    h := FoundElement(src, p, id, body);
    AtInside(src, h.payload, body);
    UIntSizeIsLeast(value);
    UIntPayloadRoundTrip(src, h.payload, value, |body|);
    ToInt64Keeps(value);
  }

  lemma AdditionsCodable(f: MuxFrame)
    requires f.additional.Some? && |f.additional.value| < 0x8000_0000
    ensures MoreElementSize(f) <= MAX_CODED
  {
    hide GetUIntSize, GetCodedUIntSize;
  }

  lemma DiscardPasses(src: seq<Byte>, p: nat, stop: int, f: MuxFrame, g: Group)
    requires At(src, p, DiscardBytes(f)) && p + |DiscardBytes(f)| <= stop && INT64_MIN <= f.discardPadding <= INT64_MAX
    ensures Passes(src, p, DiscardBytes(f), stop, 0, f.discardPadding, g, g)
  {
    hide At, EncodeElement, CheckGroup, CollectGroup, BigEndian, FitsSigned, SignedFromBigEndian, GetIntSize,
         MasterSize;
    if f.discardPadding != 0 {
      var n := GetIntSize(f.discardPadding);
      var body := BigEndian(f.discardPadding, n);
      IntSizeIsLeast(f.discardPadding);
      ElementAt(src, p, ID_DISCARD_PADDING, body);
      AtFirst(src, p + MasterSize(ID_DISCARD_PADDING, |body|), body);
      IntPayloadRoundTrip(src, p + MasterSize(ID_DISCARD_PADDING, |body|), f.discardPadding, n);
      CheckStep(src, p, stop, ID_DISCARD_PADDING, body, 0, f.discardPadding);
      CollectStep(src, p, stop, ID_DISCARD_PADDING, body, g, g);
    }
  }

  /** A reference makes the group not a key frame, however its value reads; a key frame has none. */
  lemma ReferencePasses(src: seq<Byte>, p: nat, stop: int, f: MuxFrame, scale: nat, d: int, g: Group)
    requires scale > 0 && At(src, p, ReferenceBytes(f, scale)) && p + |ReferenceBytes(f, scale)| <= stop
    requires g.prev == 1 && g.next == 0
    ensures exists prev, next ::
      && Passes(src, p, ReferenceBytes(f, scale), stop, d, d, g, g.(prev := prev, next := next))
      && (f.key <==> prev > 0 && next <= 0)
      && if f.key then prev == 1 && next == 0 else ReferenceRead(f, scale, prev, next)
  {
    hide At, EncodeElement, CheckGroup, CollectGroup, BigEndian, SignedFromBigEndian, GetUIntSize, MasterSize,
         ReferenceValue, Pow256, TicksOf, LeastBytes;
    if f.key {
      assert Passes(src, p, ReferenceBytes(f, scale), stop, d, d, g, g.(prev := 1, next := 0));
    } else {
      var body := UIntBytes(ReferenceValue(f, scale));
      ElementAt(src, p, ID_REFERENCE_BLOCK, body);
      var q := p + MasterSize(ID_REFERENCE_BLOCK, |body|);
      AtFirst(src, q, body);
      var time := SignedFromBigEndian(src[q..q + |body|]);
      var prev, next := if time <= 0 then time else 1, if time <= 0 then 0 else time;
      TicksAre(f, scale);
      LeastBytesAre(ReferenceValue(f, scale));
      LeastFits(ReferenceValue(f, scale), |body|);
      SignedOfUnsigned(ReferenceValue(f, scale), |body|);
      assert ReferenceRead(f, scale, prev, next);
      CheckStep(src, p, stop, ID_REFERENCE_BLOCK, body, d, d);
      CollectStep(src, p, stop, ID_REFERENCE_BLOCK, body, g, g.(prev := prev, next := next));
      assert Passes(src, p, ReferenceBytes(f, scale), stop, d, d, g, g.(prev := prev, next := next));
    }
  }

  lemma DurationPasses(src: seq<Byte>, p: nat, stop: int, f: MuxFrame, scale: nat, d: int, g: Group)
    requires scale > 0 && At(src, p, DurationBytes(f, scale)) && p + |DurationBytes(f, scale)| <= stop
    requires DurationValue(f, scale) <= INT64_MAX
    ensures Passes(src, p, DurationBytes(f, scale), stop, d, d, g,
                   if DurationValue(f, scale) > 0 then g.(duration := DurationValue(f, scale)) else g)
  {
    hide At, EncodeUInt, CheckGroup, CollectGroup, DurationValue;
    if DurationValue(f, scale) > 0 { DurationTaken(src, p, stop, DurationValue(f, scale), d, g); }
  }

  lemma DurationTaken(src: seq<Byte>, p: nat, stop: int, value: nat, d: int, g: Group)
    requires At(src, p, EncodeUInt(ID_BLOCK_DURATION, value)) && p + |EncodeUInt(ID_BLOCK_DURATION, value)| <= stop
    requires value <= INT64_MAX
    ensures Passes(src, p, EncodeUInt(ID_BLOCK_DURATION, value), stop, d, d, g, g.(duration := value))
  {
    hide At, EncodeElement, CheckGroup, CollectGroup, UIntBytes, FromBigEndian, ToInt64, MasterSize;
    var body := UIntBytes(value);
    UIntBytesShort(value);
    ElementAt(src, p, ID_BLOCK_DURATION, body);
    var q := p + MasterSize(ID_BLOCK_DURATION, |body|);
    UIntBytesRead(src, q, value);
    CheckStep(src, p, stop, ID_BLOCK_DURATION, body, d, d);
    CollectStep(src, p, stop, ID_BLOCK_DURATION, body, g, g.(duration := value));
  }

  lemma UIntBytesShort(value: nat)
    ensures 1 <= |UIntBytes(value)| <= 8
  {
  }

  lemma UIntBytesRead(src: seq<Byte>, q: nat, value: nat)
    requires At(src, q, UIntBytes(value)) && value <= INT64_MAX
    ensures 1 <= |UIntBytes(value)| <= 8 && q + |UIntBytes(value)| <= |src|
    ensures ToInt64(FromBigEndian(src[q..q + |UIntBytes(value)|])) == value
  {
    hide At, BigEndian, FromBigEndian, ToInt64, GetUIntSize;
    var body := UIntBytes(value);
    AtInside(src, q, body);
    UIntSizeIsLeast(value);
    UIntPayloadRoundTrip(src, q, value, |body|);
    ToInt64Keeps(value);
  }

  /** An entry gives back the frame it was written from: its track, its time relative to the cluster, its
      key flag, its payload, and what only a group can say. */
  ghost predicate GivesBack(src: seq<Byte>, e: Entry, f: MuxFrame, timecode: int, scale: nat)
    requires scale > 0
  {
    && e.block.track == f.track && e.block.timecode == timecode && (e.key <==> f.key)
    && |e.block.frames| == 1 && e.block.frames[0].len == |f.payload| && At(src, e.block.frames[0].pos, f.payload)
    && e.start + e.size == e.block.frames[0].pos + |f.payload|
    && (e.SimpleEntry? <==> f.additional.None? && f.discardPadding == 0 && f.duration == 0)
    && (e.GroupEntry? ==>
          && e.discardPadding == f.discardPadding
          && (if f.duration >= scale then e.duration * scale <= f.duration < (e.duration + 1) * scale
              else e.duration == -1)
          && (if f.key then e.prev == 1 && e.next == 0 else ReferenceRead(f, scale, e.prev, e.next)))
  }

  /** A reference has been read: the number of ticks, written as an unsigned number in as few bytes as it takes and read
      as a signed one of as many, so that it is negative when its first bit is set. */
  ghost predicate ReferenceRead(f: MuxFrame, scale: nat, prev: int, next: int)
    requires scale > 0
  {
    exists ticks: nat, n: nat ::
      && TicksOf(if f.reference.Some? then f.reference.value else 0, scale, ticks) && LeastBytes(ticks, n)
      && var time := if 2 * ticks < Pow256(n) then ticks else ticks - Pow256(n);
         if time <= 0 then prev == time && next == 0 else prev == 1 && next == time
  }

  /** How many ticks of the scale there are in a time, a negative one being taken for the unsigned number of its 64
      bits. */
  predicate TicksOf(time: int, scale: nat, ticks: nat) {
    ticks * scale <= time % 0x1_0000_0000_0000_0000 < (ticks + 1) * scale
  }

  /** The number fits `n` bytes, at least one, and no fewer. */
  predicate LeastBytes(value: nat, n: nat) {
    1 <= n <= 8 && value < Pow256(n) && (n > 1 ==> value >= Pow256(n - 1))
  }

  lemma Quotient(a: nat, d: nat)
    requires d > 0
    ensures a / d * d <= a < (a / d + 1) * d && (a / d > 0 <==> a >= d)
  {
    assert a == a / d * d + a % d;
    if a / d > 0 { Monotone(1, a / d, d); }
  }

  lemma TicksAre(f: MuxFrame, scale: nat)
    requires scale > 0
    ensures TicksOf(if f.reference.Some? then f.reference.value else 0, scale, ReferenceValue(f, scale))
    ensures ReferenceValue(f, scale) < UINT64_LIMIT
  {
    var time := EbmlWriter.ToUInt64(if f.reference.Some? then f.reference.value else 0);
    Quotient(time, scale);
    Monotone(1, scale, time / scale);
  }

  lemma LeastBytesAre(value: nat)
    requires value < UINT64_LIMIT
    ensures LeastBytes(value, GetUIntSize(value))
  {
    UIntSizeIsLeast(value);
    hide GetUIntSize, Pow256;
  }

  lemma LeastFits(value: nat, n: nat)
    requires LeastBytes(value, n)
    ensures 1 <= n <= 8 && value < Pow256(n)
  {
  }

  /** An unsigned number read as a signed one. */
  lemma SignedOfUnsigned(value: nat, n: nat)
    requires 1 <= n <= 8 && value < Pow256(n)
    ensures SignedFromBigEndian(BigEndian(value, n)) == if 2 * value < Pow256(n) then value else value - Pow256(n)
  {
    hide BigEndian, SignedFromBigEndian;
    if 2 * value < Pow256(n) {
      SignedBytes(value, n);
    } else {
      BigEndianWraps(value - Pow256(n), 1, n);
      SignedBytes(value - Pow256(n), n);
    }
  }

  lemma GroupRoundTrip(src: seq<Byte>, start: nat, f: MuxFrame, timecode: int, scale: nat)
    requires scale > 0 && IsValid(f) && !CanBeSimpleBlock(f) && 0 <= timecode <= MAX_BLOCK_TIMECODE
    requires |f.payload| < 0x7FFF_FFFC && (f.additional.Some? ==> |f.additional.value| < 0x8000_0000)
    requires INT64_MIN <= f.discardPadding <= INT64_MAX && DurationValue(f, scale) <= INT64_MAX
    requires At(src, start, GroupPayload(f, timecode, scale)) && start + |GroupPayload(f, timecode, scale)| <= |src|
    ensures var e := GroupEntryAt(src, start, |GroupPayload(f, timecode, scale)|);
            e.Some? && GivesBack(src, e.value, f, timecode, scale)
  {
    hide At, BlockElement, AdditionsBytes, DiscardBytes, ReferenceBytes, DurationBytes, CheckGroup, CollectGroup,
         L.BlockAt, IsValid, DurationValue, ReferenceRead, CanBeSimpleBlock;
    var a, b, c, d, e := BlockElement(f, timecode), AdditionsBytes(f), DiscardBytes(f), ReferenceBytes(f, scale),
        DurationBytes(f, scale);
    AtSplit(src, start, a + b + c + d, e);
    AtSplit(src, start, a + b + c, d);
    AtSplit(src, start, a + b, c);
    AtSplit(src, start, a, b);
    var stop := start + |GroupPayload(f, timecode, scale)|;
    BlockPasses(src, start, stop, f, timecode);
    var q: nat :| && BodyAt(src, q, f, timecode)
                  && Passes(src, start, a, stop, 0, 0, Group(None, 1, 0, -1),
                            Group(Some(Header(ID_BLOCK, 4 + |f.payload|, q)), 1, 0, -1));
    var g := Group(Some(Header(ID_BLOCK, 4 + |f.payload|, q)), 1, 0, -1);
    AdditionsPass(src, start + |a|, stop, f, 0, g);
    DiscardPasses(src, start + |a| + |b|, stop, f, g);
    ReferencePasses(src, start + |a| + |b| + |c|, stop, f, scale, f.discardPadding, g);
    var prev, next :| && Passes(src, start + |a| + |b| + |c|, d, stop, f.discardPadding, f.discardPadding, g,
                                g.(prev := prev, next := next))
                      && (f.key <==> prev > 0 && next <= 0)
                      && if f.key then prev == 1 && next == 0 else ReferenceRead(f, scale, prev, next);
    DurationPasses(src, start + |a| + |b| + |c| + |d|, stop, f, scale, f.discardPadding,
                   g.(prev := prev, next := next));
    var last := if DurationValue(f, scale) > 0 then g.(prev := prev, next := next).(duration := DurationValue(f, scale))
                else g.(prev := prev, next := next);
    GroupEnds(src, stop, f.discardPadding, last);
    DurationRead(f, scale);
    SimpleIs(f);
  }

  /** The duration in ticks: what is less than one is not written. */
  lemma DurationRead(f: MuxFrame, scale: nat)
    requires scale > 0
    ensures var n := DurationValue(f, scale);
            n * scale <= f.duration < (n + 1) * scale && (n > 0 <==> f.duration >= scale)
  {
    Quotient(f.duration, scale);
  }

  lemma SimpleIs(f: MuxFrame)
    ensures CanBeSimpleBlock(f) <==> f.additional.None? && f.discardPadding == 0 && f.duration == 0
  {
  }

  lemma GroupEnds(src: seq<Byte>, stop: int, d: int, g: Group)
    ensures CheckGroup(src, stop, stop, d) == Some(d) && CollectGroup(src, stop, stop, g) == Some(g)
  {
  }

  /** Parsing what `WriteFrame` writes gives the frame back, whichever of the two forms it takes. */
  lemma FrameRoundTrip(src: seq<Byte>, p: nat, f: MuxFrame, timecode: int, scale: nat)
    requires scale > 0 && IsValid(f) && 0 <= timecode <= MAX_BLOCK_TIMECODE
    requires |f.payload| < 0x7FFF_FFFC && (f.additional.Some? ==> |f.additional.value| < 0x8000_0000)
    requires INT64_MIN <= f.discardPadding <= INT64_MAX && DurationValue(f, scale) <= INT64_MAX
    requires At(src, p, FrameBytes(f, timecode, scale))
    ensures HeaderAt(src, p, -1).Some?
    ensures var h := HeaderAt(src, p, -1).value;
            h.payload + h.size == p + |FrameBytes(f, timecode, scale)|
    ensures EntryAt(src, p).Some? && GivesBack(src, EntryAt(src, p).value, f, timecode, scale)
  {
    hide At, HeaderAt, EntryAt, SimpleBlockBytes, GroupBytes, GivesBack, IsValid, DurationValue;
    if CanBeSimpleBlock(f) {
      SimpleRoundTrip(src, p, f, timecode, scale);
    } else {
      GroupElementRoundTrip(src, p, f, timecode, scale);
    }
  }

  lemma GroupElementRoundTrip(src: seq<Byte>, p: nat, f: MuxFrame, timecode: int, scale: nat)
    requires scale > 0 && IsValid(f) && !CanBeSimpleBlock(f) && 0 <= timecode <= MAX_BLOCK_TIMECODE
    requires |f.payload| < 0x7FFF_FFFC && (f.additional.Some? ==> |f.additional.value| < 0x8000_0000)
    requires INT64_MIN <= f.discardPadding <= INT64_MAX && DurationValue(f, scale) <= INT64_MAX
    requires At(src, p, GroupBytes(f, timecode, scale))
    ensures HeaderAt(src, p, -1).Some?
    ensures var h := HeaderAt(src, p, -1).value;
            h.payload + h.size == p + |GroupBytes(f, timecode, scale)|
    ensures EntryAt(src, p).Some? && GivesBack(src, EntryAt(src, p).value, f, timecode, scale)
  {
    hide At, GroupPayload, EncodeElement, GroupEntryAt, IsValid, GivesBack, MasterSize, HeaderAt, ValidId,
         CanBeSimpleBlock, DurationValue;
    GroupIdValid();
    GroupFits(f, timecode, scale);
    var body := GroupPayload(f, timecode, scale);
    ElementAt(src, p, ID_BLOCK_GROUP, body);
    HeaderRoundTrip(src, p, -1, ID_BLOCK_GROUP, |body|);
    AtInside(src, p + MasterSize(ID_BLOCK_GROUP, |body|), body);
    GroupRoundTrip(src, p + MasterSize(ID_BLOCK_GROUP, |body|), f, timecode, scale);
  }

  lemma GroupFits(f: MuxFrame, timecode: int, scale: nat)
    requires scale > 0 && IsValid(f) && |f.payload| < 0x7FFF_FFFC &&
             (f.additional.Some? ==> |f.additional.value| < 0x8000_0000)
    ensures |GroupPayload(f, timecode, scale)| <= MAX_CODED
  {
    GroupSizes(f, timecode, scale);
    SizesCodable(f, scale);
    hide GroupPayload, GroupPayloadSize;
  }

  lemma GroupIdValid()
    ensures ValidId(ID_BLOCK_GROUP) && ValidId(ID_SIMPLE_BLOCK)
  {
  }

  lemma AtInside(src: seq<Byte>, p: int, bs: seq<Byte>)
    requires At(src, p, bs)
    ensures 0 <= p <= p + |bs| <= |src|
  {
  }

  lemma SimpleRoundTrip(src: seq<Byte>, p: nat, f: MuxFrame, timecode: int, scale: nat)
    requires scale > 0 && IsValid(f) && CanBeSimpleBlock(f) && 0 <= timecode <= MAX_BLOCK_TIMECODE &&
             |f.payload| < 0x7FFF_FFFC
    requires At(src, p, SimpleBlockBytes(f, timecode))
    ensures HeaderAt(src, p, -1).Some?
    ensures var h := HeaderAt(src, p, -1).value;
            h.payload + h.size == p + |SimpleBlockBytes(f, timecode)|
    ensures EntryAt(src, p).Some? && GivesBack(src, EntryAt(src, p).value, f, timecode, scale)
  {
    hide At, EncodeElement, BlockBytes, MasterSize, HeaderAt, L.BlockAt, ValidId, BlockStarts, DurationValue;
    GroupIdValid();
    var flags := if f.key then 0x80 else 0;
    var body := BlockBytes(f.track, timecode, flags, f.payload);
    BlockLength(f.track, timecode, flags, f.payload);
    ElementAt(src, p, ID_SIMPLE_BLOCK, body);
    HeaderRoundTrip(src, p, -1, ID_SIMPLE_BLOCK, |body|);
    BlockReadsBack(src, p + MasterSize(ID_SIMPLE_BLOCK, |body|), f.track, timecode, flags, f.payload);
  }

  // ----- a group with any children

  /** A child that both passes take: numbers of up to eight bytes, and a Block that begins as one. */
  predicate Sound(src: seq<Byte>, e: Element, h: Header) {
    && Coded(e) && (e.id == 0x9B ==> IsNumber(e)) && (e.id == 0xFB ==> 1 <= |e.body| <= 8)
    && (e.id == 0x75A2 ==> |e.body| <= 8)
    && (e.id == 0xA1 && e.body != [] ==> BlockStarts(src, h.payload, h.payload + h.size))
  }

  predicate AllSound(src: seq<Byte>, parts: seq<Element>, p: nat) {
    forall i :: 0 <= i < |parts| ==> Sound(src, parts[i], HeadersIn(parts, p)[i])
  }

  /** The first Block there is. */
  ghost predicate FirstBlock(parts: seq<Element>, p: nat, block: Option<Header>) {
    if block.None? then forall i :: 0 <= i < |parts| ==> parts[i].id != 0xA1
    else exists i :: 0 <= i < |parts| && parts[i].id == 0xA1 && HeadersIn(parts, p)[i] == block.value
                     && forall j :: 0 <= j < i ==> parts[j].id != 0xA1
  }

  lemma RestSound(src: seq<Byte>, parts: seq<Element>, p: nat)
    requires parts != [] && AllSound(src, parts, p)
    ensures Sound(src, parts[0], Header(parts[0].id, |parts[0].body|, p + MasterSize(parts[0].id, |parts[0].body|)))
    ensures AllSound(src, parts[1..], p + LengthOf(parts[0]))
  {
    hide Sound;
    var rest, hs, next := parts[1..], HeadersIn(parts, p), HeadersIn(parts[1..], p + LengthOf(parts[0]));
    forall i | 0 <= i < |rest| ensures Sound(src, rest[i], next[i]) {
      assert rest[i] == parts[i + 1] && next[i] == hs[i + 1];
    }
    assert Sound(src, parts[0], hs[0]);
  }

  lemma FirstBlockFirst(parts: seq<Element>, p: nat, block: Option<Header>)
    requires parts != []
    requires if parts[0].id == 0xA1 then block == Some(HeadersIn(parts, p)[0])
             else FirstBlock(parts[1..], p + LengthOf(parts[0]), block)
    ensures FirstBlock(parts, p, block)
  {
    hide HeadersIn;
    RestHeaders(parts, p);
    if parts[0].id != 0xA1 {
      if block.None? { NoneFirst(parts); } else { SomeFirst(parts, p, block.value); }
    }
  }

  lemma RestHeaders(parts: seq<Element>, p: nat)
    requires parts != []
    ensures HeadersIn(parts, p)[1..] == HeadersIn(parts[1..], p + LengthOf(parts[0]))
  {
    hide LengthOf, MasterSize;
  }

  lemma NoneFirst(parts: seq<Element>)
    requires parts != [] && parts[0].id != 0xA1 && forall i :: 0 <= i < |parts[1..]| ==> parts[1..][i].id != 0xA1
    ensures forall i :: 0 <= i < |parts| ==> parts[i].id != 0xA1
  {
    forall i | 0 <= i < |parts| ensures parts[i].id != 0xA1 { if i > 0 { assert parts[i] == parts[1..][i - 1]; } }
  }

  lemma SomeFirst(parts: seq<Element>, p: nat, h: Header)
    requires parts != [] && parts[0].id != 0xA1 && FirstBlock(parts[1..], p + LengthOf(parts[0]), Some(h))
    ensures FirstBlock(parts, p, Some(h))
  {
    hide HeadersIn, LengthOf;
    var rest, next := parts[1..], HeadersIn(parts[1..], p + LengthOf(parts[0]));
    var i :| 0 <= i < |rest| && rest[i].id == 0xA1 && next[i] == h && forall j :: 0 <= j < i ==> rest[j].id != 0xA1;
    RestHeaders(parts, p);
    assert HeadersIn(parts, p)[i + 1] == HeadersIn(parts, p)[1..][i];
    assert parts[i + 1] == rest[i];
    forall j | 0 <= j < i + 1 ensures parts[j].id != 0xA1 { if j > 0 { assert parts[j] == rest[j - 1]; } }
  }

  /** The first time through: the last padding there is. */
  lemma {:induction false} CheckAmong(src: seq<Byte>, p: nat, stop: int, parts: seq<Element>, discard: int)
      returns (d: int)
    requires At(src, p, ElementBytes(parts)) && stop == p + |ElementBytes(parts)| && AllSound(src, parts, p)
    ensures CheckGroup(src, p, stop, discard) == Some(d) && LastSigned(parts, 0x75A2, AnySign, discard, d)
    decreases |parts|
  {
    hide *;
    FirstElement(parts);
    if parts == [] {
      GroupEnds(src, stop, discard, Group(None, 1, 0, -1));
      LastOfNone(0x75A2, AnySign, discard);
      d := discard;
    } else {
      var e := parts[0];
      RestSound(src, parts, p);
      AtSplit(src, p, EncodeElement(e.id, e.body), ElementBytes(parts[1..]));
      CheckOver(src, p, stop, e, discard);
      d := CheckAmong(src, p + LengthOf(e), stop, parts[1..],
                      if IsSigned(e, 0x75A2, AnySign) then SignedFromBigEndian(e.body) else discard);
      LastSignedFirst(parts, 0x75A2, AnySign, discard, d);
    }
  }

  lemma CheckOver(src: seq<Byte>, p: nat, stop: int, e: Element, discard: int)
    requires At(src, p, EncodeElement(e.id, e.body)) && p + LengthOf(e) <= stop
    requires Sound(src, e, Header(e.id, |e.body|, p + MasterSize(e.id, |e.body|)))
    ensures CheckGroup(src, p, stop, discard)
            == CheckGroup(src, p + LengthOf(e), stop,
                          if IsSigned(e, 0x75A2, AnySign) then SignedFromBigEndian(e.body) else discard)
  {
    hide *;
    SoundCoded(src, e, Header(e.id, |e.body|, p + MasterSize(e.id, |e.body|)));
    ElementAt(src, p, e.id, e.body);
    BytesOf(src, p + MasterSize(e.id, |e.body|), e.body);
    CheckedIs(src, e, Header(e.id, |e.body|, p + MasterSize(e.id, |e.body|)), discard);
    LengthIs(e);
    CheckStep(src, p, stop, e.id, e.body, discard,
              if IsSigned(e, 0x75A2, AnySign) then SignedFromBigEndian(e.body) else discard);
  }

  lemma SoundCoded(src: seq<Byte>, e: Element, h: Header)
    requires Sound(src, e, h)
    ensures ValidId(e.id) && |e.body| <= MAX_CODED
  {
    hide ValidId, BlockStarts;
  }

  lemma LengthIs(e: Element)
    ensures LengthOf(e) == |EncodeElement(e.id, e.body)|
  {
  }

  lemma CheckedIs(src: seq<Byte>, e: Element, h: Header, discard: int)
    requires Sound(src, e, h) && h.id == e.id && h.size == |e.body| && 0 <= h.payload <= h.payload + h.size <= |src|
    requires src[h.payload..h.payload + h.size] == e.body
    ensures Checked(src, h, discard)
            == Some(if IsSigned(e, 0x75A2, AnySign) then SignedFromBigEndian(e.body) else discard)
  {
    hide BlockStarts, SignedFromBigEndian, ValidId;
  }

  /** What becomes of a group with one more child. */
  function Joined(g: Group, e: Element, h: Header): Group {
    Group(if e.id == 0xA1 && g.block.None? then Some(h) else g.block,
          if IsSigned(e, 0xFB, NotPositive) then SignedFromBigEndian(e.body) else g.prev,
          if IsSigned(e, 0xFB, Positive) then SignedFromBigEndian(e.body) else g.next,
          if e.id == 0x9B then FromBigEndian(e.body) else g.duration)
  }

  lemma CollectOver(src: seq<Byte>, p: nat, stop: int, e: Element, g: Group)
    requires At(src, p, EncodeElement(e.id, e.body)) && p + LengthOf(e) <= stop
    requires Sound(src, e, Header(e.id, |e.body|, p + MasterSize(e.id, |e.body|)))
    ensures CollectGroup(src, p, stop, g)
            == CollectGroup(src, p + LengthOf(e), stop,
                            Joined(g, e, Header(e.id, |e.body|, p + MasterSize(e.id, |e.body|))))
  {
    hide At, EncodeElement, CollectGroup, BlockStarts, SignedFromBigEndian, FromBigEndian, ToInt64, ValidId, MasterSize;
    ElementAt(src, p, e.id, e.body);
    BytesOf(src, p + MasterSize(e.id, |e.body|), e.body);
    if e.id == 0x9B {
      FromBigEndianBound(e.body);
      ToInt64Keeps(FromBigEndian(e.body));
    }
    var h := Header(e.id, |e.body|, p + MasterSize(e.id, |e.body|));
    CollectStep(src, p, stop, e.id, e.body, g, Joined(g, e, h));
  }

  /** The second time through: the first Block, the last duration, and the last reference to either side. */
  lemma {:induction false} CollectAmong(src: seq<Byte>, p: nat, stop: int, parts: seq<Element>, g: Group)
      returns (all: Group)
    requires At(src, p, ElementBytes(parts)) && stop == p + |ElementBytes(parts)| && AllSound(src, parts, p)
    ensures CollectGroup(src, p, stop, g) == Some(all)
    ensures if g.block.Some? then all.block == g.block else FirstBlock(parts, p, all.block)
    ensures LastNumber(parts, 0x9B, g.duration, all.duration)
    ensures LastSigned(parts, 0xFB, NotPositive, g.prev, all.prev)
    ensures LastSigned(parts, 0xFB, Positive, g.next, all.next)
    decreases |parts|
  {
    hide *;
    FirstElement(parts);
    if parts == [] {
      GroupEnds(src, stop, 0, g);
      NoBlock(p);
      LastOfNone(0x9B, AnySign, g.duration);
      LastOfNone(0xFB, NotPositive, g.prev);
      LastOfNone(0xFB, Positive, g.next);
      all := g;
    } else {
      var e := parts[0];
      var h := Header(e.id, |e.body|, p + MasterSize(e.id, |e.body|));
      RestSound(src, parts, p);
      AtSplit(src, p, EncodeElement(e.id, e.body), ElementBytes(parts[1..]));
      CollectOver(src, p, stop, e, g);
      all := CollectAmong(src, p + LengthOf(e), stop, parts[1..], Joined(g, e, h));
      JoinedIs(g, e, h);
      FirstHeader(parts, p);
      if g.block.None? { FirstBlockFirst(parts, p, all.block); }
      LastNumberFirst(parts, 0x9B, g.duration, all.duration);
      LastSignedFirst(parts, 0xFB, NotPositive, g.prev, all.prev);
      LastSignedFirst(parts, 0xFB, Positive, g.next, all.next);
    }
  }

  lemma NoBlock(p: nat)
    ensures FirstBlock([], p, None)
  {
  }

  lemma JoinedIs(g: Group, e: Element, h: Header)
    ensures var more := Joined(g, e, h);
            && more.block == (if e.id == 0xA1 && g.block.None? then Some(h) else g.block)
            && more.prev == (if IsSigned(e, 0xFB, NotPositive) then SignedFromBigEndian(e.body) else g.prev)
            && more.next == (if IsSigned(e, 0xFB, Positive) then SignedFromBigEndian(e.body) else g.next)
            && more.duration == if e.id == 0x9B then FromBigEndian(e.body) else g.duration
  {
    hide IsSigned, SignedFromBigEndian, FromBigEndian;
  }

  lemma FirstHeader(parts: seq<Element>, p: nat)
    requires parts != []
    ensures HeadersIn(parts, p)[0] == Header(parts[0].id, |parts[0].body|, p + MasterSize(parts[0].id, |parts[0].body|))
  {
  }

  lemma BlockPlace(parts: seq<Element>, p: nat, block: Option<Header>)
    requires FirstBlock(parts, p, block)
    ensures block.Some? ==> block.value.payload >= 0 && block.value.size >= 0
  {
    hide HeadersIn;
  }

  /** A BlockGroup with children in any order and number, others among them: its entry is that of the first Block, with
      the last duration, the last padding, and the last references back and forward; it is a key frame exactly when
      there is no reference. */
  lemma GroupAmong(src: seq<Byte>, p: nat, parts: seq<Element>) returns (g: Group, d: int)
    requires At(src, p, ElementBytes(parts)) && AllSound(src, parts, p)
    ensures FirstBlock(parts, p, g.block) && LastNumber(parts, 0x9B, -1, g.duration)
    ensures g.block.Some? ==> g.block.value.payload >= 0 && g.block.value.size >= 0
    ensures LastSigned(parts, 0xFB, NotPositive, 1, g.prev) && LastSigned(parts, 0xFB, Positive, 0, g.next)
    ensures LastSigned(parts, 0x75A2, AnySign, 0, d)
    ensures GroupEntryAt(src, p, |ElementBytes(parts)|)
            == if g.block.None? || L.BlockAt(src, g.block.value.payload, g.block.value.size).None? then None
               else Some(GroupEntry(g.block.value.payload, g.block.value.size,
                                    L.BlockAt(src, g.block.value.payload, g.block.value.size).value,
                                    g.prev > 0 && g.next <= 0, g.prev, g.next, g.duration, d))
  {
    hide At, ElementBytes, AllSound, FirstBlock, HeadersIn, LastNumber, LastSigned, CheckGroup, CollectGroup, L.BlockAt;
    var stop := p + |ElementBytes(parts)|;
    AtInside(src, p, ElementBytes(parts));
    d := CheckAmong(src, p, stop, parts, 0);
    g := CollectAmong(src, p, stop, parts, Group(None, 1, 0, -1));
    BlockPlace(parts, p, g.block);
  }
}
