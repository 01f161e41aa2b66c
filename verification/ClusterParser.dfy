/** The parser's cluster (libwebm/mkvparser/mkvparser.cc, class `Cluster`): its entries are parsed one at a time,
    as they are asked for, and are found again from a cue. */
module ClusterParser {
  import opened Bytes
  import opened Ebml
  import opened EbmlReader
  import opened BlockEntries
  import L = Lacing

  // ----- what stands in a cluster

  /** The elements that end a cluster whose size is not known. */
  predicate EndsCluster(id: int) {
    id == ID_CLUSTER || id == ID_CUES
  }

  predicate IsBlock(id: int) {
    id == ID_BLOCK_GROUP || id == ID_SIMPLE_BLOCK
  }

  /** The value of an unsigned element, if it is one. */
  function UIntOf(src: seq<Byte>, h: Header): (value: Option<int>)
    ensures value.Some? ==> value.value >= 0
  {
    if ValueAt(src, h) >= 0 then Some(ValueAt(src, h)) else None
  }

  /** The last timecode in front of the first block, and where it ends; a cluster must have both. */
  function TimecodeAt(src: seq<Byte>, pos: int, stop: int, timecode: int, behind: int): (r: Option<(int, int)>)
    ensures r.Some? ==> r.value.0 >= 0 && (r.value == (timecode, behind) || pos < r.value.1 <= |src|)
    decreases |src| - pos
  {
    if stop >= 0 && pos >= stop then None
    else match ChildAt(src, pos, stop)
         case None => None
         case Some(h) =>
           if EndsCluster(h.id) then None
           else if h.size == 0 then TimecodeAt(src, h.payload, stop, timecode, behind)
           else if stop >= 0 && h.payload + h.size > stop then None
           else if IsBlock(h.id) then if timecode < 0 then None else Some((timecode, behind))
           else if h.id == ID_TIMECODE then
             if UIntOf(src, h).None? then None
             else TimecodeAt(src, h.payload + h.size, stop, UIntOf(src, h).value, h.payload + h.size)
           else TimecodeAt(src, h.payload + h.size, stop, timecode, behind)
  }

  /** What loading finds out: the timecode, where it ends, and where the cluster ends (-1 if that is not known). */
  datatype Loaded = Loaded(timecode: int, pos: int, stop: int)

  function LoadAt(src: seq<Byte>, start: int): (l: Option<Loaded>)
    ensures l.Some? ==> l.value.timecode >= 0 && l.value.pos > start
  {
    if IdAt(src, start).None? || IdAt(src, start).value.0 != ID_CLUSTER then None
    else
      var at := start + IdAt(src, start).value.1;
      if UIntAt(src, at).None? || UIntAt(src, at).value.0 == 0 then None
      else
        var (size, len) := UIntAt(src, at).value;
        var stop := if size == Pow128(len) - 1 then -1 else at + len + size;
        match TimecodeAt(src, at + len, stop, -1, -1)
        case None => None
        case Some((timecode, behind)) => Some(Loaded(timecode, behind, stop))
  }

  /** What comes next in a cluster: nothing that can be parsed, the end, or a block. */
  datatype Step = Bad | Done(pos: int) | Next(h: Header)

  function StepAt(src: seq<Byte>, pos: int, stop: int): (s: Step)
    ensures s.Next? ==> pos < s.h.payload <= |src| && s.h.size > 0 && IsBlock(s.h.id)
    ensures s.Next? ==> s.h.payload + s.h.size <= if stop >= 0 then stop else |src|
    ensures s.Done? ==> pos <= s.pos && (s.pos <= pos || s.pos <= if stop >= 0 then stop else |src|)
    decreases |src| - pos
  {
    if (stop >= 0 && pos >= stop) || pos >= |src| then Done(pos)
    else if IdAt(src, pos).None? || (stop >= 0 && pos + IdAt(src, pos).value.1 > stop) then Bad
    else if EndsCluster(IdAt(src, pos).value.0) then Done(pos)
    else match ChildAt(src, pos, stop)
         case None => Bad
         case Some(h) =>
           if h.size == 0 then StepAt(src, h.payload, stop)
           else if stop >= 0 && h.payload + h.size > stop then if IsBlock(h.id) then Bad else Done(stop)
           else if stop < 0 && h.payload + h.size > |src| then Done(|src|)
           else if IsBlock(h.id) then Next(h)
           else StepAt(src, h.payload + h.size, stop)
  }

  /** The last block must lie in the cluster and in the file. */
  predicate LastFits(entries: seq<Entry>, stop: int, length: nat) {
    entries != [] ==>
      var e := entries[|entries| - 1];
      e.start + e.size <= length && (stop >= 0 ==> e.start + e.size <= stop)
  }

  /** Where the end has been found, it is found again. */
  lemma {:induction false} DoneAgain(src: seq<Byte>, pos: int, stop: int)
    requires StepAt(src, pos, stop).Done?
    ensures var q := StepAt(src, pos, stop).pos;
            StepAt(src, q, stop) == Done(q)
    decreases |src| - pos
  {
    hide ChildAt, IdAt, HeaderAt;
    if (stop < 0 || pos < stop) && pos < |src| && !EndsCluster(IdAt(src, pos).value.0) {
      var h := ChildAt(src, pos, stop).value;
      if h.size == 0 {
        DoneAgain(src, h.payload, stop);
      } else if if stop >= 0 then h.payload + h.size <= stop else h.payload + h.size <= |src| {
        DoneAgain(src, h.payload + h.size, stop);
      }
    }
  }

  /** All entries there will be, `entries` being those up to `pos`. */
  function EntriesFrom(src: seq<Byte>, entries: seq<Entry>, pos: int, stop: int): (r: Option<seq<Entry>>)
    ensures r.Some? ==> entries <= r.value
    decreases |src| - pos
  {
    if stop >= 0 && pos >= stop then Some(entries)
    else match StepAt(src, pos, stop)
         case Bad => None
         case Done(_) => if LastFits(entries, stop, |src|) then Some(entries) else None
         case Next(h) =>
           match EntryOf(src, h)
           case None => None
           case Some(e) => EntriesFrom(src, entries + [e], h.payload + h.size, stop)
  }

  // ----- elements of any kind

  /** An element that does not end a cluster of unknown size, as another Cluster or Cues element does. */
  predicate Stays(e: Element) {
    ValidId(e.id) && |e.body| <= MAX_CODED && e.id != 0x1F43B675 && e.id != 0x1C53BB6B
  }

  /** A SimpleBlock or a BlockGroup with something in it. */
  predicate HoldsBlock(e: Element) {
    (e.id == 0xA3 || e.id == 0xA0) && e.body != []
  }

  /** The blocks among some elements, of which the first begins at `p`. */
  function BlocksAmong(parts: seq<Element>, p: nat): seq<Header> {
    if |parts| == 0 then []
    else
      var e := parts[0];
      (if HoldsBlock(e) then [Header(e.id, |e.body|, p + MasterSize(e.id, |e.body|))] else [])
          + BlocksAmong(parts[1..], p + LengthOf(e))
  }

  /** An element is a block, or is passed over. */
  lemma StepOver(src: seq<Byte>, p: nat, stop: int, e: Element)
    requires At(src, p, EncodeElement(e.id, e.body)) && Stays(e) && (stop < 0 || p + LengthOf(e) <= stop)
    ensures p < p + LengthOf(e) <= |src|
    ensures ChildAt(src, p, stop) == Some(Header(e.id, |e.body|, p + MasterSize(e.id, |e.body|)))
    ensures StepAt(src, p, stop) == if HoldsBlock(e) then Next(Header(e.id, |e.body|, p + MasterSize(e.id, |e.body|)))
                                    else StepAt(src, p + LengthOf(e), stop)
  {
    hide At, EncodeElement, HeaderAt, ChildAt, MasterSize, ValidId, IdAt, UIntAt, Pow128;
    ChildReadsBack(src, p, stop, e.id, e.body);
    ChildParts(src, p, stop);
    MasterPositive(e.id, |e.body|);
    AtInside(src, p, EncodeElement(e.id, e.body));
  }

  /** Elements between which a cluster ends: its size is up, or it has none and the file ends or another Cluster or the
      Cues begin. */
  predicate EndsThere(src: seq<Byte>, p: nat, stop: int) {
    stop == p || (stop < 0 && (p == |src| || (p < |src| && IdAt(src, p).Some?
                                               && IdAt(src, p).value.0 in {0x1F43B675, 0x1C53BB6B})))
  }

  lemma EndStep(src: seq<Byte>, p: nat, stop: int)
    requires EndsThere(src, p, stop)
    ensures StepAt(src, p, stop) == Done(p)
  {
    hide IdAt, ChildAt;
  }

  /** Every entry lies in the element it was read from. */
  lemma EntryInside(src: seq<Byte>, h: Header)
    requires EntryOf(src, h).Some?
    ensures var e := EntryOf(src, h).value;
            e.start + e.size <= h.payload + h.size
  {
    hide CheckGroup, CollectGroup, L.BlockAt, L.LacingOf;
    if h.id == ID_BLOCK_GROUP { BlockInside(src, h.payload, h.payload + h.size, Group(None, 1, 0, -1)); }
  }

  lemma {:induction false} BlockInside(src: seq<Byte>, pos: int, stop: int, g: Group)
    requires CollectGroup(src, pos, stop, g).Some? && (g.block.Some? ==> Ends(g.block.value) <= stop)
    ensures var more := CollectGroup(src, pos, stop, g).value;
            more.block.Some? ==> Ends(more.block.value) <= stop
    decreases stop - pos
  {
    hide HeaderAt, FromBigEndian, SignedFromBigEndian, ToInt64;
    if pos < stop {
      var h := HeaderAt(src, pos, stop).value;
      BlockInside(src, h.payload + h.size, stop, Collected(src, h, g).value);
    }
  }

  function EntriesIn(src: seq<Byte>, blocks: seq<Header>): (es: seq<Entry>)
    requires forall h :: h in blocks ==> EntryOf(src, h).Some?
    ensures |es| == |blocks| && forall i :: 0 <= i < |es| ==> es[i] == EntryOf(src, blocks[i]).value
  {
    seq(|blocks|, i requires 0 <= i < |blocks| => EntryOf(src, blocks[i]).value)
  }

  lemma NoParts(parts: seq<Element>, p: nat)
    requires parts == []
    ensures ElementBytes(parts) == [] && BlocksAmong(parts, p) == []
  {
  }

  lemma FirstPart(parts: seq<Element>, p: nat)
    requires parts != []
    ensures ElementBytes(parts) == EncodeElement(parts[0].id, parts[0].body) + ElementBytes(parts[1..])
    ensures LengthOf(parts[0]) == |EncodeElement(parts[0].id, parts[0].body)|
    ensures var e := parts[0];
            var rest := BlocksAmong(parts[1..], p + LengthOf(e));
            BlocksAmong(parts, p)
            == if HoldsBlock(e) then [Header(e.id, |e.body|, p + MasterSize(e.id, |e.body|))] + rest else rest
  {
    hide EncodeElement, HoldsBlock;
  }

  lemma EntriesEnd(src: seq<Byte>, before: seq<Entry>, p: nat, stop: int)
    requires StepAt(src, p, stop) == Done(p) && LastFits(before, stop, |src|)
    ensures EntriesFrom(src, before, p, stop) == Some(before)
  {
    hide StepAt, LastFits;
  }

  lemma {:induction false} EntriesOver(src: seq<Byte>, before: seq<Entry>, p: nat, next: nat, stop: int)
    requires StepAt(src, p, stop) == StepAt(src, next, stop) && LastFits(before, stop, |src|)
    requires p < next && (stop < 0 || next <= stop)
    ensures EntriesFrom(src, before, p, stop) == EntriesFrom(src, before, next, stop)
  {
    hide LastFits, EntryOf, StepAt;
    if next == stop { DoneThere(src, stop); }
  }

  lemma DoneThere(src: seq<Byte>, stop: nat)
    ensures StepAt(src, stop, stop) == Done(stop)
  {
  }

  lemma {:induction false} EntriesNext(src: seq<Byte>, before: seq<Entry>, p: nat, stop: int, h: Header)
    requires StepAt(src, p, stop) == Next(h) && EntryOf(src, h).Some? && (stop < 0 || p < stop)
    requires h.payload + h.size <= |src|
    ensures EntriesFrom(src, before, p, stop)
            == EntriesFrom(src, before + [EntryOf(src, h).value], h.payload + h.size, stop)
    ensures LastFits(before + [EntryOf(src, h).value], stop, |src|)
  {
    hide EntryOf, StepAt;
    EntryInside(src, h);
  }

  /** The entries of a cluster are those of its blocks, in order, whatever other elements stand between them. */
  lemma {:induction false} EntriesAmong(src: seq<Byte>, before: seq<Entry>, p: nat, stop: int, parts: seq<Element>)
    requires At(src, p, ElementBytes(parts)) && (forall i :: 0 <= i < |parts| ==> Stays(parts[i]))
    requires EndsThere(src, p + |ElementBytes(parts)|, stop) && LastFits(before, stop, |src|)
    requires forall h :: h in BlocksAmong(parts, p) ==> EntryOf(src, h).Some?
    ensures EntriesFrom(src, before, p, stop) == Some(before + EntriesIn(src, BlocksAmong(parts, p)))
    decreases |parts|
  {
    hide *;
    var blocks := BlocksAmong(parts, p);
    if |parts| == 0 {
      NoParts(parts, p);
      EndStep(src, p, stop);
      EntriesEnd(src, before, p, stop);
      assert before + EntriesIn(src, blocks) == before;
    } else {
      var e, next := parts[0], p + LengthOf(parts[0]);
      var rest := BlocksAmong(parts[1..], next);
      FirstPart(parts, p);
      AtSplit(src, p, EncodeElement(e.id, e.body), ElementBytes(parts[1..]));
      EndsInside(src, next + |ElementBytes(parts[1..])|, stop);
      StepOver(src, p, stop, e);
      if HoldsBlock(e) {
        var h := blocks[0];
        assert blocks == [h] + rest && h in blocks && forall g :: g in rest ==> g in blocks;
        EntriesNext(src, before, p, stop, h);
        var more := before + [EntryOf(src, h).value];
        BlockEnd(e, p);
        EntriesAmong(src, more, next, stop, parts[1..]);
        assert more + EntriesIn(src, rest) == before + EntriesIn(src, blocks);
      } else {
        EntriesOver(src, before, p, next, stop);
        EntriesAmong(src, before, next, stop, parts[1..]);
      }
    }
  }

  lemma EndsInside(src: seq<Byte>, p: nat, stop: int)
    requires EndsThere(src, p, stop)
    ensures stop < 0 || stop == p
  {
  }

  lemma BlockEnd(e: Element, p: nat)
    ensures p + MasterSize(e.id, |e.body|) + |e.body| == p + LengthOf(e)
  {
  }

  // ----- the timecode of a cluster

  /** A timecode element that can be read. */
  predicate IsTimecode(e: Element) {
    e.id == 0xE7 && 1 <= |e.body| <= 8 && FromBigEndian(e.body) <= INT64_MAX
  }

  /** What may stand in front of the first block. */
  predicate BeforeBlocks(e: Element) {
    Stays(e) && !HoldsBlock(e) && (e.id == 0xE7 ==> e.body == [] || IsTimecode(e))
  }

  /** One element in front of the first block. */
  lemma TimecodeOver(src: seq<Byte>, p: nat, stop: int, e: Element, timecode: int, behind: int)
    requires At(src, p, EncodeElement(e.id, e.body)) && BeforeBlocks(e) && (stop < 0 || p + LengthOf(e) <= stop)
    ensures TimecodeAt(src, p, stop, timecode, behind)
            == if IsTimecode(e) then TimecodeAt(src, p + LengthOf(e), stop, FromBigEndian(e.body), p + LengthOf(e))
               else TimecodeAt(src, p + LengthOf(e), stop, timecode, behind)
  {
    hide At, EncodeElement, HeaderAt, ChildAt, MasterSize, ValidId, IdAt, UIntAt, Pow128, FromBigEndian, ToInt64;
    StepOver(src, p, stop, e);
    ChildReadsBack(src, p, stop, e.id, e.body);
    BlockEnd(e, p);
    if IsTimecode(e) {
      BytesOf(src, p + MasterSize(e.id, |e.body|), e.body);
      FromBigEndianBound(e.body);
      ToInt64Keeps(FromBigEndian(e.body));
    }
  }

  /** Elements without a timecode leave the one before them. */
  lemma {:induction false} NoTimecodeAmong(src: seq<Byte>, p: nat, stop: int, parts: seq<Element>, timecode: int,
                                           behind: int)
    requires At(src, p, ElementBytes(parts)) && (stop < 0 || p + |ElementBytes(parts)| <= stop)
    requires forall i :: 0 <= i < |parts| ==> BeforeBlocks(parts[i]) && !IsTimecode(parts[i])
    ensures TimecodeAt(src, p, stop, timecode, behind)
            == TimecodeAt(src, p + |ElementBytes(parts)|, stop, timecode, behind)
    decreases |parts|
  {
    hide *;
    if |parts| == 0 {
      NoParts(parts, p);
    } else {
      var e, next := parts[0], p + LengthOf(parts[0]);
      FirstPart(parts, p);
      AtSplit(src, p, EncodeElement(e.id, e.body), ElementBytes(parts[1..]));
      TimecodeOver(src, p, stop, e, timecode, behind);
      NoTimecodeAmong(src, next, stop, parts[1..], timecode, behind);
    }
  }

  /** Whatever elements, other timecodes among them, come first. */
  lemma {:induction false} TimecodesPassed(src: seq<Byte>, p: nat, stop: int, parts: seq<Element>, timecode: int,
                                           behind: int) returns (now: int, at: int)
    requires At(src, p, ElementBytes(parts)) && (stop < 0 || p + |ElementBytes(parts)| <= stop)
    requires forall i :: 0 <= i < |parts| ==> BeforeBlocks(parts[i])
    ensures TimecodeAt(src, p, stop, timecode, behind) == TimecodeAt(src, p + |ElementBytes(parts)|, stop, now, at)
    decreases |parts|
  {
    hide *;
    if |parts| == 0 {
      NoParts(parts, p);
      now, at := timecode, behind;
    } else {
      var e, next := parts[0], p + LengthOf(parts[0]);
      FirstPart(parts, p);
      AtSplit(src, p, EncodeElement(e.id, e.body), ElementBytes(parts[1..]));
      TimecodeOver(src, p, stop, e, timecode, behind);
      now, at := if IsTimecode(e) then FromBigEndian(e.body) else timecode, if IsTimecode(e) then next else behind;
      now, at := TimecodesPassed(src, next, stop, parts[1..], now, at);
    }
  }

  lemma TimecodeBlock(src: seq<Byte>, p: nat, stop: int, b: Element, timecode: int, behind: int)
    requires At(src, p, EncodeElement(b.id, b.body)) && Stays(b) && HoldsBlock(b) &&
             (stop < 0 || p + LengthOf(b) <= stop)
    ensures TimecodeAt(src, p, stop, timecode, behind) == if timecode < 0 then None else Some((timecode, behind))
  {
    hide At, EncodeElement, HeaderAt, ChildAt, MasterSize, ValidId, IdAt, UIntAt, Pow128;
    StepOver(src, p, stop, b);
    BlockEnd(b, p);
  }

  /** The timecode is the last one in front of the first block, and the blocks begin behind it. */
  lemma LastTimecode(src: seq<Byte>, p: nat, stop: int, first: seq<Element>, e: Element, more: seq<Element>, b: Element)
      returns (q: nat)
    requires (forall i :: 0 <= i < |first| ==> BeforeBlocks(first[i])) && BeforeBlocks(e) && IsTimecode(e)
    requires forall i :: 0 <= i < |more| ==> BeforeBlocks(more[i]) && !IsTimecode(more[i])
    requires Stays(b) && HoldsBlock(b)
    requires At(src, p, ElementBytes(first)) && At(src, p + |ElementBytes(first)|, EncodeElement(e.id, e.body))
    requires var q := p + |ElementBytes(first)| + LengthOf(e);
             && At(src, q, ElementBytes(more)) && At(src, q + |ElementBytes(more)|, EncodeElement(b.id, b.body))
             && (stop < 0 || q + |ElementBytes(more)| + LengthOf(b) <= stop)
    ensures q == p + |ElementBytes(first)| + LengthOf(e)
    ensures TimecodeAt(src, p, stop, -1, -1) == Some((FromBigEndian(e.body) as int, q as int))
  {
    hide *;
    q := p + |ElementBytes(first)| + LengthOf(e);
    var now, at := TimecodesPassed(src, p, stop, first, -1, -1);
    TimecodeOver(src, p + |ElementBytes(first)|, stop, e, now, at);
    NoTimecodeAmong(src, q, stop, more, FromBigEndian(e.body), q);
    TimecodeBlock(src, q + |ElementBytes(more)|, stop, b, FromBigEndian(e.body), q);
  }

  /** The time of an entry, in the scale's units; -1 if it does not fit. */
  function TimeOf(e: Entry, timecode: int): int {
    if timecode < 0 || INT64_MAX - timecode < e.block.timecode then -1 else timecode + e.block.timecode
  }

  const VIDEO: int := 1
  const AUDIO: int := 2

  /** The entry a cue means when its number does not help: the first one of the track that is not too early. */
  function SearchCue(entries: seq<Entry>, index: nat, timecode: int, time: int, track: int,
                     types: map<int, int>): (i: int)
    ensures i == -1 || index <= i < |entries|
    decreases |entries| - index
  {
    if index >= |entries| then -1
    else
      var e := entries[index];
      if e.block.track != track || TimeOf(e, timecode) < time then
          SearchCue(entries, index + 1, timecode, time, track, types)
      else if TimeOf(e, timecode) > time || track !in types then -1
      else if types[track] == AUDIO then index
      else if types[track] != VIDEO || !e.key then -1
      else index
  }

  /** The index of the entry a cue means, or -1. */
  function CueEntry(entries: seq<Entry>, timecode: int, time: int, track: int, block: int,
                    types: map<int, int>): (i: int)
    ensures i == -1 || 0 <= i < |entries|
  {
    if block > 0 && block - 1 >= |entries| then -1
    else if block > 0 && entries[block - 1].block.track == track &&
        TimeOf(entries[block - 1], timecode) == time then block - 1
    else SearchCue(entries, 0, timecode, time, track, types)
  }

  // ----- the parser

  class Cluster {
    const elementStart: nat
    var pos: int
    /** -1 until they are known. */
    var elementSize: int
    var timecode: int
    var entries: seq<Entry>

    constructor (elementStart: nat)
      ensures this.elementStart == elementStart && Unloaded()
    {
      this.elementStart, pos, elementSize, timecode, entries := elementStart, elementStart, -1, -1, [];
    }

    predicate Unloaded()
      reads this
    {
      pos == elementStart && elementSize == -1 && timecode == -1 && entries == []
    }

    predicate Valid()
      reads this
    {
      (timecode < 0 ==> Unloaded()) && (timecode >= 0 ==> elementStart < pos <= INT64_MAX) && Stop() <= INT64_MAX
    }

    function Stop(): int
      reads `elementSize
    {
      if elementSize < 0 then -1 else elementStart + elementSize
    }

    /** All entries the cluster has, those still to be parsed included; none if it cannot be parsed. */
    ghost function All(src: seq<Byte>): (r: Option<seq<Entry>>)
      reads this
    {
      if timecode >= 0 then EntriesFrom(src, entries, pos, Stop())
      else match LoadAt(src, elementStart)
           case None => None
           case Some(l) => EntriesFrom(src, [], l.pos, l.stop)
    }

    /** A SimpleBlock with its payload from `start` on. */
    method ParseSimpleBlock(src: seq<Byte>, start: nat, size: nat) returns (status: int)
      requires |src| <= INT64_MAX && start + size <= INT64_MAX
      modifies `pos, `entries
      ensures status <= 0 && (status == 0 <==> SimpleEntryAt(src, start, size).Some?)
      ensures if status == 0 then entries == old(entries) + [SimpleEntryAt(src, start, size).value] &&
              this.pos == start + size
              else entries == old(entries) && this.pos == old(this.pos)
    {
      hide UIntAt, L.FramesAt;
      var pos, stop := start, start + size;
      var track, len := ReadUInt(src, pos);
      if track < 0 { return track; }
      if pos + len > stop { return E_FILE_FORMAT_INVALID; }
      if track == 0 { return E_FILE_FORMAT_INVALID; }
      pos := pos + len;
      if pos + 2 > stop { return E_FILE_FORMAT_INVALID; }
      pos := pos + 2;
      if pos + 1 > stop || pos + 1 > |src| { return E_FILE_FORMAT_INVALID; }
      var flags := src[pos];
      pos := pos + 1;
      NoRoom(src, pos, stop, L.LacingOf(flags));
      if pos >= stop { return E_FILE_FORMAT_INVALID; }
      var lacing := L.LacingOf(flags);
      if lacing != 0 && stop > |src| { return E_FILE_FORMAT_INVALID; }
      var block := new L.Block(start, size);
      status := block.Parse(src);
      if status != 0 { return; }
      entries := entries + [SimpleEntry(start, size,
                                        L.BlockValue(block.track, block.timecode, block.flags, block.frames[..]),
                                            block.flags >= 0x80)];
      this.pos := stop;
    }

    /** A BlockGroup with its payload from `start` on: first every child is checked. */
    method ParseBlockGroup(src: seq<Byte>, start: nat, size: nat) returns (status: int)
      requires |src| <= INT64_MAX && start + size <= INT64_MAX
      modifies `pos, `entries
      ensures status <= 0 && (status == 0 <==> GroupEntryAt(src, start, size).Some?)
      ensures if status == 0 then entries == old(entries) + [GroupEntryAt(src, start, size).value] &&
              this.pos == start + size
              else entries == old(entries) && this.pos == old(this.pos)
    {
      hide ChildAt, Checked, HeaderAt, CollectGroup, GroupEntryOf;
      var pos, stop := start, start + size;
      if stop > |src| { return E_FILE_FORMAT_INVALID; }
      var discard := 0;
      while pos < stop
        invariant 0 <= pos && CheckGroup(src, start, stop, 0) == CheckGroup(src, pos, stop, discard)
        invariant entries == old(entries) && this.pos == old(this.pos)
        decreases stop - pos
      {
        var h, ok;
        ok, h := ReadChild(src, pos, stop);
        if !ok { return E_FILE_FORMAT_INVALID; }
        var next;
        ok, next := CheckChild(src, h, discard);
        if !ok || h.payload + h.size > stop { return E_FILE_FORMAT_INVALID; }
        discard, pos := next, h.payload + h.size;
      }
      if pos != stop { return E_FILE_FORMAT_INVALID; }
      status := CreateBlockGroup(src, start, size, discard);
      if status != 0 { return; }
      this.pos := stop;
    }

    /** Then what the children say is collected, and the block is read. */
    method CreateBlockGroup(src: seq<Byte>, start: nat, size: nat, discard: int) returns (status: int)
      requires |src| <= INT64_MAX && start + size <= |src|
      requires CheckGroup(src, start, start + size, 0).Some?
      modifies this`entries
      ensures var g := CollectGroup(src, start, start + size, Group(None, 1, 0, -1));
              var e := if g.Some? then GroupEntryOf(src, g.value, discard) else None;
              && status <= 0 && (status == 0 <==> e.Some?)
              && entries == old(entries) + if status == 0 then [e.value] else []
    {
      hide HeaderAt, ChildAt, Checked, Collected;
      var pos, stop := start, start + size;
      var g := Group(None, 1, 0, -1);
      ghost var d := 0;
      while pos < stop
        invariant 0 <= pos && CheckGroup(src, pos, stop, d).Some? && entries == old(entries)
        invariant g.block.Some? ==> InFile(src, g.block.value)
        invariant CollectGroup(src, start, stop, Group(None, 1, 0, -1)) == CollectGroup(src, pos, stop, g)
        decreases stop - pos
      {
        ghost var child := HeaderAt(src, pos, stop).value;
        var h := ReadHeader(src, pos, stop);
        HeaderBounds(src, pos, stop);
        d := Checked(src, child, d).value;
        CollectedBlock(src, h, g);
        var ok;
        ok, g := Collect(src, h, g);
        if !ok { return E_FILE_FORMAT_INVALID; }
        pos := h.payload + h.size;
      }
      if g.block.None? { return E_FILE_FORMAT_INVALID; }
      status := CreateEntry(src, g, discard);
    }

    method CreateEntry(src: seq<Byte>, g: Group, discard: int) returns (status: int)
      requires |src| <= INT64_MAX && g.block.Some? && InFile(src, g.block.value)
      modifies this`entries
      ensures var e := GroupEntryOf(src, g, discard);
              status <= 0 && (status == 0 <==> e.Some?) &&
                  entries == old(entries) + if status == 0 then [e.value] else []
    {
      hide L.BlockAt;
      var block := new L.Block(g.block.value.payload, g.block.value.size);
      status := block.Parse(src);
      if status != 0 { return; }
      var key := g.prev > 0 && g.next <= 0;
      var value := L.BlockValue(block.track, block.timecode, block.flags, block.frames[..]);
      entries := entries + [GroupEntry(g.block.value.payload, g.block.value.size, value, key, g.prev, g.next,
                                       g.duration, discard)];
    }

    /** Finds the timecode, the first time. */
    method Load(src: seq<Byte>) returns (status: int)
      requires |src| <= INT64_MAX
      modifies `pos, `elementSize, `timecode
      ensures status <= 0
      ensures old(timecode) >= 0 ==>
                status == 0 && pos == old(pos) && elementSize == old(elementSize) && timecode == old(timecode)
      ensures old(timecode) < 0 && (old(pos) != elementStart || old(elementSize) >= 0) ==> status < 0
      ensures old(timecode) < 0 && old(pos) == elementStart && old(elementSize) < 0 ==>
                && (status == 0 <==> LoadAt(src, elementStart).Some?)
                && (status == 0 ==> Loaded(timecode, pos, Stop()) == LoadAt(src, elementStart).value)
      ensures status != 0 ==> pos == old(pos) && elementSize == old(elementSize) && timecode == old(timecode)
    {
      hide IdAt, UIntAt, TimecodeAt, Pow128;
      if timecode >= 0 { return 0; }
      if pos != elementStart || elementSize >= 0 { return E_PARSE_FAILED; }
      if pos > |src| { return E_FILE_FORMAT_INVALID; }
      var id, len := ReadID(src, pos);
      if id < 0 { return E_FILE_FORMAT_INVALID; }
      if id != ID_CLUSTER { return E_FILE_FORMAT_INVALID; }
      var at, size := pos + len, 0;
      size, len := ReadUInt(src, at);
      if size < 0 { return -1; }
      if size == 0 { return E_FILE_FORMAT_INVALID; }
      at := at + len;
      var stop := if size == Pow128(len) - 1 then -1 else at + size;
      var found, behind;
      status, found, behind := FindTimecode(src, at, stop);
      if status != 0 { return; }
      pos, timecode := behind, found;
      if stop >= 0 { elementSize := stop - elementStart; }
    }

    /** Parses one more entry (0), or finds that there is none (1). */
    method Parse(src: seq<Byte>) returns (status: int)
      requires |src| <= MAX_FILE && Valid()
      modifies this
      ensures Valid() && status <= 1
      ensures status >= 0 ==> All(src) == old(All(src)) && timecode >= 0
      ensures old(timecode) >= 0 ==> timecode == old(timecode)
      ensures status == 0 ==> |entries| == |old(entries)| + 1 && old(entries) <= entries
      ensures status == 0 ==> old(pos) < pos && old(pos) < |src|
      ensures status == 1 ==> entries == old(entries) && All(src) == Some(entries)
      ensures status < 0 ==> entries == old(entries) && old(All(src)).None?
    {
      hide LoadAt, EntriesFrom;
      LoadBounds(src, elementStart);
      status := Load(src);
      if status < 0 { return; }
      if pos < elementStart || timecode < 0 { return E_PARSE_FAILED; }
      status := ParseNext(src);
    }

    /** The same once the timecode is known. */
    method ParseNext(src: seq<Byte>) returns (status: int)
      requires |src| <= MAX_FILE && Valid() && timecode >= 0
      modifies `pos, `elementSize, `entries
      ensures Valid() && status <= 1
      ensures status >= 0 ==> All(src) == old(All(src))
      ensures status == 0 ==> |entries| == |old(entries)| + 1 && old(entries) <= entries
      ensures status == 0 ==> old(pos) < pos && old(pos) < |src|
      ensures status == 1 ==> entries == old(entries) && All(src) == Some(entries)
      ensures status < 0 ==> entries == old(entries) && old(All(src)).None?
    {
      hide LoadAt, StepAt, LastFits, SimpleEntryAt, GroupEntryAt;
      var stop := Stop();
      if stop >= 0 && pos >= stop { return 1; }
      var next := NextBlock(src, pos, stop);
      match next {
        case Bad => return E_FILE_FORMAT_INVALID;
        case Next(h) =>
          if h.id == ID_BLOCK_GROUP {
            status := ParseBlockGroup(src, h.payload, h.size);
          } else {
            status := ParseSimpleBlock(src, h.payload, h.size);
          }
        case Done(end) =>
          if elementSize < 0 { elementSize := end - elementStart; }
          if elementSize < 1 { return E_FILE_FORMAT_INVALID; }
          pos := end;
          if stop >= 0 && pos > stop { return E_FILE_FORMAT_INVALID; }
          if !LastFits(entries, stop, |src|) { return E_FILE_FORMAT_INVALID; }
          DoneAgain(src, old(pos), stop);
          status := 1;
      }
    }

    /** Parses all there is. */
    method GetLast(src: seq<Byte>) returns (status: int, last: Option<Entry>)
      requires |src| <= MAX_FILE && Valid()
      modifies this
      ensures Valid() && status <= 0 && (status == 0 <==> old(All(src)).Some?)
      ensures status == 0 ==> entries == old(All(src)).value && All(src) == Some(entries) && timecode >= 0
      ensures last == if status == 0 && entries != [] then Some(entries[|entries| - 1]) else None
    {
      hide EntriesFrom, LoadAt;
      last := None;
      status := 0;
      while status == 0
        invariant Valid() && 0 <= status <= 1
        invariant All(src) == old(All(src)) && (status == 1 ==> All(src) == Some(entries) && timecode >= 0)
        decreases status == 0, |src| - pos
      {
        status := Parse(src);
        if status < 0 { return; }
      }
      if |entries| > 0 { last := Some(entries[|entries| - 1]); }
      status := 0;
    }

    /** Makes sure that an entry has been parsed; false when there is none. */
    method ParseUpTo(src: seq<Byte>, index: nat) returns (ok: bool)
      requires |src| <= MAX_FILE && Valid()
      modifies this
      ensures Valid() && (old(All(src)).Some? ==> All(src) == old(All(src)))
      ensures ok ==> index < |entries| && timecode >= 0
      ensures old(timecode) >= 0 ==> timecode == old(timecode)
      ensures ok ==> (entries == old(entries) && pos == old(pos)) || (old(pos) < pos && old(pos) < |src|)
      ensures !ok && old(All(src)).Some? ==> index >= |old(All(src)).value|
    {
      hide EntriesFrom, LoadAt;
      ok := true;
      while index >= |entries|
        invariant Valid() && (old(All(src)).Some? ==> All(src) == old(All(src)))
        invariant old(timecode) >= 0 ==> timecode == old(timecode)
        invariant (entries == old(entries) && pos == old(pos)) || (old(pos) < pos && old(pos) < |src|)
        decreases |src| - pos
      {
        var status := Parse(src);
        if status < 0 { return false; }
        if status > 0 { return false; }
      }
    }

    /** The index of the entry that a cue means, or -1; parses no more than it has to. */
    method GetEntry(src: seq<Byte>, time: int, track: int, block: int, types: map<int, int>) returns (found: int)
      requires |src| <= MAX_FILE && Valid()
      modifies this
      ensures Valid() && (old(All(src)).Some? ==> All(src) == old(All(src)))
      ensures old(All(src)).Some? ==> found == CueEntry(All(src).value, timecode, time, track, block, types)
      ensures found == -1 || 0 <= found < |entries|
    {
      hide EntriesFrom, LoadAt;
      if block > 0 {
        var ok := ParseUpTo(src, block - 1);
        if !ok { return -1; }
        var e := entries[block - 1];
        if e.block.track == track && TimeOf(e, timecode) == time { return block - 1; }
      }
      var index := 0;
      found := -1;
      while true
        invariant Valid() && (old(All(src)).Some? ==> All(src) == old(All(src)))
        invariant timecode >= 0 || (index == 0 && block <= 0)
        invariant old(All(src)).Some? ==>
                    CueEntry(All(src).value, timecode, time, track, block, types)
                    == SearchCue(All(src).value, index, timecode, time, track, types)
        decreases |src| - pos, |entries| - index
      {
        var ok := ParseUpTo(src, index);
        if !ok { return -1; }
        var e := entries[index];
        if e.block.track != track {
          index := index + 1;
        } else {
          var at := TimeOf(e, timecode);
          if at < time {
            index := index + 1;
          } else if at > time {
            return -1;
          } else {
            if track !in types { return -1; }
            if types[track] == AUDIO { return index; }
            if types[track] != VIDEO { return -1; }
            if !e.key { return -1; }
            return index;
          }
        }
      }
    }
  }

  /** The timecode in front of the first block. */
  method FindTimecode(src: seq<Byte>, from: nat, stop: int) returns (status: int, timecode: int, behind: int)
    ensures status <= 0 && (status == 0 <==> TimecodeAt(src, from, stop, -1, -1).Some?)
    ensures status == 0 ==> (timecode, behind) == TimecodeAt(src, from, stop, -1, -1).value
  {
    hide IdAt, UIntAt, ChildAt, UIntOf;
    timecode, behind := -1, -1;
    var pos, block := from, false;
    while (stop < 0 || pos < stop) && !block
      invariant pos >= 0
      invariant TimecodeAt(src, from, stop, -1, -1) ==
                if block then if timecode < 0 then None else Some((timecode, behind))
                    else TimecodeAt(src, pos, stop, timecode, behind)
      decreases |src| - pos, !block
    {
      ChildParts(src, pos, stop);
      var id, len := ReadID(src, pos);
      if id < 0 { return E_FILE_FORMAT_INVALID, timecode, behind; }
      if stop >= 0 && pos + len > stop { return E_FILE_FORMAT_INVALID, timecode, behind; }
      if EndsCluster(id) { break; }
      var ok, size, payload := ReadSize(src, pos + len, stop);
      if !ok { return E_FILE_FORMAT_INVALID, timecode, behind; }
      pos := payload;
      if size != 0 {
        if stop >= 0 && pos + size > stop { return E_FILE_FORMAT_INVALID, timecode, behind; }
        if IsBlock(id) {
          block := true;
        } else {
          if id == ID_TIMECODE {
            var value := ReadValue(src, Header(id, size, pos));
            if value < 0 { return E_FILE_FORMAT_INVALID, timecode, behind; }
            timecode, behind := value, pos + size;
          }
          pos := pos + size;
        }
      }
    }
    if timecode < 0 { return E_FILE_FORMAT_INVALID, timecode, behind; }
    if !block { return E_FILE_FORMAT_INVALID, timecode, behind; }
    status := 0;
  }

  /** Goes to the next block of a cluster. */
  method NextBlock(src: seq<Byte>, from: nat, stop: int) returns (next: Step)
    ensures next == StepAt(src, from, stop)
  {
    hide IdAt, UIntAt, ChildAt;
    var pos := from;
    while (stop < 0 || pos < stop) && pos < |src|
      invariant pos >= 0 && StepAt(src, from, stop) == StepAt(src, pos, stop)
      decreases |src| - pos
    {
      ChildParts(src, pos, stop);
      var id, len := ReadID(src, pos);
      if id < 0 { return Bad; }
      if stop >= 0 && pos + len > stop { return Bad; }
      if EndsCluster(id) { return Done(pos); }
      var ok, size, payload := ReadSize(src, pos + len, stop);
      if !ok { return Bad; }
      pos := payload;
      if size != 0 {
        if stop >= 0 {
          if pos + size > stop { return if IsBlock(id) then Bad else Done(stop); }
        } else if pos + size > |src| {
          return Done(|src|);
        }
        if IsBlock(id) { return Next(Header(id, size, pos)); }
        pos := pos + size;
      }
    }
    next := Done(pos);
  }

  method ReadValue(src: seq<Byte>, h: Header) returns (value: int)
    requires h.payload >= 0
    ensures UIntOf(src, h).Some? ==> value == UIntOf(src, h).value
    ensures UIntOf(src, h).None? ==> value < 0
  {
    hide FromBigEndian, ToInt64;
    if h.payload + h.size > |src| { return E_FILE_FORMAT_INVALID; }
    value := UnserializeUInt(src, h.payload, h.size);
  }

  /** The size field of a child, which must not be that of an unknown size. */
  method ReadSize(src: seq<Byte>, pos: nat, stop: int) returns (ok: bool, size: int, payload: int)
    ensures ok <==> && UIntAt(src, pos).Some? && (stop < 0 || pos + UIntAt(src, pos).value.1 <= stop)
                    && UIntAt(src, pos).value.0 != Pow128(UIntAt(src, pos).value.1) - 1
    ensures ok ==> size == UIntAt(src, pos).value.0 >= 0 && payload == pos + UIntAt(src, pos).value.1
  {
    hide UIntAt, Pow128;
    var len;
    size, len := ReadUInt(src, pos);
    payload := pos + len;
    if size < 0 { return false, size, payload; }
    if stop >= 0 && payload > stop { return false, size, payload; }
    if size == Pow128(len) - 1 { return false, size, payload; }
    ok := true;
  }

  /** The header of a child is its ID and its size. */
  lemma ChildParts(src: seq<Byte>, pos: int, stop: int)
    requires stop < 0 || pos < stop
    ensures IdAt(src, pos).None? ==> ChildAt(src, pos, stop).None?
    ensures IdAt(src, pos).Some? ==>
              var (id, idLen) := IdAt(src, pos).value;
              var size := UIntAt(src, pos + idLen);
              && (ChildAt(src, pos, stop).Some? <==>
                    size.Some? && (stop < 0 || pos + idLen + size.value.1 <= stop) &&
                        size.value.0 != Pow128(size.value.1) - 1)
              && (ChildAt(src, pos, stop).Some? ==>
                  ChildAt(src, pos, stop).value == Header(id, size.value.0, pos + idLen + size.value.1))
  {
    hide IdAt, Pow128, FromBigEndian, LeadingLength;
    if IdAt(src, pos).Some? { SizeNotNegative(src, pos + IdAt(src, pos).value.1); }
  }

  lemma SizeNotNegative(src: seq<Byte>, pos: int)
    ensures UIntAt(src, pos).Some? ==> 0 <= UIntAt(src, pos).value.0 <= MAX_CODED + 1
  {
    if UIntAt(src, pos).Some? {
      UIntIsCoded(src, pos);
      SmallPowers(UIntAt(src, pos).value.1);
    }
    hide UIntAt;
  }

  /** A file so long that no position in it, with an element behind it, reaches 2^63. */
  const MAX_FILE: int := INT64_MAX - 0x100_0000_0000_0000

  lemma LoadBounds(src: seq<Byte>, start: int)
    requires |src| <= MAX_FILE
    ensures LoadAt(src, start).Some? ==>
              LoadAt(src, start).value.stop <= INT64_MAX && LoadAt(src, start).value.pos <= |src|
  {
    hide IdAt, UIntAt, TimecodeAt, Pow128;
    if IdAt(src, start).Some? { SizeNotNegative(src, start + IdAt(src, start).value.1); }
  }

  predicate InFile(src: seq<Byte>, h: Header) {
    0 <= h.payload && 0 <= h.size && h.payload + h.size <= |src|
  }

  lemma NoRoom(src: seq<Byte>, pos: nat, stop: int, lacing: nat)
    ensures pos >= stop ==> L.FramesAt(src, pos, stop, lacing).None?
  {
  }

  lemma CollectedBlock(src: seq<Byte>, h: Header, g: Group)
    ensures Collected(src, h, g).Some? ==> Collected(src, h, g).value.block in {g.block, Some(h)}
  {
  }

  lemma HeaderBounds(src: seq<Byte>, pos: int, stop: int)
    requires HeaderAt(src, pos, stop).Some?
    ensures var h := HeaderAt(src, pos, stop).value;
            0 <= pos < h.payload <= |src| && h.size >= 0
  {
  }

  /** The header of a child, which must not be of unknown size. */
  method ReadChild(src: seq<Byte>, pos: nat, stop: int) returns (ok: bool, h: Header)
    requires 0 <= pos < stop
    ensures ok <==> ChildAt(src, pos, stop).Some?
    ensures ok ==> h == ChildAt(src, pos, stop).value && pos < h.payload && h.size >= 0
  {
    hide IdAt, UIntAt, Pow128;
    h := Header(0, 0, 0);
    var id, len := ReadID(src, pos);
    if id < 0 { return false, h; }
    if pos + len > stop { return false, h; }
    var at := pos + len;
    var size;
    size, len := ReadUInt(src, at);
    if size < 0 { return false, h; }
    if at + len > stop { return false, h; }
    h := Header(id, size, at + len);
    if size == 0 { SizeZero(len); return true, h; }
    if size == Pow128(len) - 1 { return false, h; }  // (1 << (7 * len)) - 1
    ok := true;
  }

  lemma SizeZero(len: nat)
    requires len >= 1
    ensures 0 != Pow128(len) - 1
  {
  }

  /** The header again, of a child that was good before. */
  method ReadHeader(src: seq<Byte>, pos: nat, stop: int) returns (h: Header)
    requires HeaderAt(src, pos, stop).Some? && pos < stop
    ensures h == HeaderAt(src, pos, stop).value
  {
    hide IdAt, UIntAt;
    var id, len := ReadID(src, pos);
    var at := pos + len;
    var size;
    size, len := ReadUInt(src, at);
    h := Header(id, size, at + len);
  }

  method CheckChild(src: seq<Byte>, h: Header, discard: int) returns (ok: bool, next: int)
    requires h.payload >= 0 && h.size >= 0
    ensures ok <==> Checked(src, h, discard).Some?
    ensures ok ==> next == Checked(src, h, discard).value
  {
    hide UIntAt, SignedFromBigEndian;
    next := discard;
    if h.size == 0 { return true, next; }
    if h.id == ID_DISCARD_PADDING {
      var status;
      status, next := UnserializeInt(src, h.payload, h.size);
      return status >= 0, next;
    }
    if h.id != ID_BLOCK { return true, next; }
    var pos, stop := h.payload, h.payload + h.size;
    var track, len := ReadUInt(src, pos);
    if track < 0 { return false, next; }
    if pos + len > stop { return false, next; }
    if track == 0 { return false, next; }
    pos := pos + len;
    if pos + 2 > stop { return false, next; }
    pos := pos + 2;
    if pos + 1 > stop || pos + 1 > |src| { return false, next; }
    pos := pos + 1;
    if pos >= stop { return false, next; }
    ok := true;
  }

  method Collect(src: seq<Byte>, h: Header, g: Group) returns (ok: bool, more: Group)
    requires h.payload >= 0 && h.size >= 0
    requires h.id == ID_REFERENCE_BLOCK && 1 <= h.size <= 8 ==> h.payload + h.size <= |src|
    ensures ok <==> Collected(src, h, g).Some?
    ensures ok ==> more == Collected(src, h, g).value
  {
    hide SignedFromBigEndian, FromBigEndian, ToInt64;
    ok, more := true, g;
    if h.id == ID_BLOCK {
      if g.block.None? { more := g.(block := Some(h)); }
    } else if h.id == ID_BLOCK_DURATION {
      if h.size > 8 { return false, g; }
      var duration := UnserializeUInt(src, h.payload, h.size);
      if duration < 0 { return false, g; }
      more := g.(duration := duration);
    } else if h.id == ID_REFERENCE_BLOCK {
      if h.size > 8 || h.size <= 0 { return false, g; }
      var status, time := UnserializeInt(src, h.payload, h.size);
      more := if time <= 0 then g.(prev := time) else g.(next := time);
    }
  }
}
