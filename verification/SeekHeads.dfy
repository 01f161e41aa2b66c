/** The SeekHead element: the muxer reserves a hole for it, and fills the hole when the file is finished
    (libwebm/mkvmuxer/mkvmuxer.cc); the parser reads it back (libwebm/mkvparser/mkvparser.cc). */
module SeekHeads {
  import opened Bytes
  import opened Ebml
  import opened EbmlWriter
  import opened EbmlReader

  const ENTRY_COUNT: nat := 5
  const MAX_ENTRY_SIZE: nat := 21
  /** The bytes of the hole: a SeekHead of five entries of the largest size. */
  const RESERVED: nat := 110

  datatype Entry = Entry(id: nat, pos: nat)

  // ----- sizes and bytes

  function EntryPayloadSize(e: Entry): nat {
    UIntElementSize(ID_SEEK_ID, e.id) + UIntElementSize(ID_SEEK_POSITION, e.pos)
  }

  function EntryPayload(e: Entry): (bs: seq<Byte>)
    ensures |bs| == EntryPayloadSize(e)
  {
    EncodeUInt(ID_SEEK_ID, e.id) + EncodeUInt(ID_SEEK_POSITION, e.pos)
  }

  function EntrySize(e: Entry): nat {
    if e.id == 0 then 0 else MasterSize(ID_SEEK, EntryPayloadSize(e)) + EntryPayloadSize(e)
  }

  /** An entry without an ID is not written. */
  function EncodeEntry(e: Entry): (bs: seq<Byte>)
    ensures |bs| == EntrySize(e)
  {
    if e.id == 0 then [] else EncodeMaster(ID_SEEK, EntryPayloadSize(e)) + EntryPayload(e)
  }

  function SeekPayloadSize(es: seq<Entry>): nat {
    if es == [] then 0 else SeekPayloadSize(es[..|es| - 1]) + EntrySize(es[|es| - 1])
  }

  function EncodeEntries(es: seq<Entry>): (bs: seq<Byte>)
    ensures |bs| == SeekPayloadSize(es)
  {
    if es == [] then [] else EncodeEntries(es[..|es| - 1]) + EncodeEntry(es[|es| - 1])
  }

  lemma PrefixStep(es: seq<Entry>, i: nat)
    requires i < |es|
    ensures EncodeEntries(es[..i + 1]) == EncodeEntries(es[..i]) + EncodeEntry(es[i])
    ensures SeekPayloadSize(es[..i + 1]) == SeekPayloadSize(es[..i]) + EntrySize(es[i])
  {
    assert es[..i + 1][..i] == es[..i];
  }

  function EncodeSeekHead(es: seq<Entry>): (bs: seq<Byte>)
    ensures |bs| == MasterSize(ID_SEEK_HEAD, SeekPayloadSize(es)) + SeekPayloadSize(es)
  {
    EncodeMaster(ID_SEEK_HEAD, SeekPayloadSize(es)) + EncodeEntries(es)
  }

  predicate ValidEntry(e: Entry) {
    e.id < 0x1_0000_0000 && e.pos < UINT64_LIMIT
  }

  lemma EntryBound(e: Entry)
    requires ValidEntry(e)
    ensures EntrySize(e) <= MAX_ENTRY_SIZE
  {
    assert GetUIntSize(e.id) <= 4;
  }

  lemma {:induction false} PayloadBound(es: seq<Entry>)
    requires forall e :: e in es ==> ValidEntry(e)
    ensures SeekPayloadSize(es) <= MAX_ENTRY_SIZE * |es|
  {
    if es != [] {
      EntryBound(es[|es| - 1]);
      PayloadBound(es[..|es| - 1]);
    }
  }

  /** What is left of the hole behind the SeekHead. */
  function Spare(es: seq<Entry>): int {
    RESERVED - |EncodeSeekHead(es)|
  }

  lemma SpareBound(es: seq<Entry>)
    requires |es| == ENTRY_COUNT && forall e :: e in es ==> ValidEntry(e)
    ensures 0 <= Spare(es) < 110
    ensures VoidFits(Spare(es)) <==> Spare(es) >= 2
  {
    PayloadBound(es);
    HoleArithmetic(SeekPayloadSize(es));
    VoidSmall(Spare(es));
  }

  /** Positions below 2^56 leave room for the Void. */
  lemma SpareSmall(es: seq<Entry>)
    requires |es| == ENTRY_COUNT && forall e :: e in es ==> ValidEntry(e) && e.pos < 0x100_0000_0000_0000
    ensures Spare(es) >= 2
  {
    PayloadSmallBound(es);
    SmallArithmetic(SeekPayloadSize(es));
  }

  lemma {:induction false} PayloadSmallBound(es: seq<Entry>)
    requires forall e :: e in es ==> ValidEntry(e) && e.pos < 0x100_0000_0000_0000
    ensures SeekPayloadSize(es) <= 20 * |es|
  {
    if es != [] {
      EntrySmallBound(es[|es| - 1]);
      PayloadSmallBound(es[..|es| - 1]);
    }
  }

  lemma EntrySmallBound(e: Entry)
    requires ValidEntry(e) && e.pos < 0x100_0000_0000_0000
    ensures EntrySize(e) <= 20
  {
    assert GetUIntSize(e.id) <= 4 && GetUIntSize(e.pos) <= 7;
  }

  lemma SmallArithmetic(payload: nat)
    requires payload <= 100
    ensures RESERVED - (MasterSize(ID_SEEK_HEAD, payload) + payload) >= 2
  {
  }

  lemma HoleArithmetic(payload: nat)
    requires payload <= 105
    ensures 0 <= RESERVED - (MasterSize(ID_SEEK_HEAD, payload) + payload) < 110
  {
  }

  lemma VoidSmall(size: nat)
    requires size <= 110
    ensures VoidFits(size) <==> size >= 2
  {
  }

  /** The contents of the hole once the SeekHead is in it: the entries, and a Void for the rest. */
  function Filled(es: seq<Entry>): (bs: seq<Byte>)
    requires Spare(es) >= 0 && VoidFits(Spare(es))
    ensures |bs| == RESERVED
  {
    EncodeSeekHead(es) + EncodeVoid(Spare(es))
  }

  // ----- the writing side

  class SeekHead {
    const ids: array<nat>
    const positions: array<nat>
    var startPos: int

    constructor ()
      ensures Valid() && fresh(ids) && fresh(positions) && startPos == 0
      ensures Entries() == seq(ENTRY_COUNT, _ => Entry(0, 0))
    {
      ids := new nat[ENTRY_COUNT](_ => 0);
      positions := new nat[ENTRY_COUNT](_ => 0);
      startPos := 0;
    }

    ghost predicate Valid()
      reads ids, positions
    {
      && ids.Length == ENTRY_COUNT && positions.Length == ENTRY_COUNT && ids != positions
      && forall i :: 0 <= i < ENTRY_COUNT ==> ValidEntry(Entry(ids[i], positions[i]))
    }

    ghost function Entries(): (es: seq<Entry>)
      requires Valid()
      reads ids, positions
      ensures |es| == ENTRY_COUNT && forall e :: e in es ==> ValidEntry(e)
      ensures forall i :: 0 <= i < ENTRY_COUNT ==> es[i] == Entry(ids[i], positions[i])
    {
      seq(ENTRY_COUNT, i requires 0 <= i < ENTRY_COUNT reads ids, positions => Entry(ids[i], positions[i]))
    }

    /** Takes the first free entry. */
    method AddSeekEntry(id: nat, pos: nat) returns (ok: bool)
      requires Valid() && ValidEntry(Entry(id, pos))
      modifies ids, positions
      ensures Valid()
      ensures ok <==> exists e :: e in old(Entries()) && e.id == 0
      ensures !ok ==> Entries() == old(Entries())
      ensures ok ==>
                exists i :: 0 <= i < ENTRY_COUNT && old(ids[i]) == 0 && (forall j :: 0 <= j < i ==> old(ids[j]) != 0)
                                 && Entries() == old(Entries())[i := Entry(id, pos)]
    {
      for i := 0 to ENTRY_COUNT
        invariant forall j :: 0 <= j < i ==> ids[j] != 0
      {
        if ids[i] == 0 {
          assert Entries()[i].id == 0;
          ids[i] := id;
          positions[i] := pos;
          assert Entries() == old(Entries())[i := Entry(id, pos)];
          return true;
        }
      }
      ok := false;
    }

    method SetSeekEntry(index: int, id: nat, pos: nat) returns (ok: bool)
      requires Valid() && ValidEntry(Entry(id, pos))
      modifies ids, positions
      ensures Valid() && (ok <==> 0 <= index < ENTRY_COUNT)
      ensures Entries() == if ok then old(Entries())[index := Entry(id, pos)] else old(Entries())
    {
      if index < 0 || index >= ENTRY_COUNT { return false; }
      ids[index] := id;
      positions[index] := pos;
      ok := true;
    }

    /** Leaves a hole of `RESERVED` bytes and remembers where. */
    method Write(w: Writer) returns (ok: bool)
      requires w.Valid()
      modifies this, w
      ensures w.Valid() && startPos == old(w.Position())
      ensures ok ==> VoidFits(RESERVED) && w.Appended(EncodeVoid(RESERVED))
      ensures w.reliable ==> ok
    {
      var entrySize := ENTRY_COUNT * MAX_ENTRY_SIZE;
      var size := MasterSize(ID_SEEK_HEAD, entrySize);
      startPos := w.Position();
      var written := WriteVoidElement(w, size + entrySize);
      ok := written != 0;
    }

    method EntriesSize() returns (size: nat)
      requires Valid()
      ensures size == SeekPayloadSize(Entries())
    {
      size := 0;
      ghost var es := Entries();
      for i := 0 to ENTRY_COUNT
        invariant size == SeekPayloadSize(es[..i])
      {
        PrefixStep(es, i);
        if ids[i] != 0 {
          var e := Entry(ids[i], positions[i]);
          size := size + (MasterSize(ID_SEEK, EntryPayloadSize(e)) + EntryPayloadSize(e));
        }
      }
      assert es[..ENTRY_COUNT] == es;
    }

    method WriteEntry(w: Writer, i: nat) returns (ok: bool)
      requires Valid() && i < ENTRY_COUNT && ids[i] != 0 && w.Valid()
      modifies w
      ensures w.Valid()
      ensures ok ==> w.Appended(EncodeEntry(Entries()[i]))
      ensures w.reliable ==> ok
    {
      hide EncodeMaster, EncodeUInt;
      ghost var e, before := Entries()[i], w.pending;
      ok := WriteEbmlMasterElement(w, ID_SEEK, EntryPayloadSize(Entry(ids[i], positions[i])));
      if !ok { return false; }
      ok := WriteUIntElement(w, ID_SEEK_ID, ids[i]);
      if !ok { return false; }
      Then(before, EncodeMaster(ID_SEEK, EntryPayloadSize(e)), EncodeUInt(ID_SEEK_ID, e.id));
      ok := WriteUIntElement(w, ID_SEEK_POSITION, positions[i]);
      if !ok { return false; }
      Then(before, EncodeMaster(ID_SEEK, EntryPayloadSize(e)) + EncodeUInt(ID_SEEK_ID, e.id),
           EncodeUInt(ID_SEEK_POSITION, e.pos));
      Then(EncodeMaster(ID_SEEK, EntryPayloadSize(e)), EncodeUInt(ID_SEEK_ID, e.id),
           EncodeUInt(ID_SEEK_POSITION, e.pos));
    }

    method WriteEntries(w: Writer) returns (ok: bool)
      requires Valid() && w.Valid()
      modifies w
      ensures w.Valid()
      ensures ok ==> w.Appended(EncodeEntries(Entries()))
      ensures w.reliable ==> ok
    {
      hide EncodeEntry, EntrySize;
      ghost var es, before := Entries(), w.pending;
      for i := 0 to ENTRY_COUNT
        invariant w.Valid() && w.Appended(EncodeEntries(es[..i]))
      {
        PrefixStep(es, i);
        if ids[i] != 0 {
          ok := WriteEntry(w, i);
          if !ok { return false; }
          Then(before, EncodeEntries(es[..i]), EncodeEntry(es[i]));
        } else {
          NoEntry(es[i]);
        }
      }
      assert es[..ENTRY_COUNT] == es;
      ok := true;
    }

    lemma NoEntry(e: Entry)
      requires e.id == 0
      ensures EncodeEntry(e) == []
    {
    }

    /** Puts the SeekHead into its hole.  When it succeeds the SeekHead and a Void cover exactly the hole
        and nothing else changes.  On a writer that does not fail it succeeds unless 0 or 1 bytes of the
        hole are left over. */
    method Finalize(w: Writer) returns (ok: bool)
      requires Valid() && w.Valid()
      modifies w
      ensures w.Valid()
      ensures !w.seekable || startPos == -1 || SeekPayloadSize(Entries()) == 0 ==>
                && (ok <==> w.seekable ==> startPos != -1)
                && w.Data() == old(w.Data()) && w.Position() == old(w.Position())
      ensures ok && w.seekable && SeekPayloadSize(Entries()) > 0 ==>
                && 0 <= startPos <= |old(w.Data())| && Spare(Entries()) >= 2 && VoidFits(Spare(Entries()))
                && w.Data() == Splice(old(w.Data()), startPos, Filled(Entries()))
                && w.Position() == old(w.Position())
      ensures w.reliable && w.seekable && SeekPayloadSize(Entries()) > 0 && 0 <= startPos <= |old(w.Data())| ==>
                (ok <==> Spare(Entries()) >= 2)
    {
      if !w.seekable { return true; }
      if startPos == -1 { return false; }
      var payloadSize := EntriesSize();
      if payloadSize == 0 { return true; }
      var pos := w.Position();
      var status := w.SetPosition(startPos);
      if status != 0 { return false; }
      label Fill:
      ok := Fill(w, payloadSize);
      if !ok { return false; }
      w.AppendedData@Fill(Filled(Entries()));
      status := w.SetPosition(pos);
      ok := status == 0;
    }

    method Fill(w: Writer, payloadSize: nat) returns (ok: bool)
      requires Valid() && w.Valid() && w.Position() == startPos && payloadSize == SeekPayloadSize(Entries())
      modifies w
      ensures w.Valid()
      ensures ok ==> Spare(Entries()) >= 2 && VoidFits(Spare(Entries())) && w.Appended(Filled(Entries()))
      ensures w.reliable ==> (ok <==> Spare(Entries()) >= 2)
    {
      hide EncodeVoid, EncodeEntries, EncodeMaster, VoidFits;
      ghost var es, before := Entries(), w.pending;
      SpareBound(es);
      PayloadBound(es);
      ok := WriteEbmlMasterElement(w, ID_SEEK_HEAD, payloadSize);
      if !ok { return false; }
      ok := WriteEntries(w);
      if !ok { return false; }
      Then(before, EncodeMaster(ID_SEEK_HEAD, payloadSize), EncodeEntries(es));
      assert w.Appended(EncodeSeekHead(es));
      var sizeLeft := RESERVED - (w.Position() - startPos);
      assert sizeLeft == Spare(es);
      var written := WriteVoidElement(w, ToUInt64(sizeLeft));
      if written == 0 { return false; }
      Then(before, EncodeSeekHead(es), EncodeVoid(sizeLeft));
      ok := true;
    }
  }

  /** Both ways for the hole to be too full really occur: with every position at its longest nothing is
      left over, and with one of them a byte shorter, one byte. */
  lemma HoleCanOverfill()
    ensures Spare(seq(ENTRY_COUNT, _ => Entry(ID_CLUSTER, 0x100_0000_0000_0000))) == 0
    ensures Spare(seq(ENTRY_COUNT, _ => Entry(ID_CLUSTER, 0x100_0000_0000_0000))[0 := Entry(ID_CLUSTER,
            0xFF_FFFF_FFFF_FFFF)]) == 1
  {
    var full := Entry(ID_CLUSTER, 0x100_0000_0000_0000);
    var short := Entry(ID_CLUSTER, 0xFF_FFFF_FFFF_FFFF);
    var es := seq(ENTRY_COUNT, _ => full);
    assert EntrySize(full) == 21 && EntrySize(short) == 20;
    FiveEntries(es);
    FiveEntries(es[0 := short]);
  }

  lemma FiveEntries(es: seq<Entry>)
    requires |es| == 5
    ensures SeekPayloadSize(es) == EntrySize(es[0]) + EntrySize(es[1]) + EntrySize(es[2]) + EntrySize(es[3])
            + EntrySize(es[4])
  {
    hide EntrySize;
    assert es[..0] == [] && es[..5] == es;
    PrefixStep(es, 0);
    PrefixStep(es, 1);
    PrefixStep(es, 2);
    PrefixStep(es, 3);
    PrefixStep(es, 4);
  }

  // ----- the reading side

  /** The entry whose payload is `src[start..start + size]`. */
  function EntryAt(src: seq<Byte>, start: int, size: int): Option<Entry> {
    var stop := start + size;
    if size <= 0 || IdAt(src, start).None? then None else
    var (seekIdId, len) := IdAt(src, start).value;
    if seekIdId != ID_SEEK_ID || start + len > stop then None else
    var p := start + len;
    if UIntAt(src, p).None? then None else
    var (idSize, len) := UIntAt(src, p).value;
    if idSize <= 0 || p + len > stop || p + len + idSize > stop then None else
    var p := p + len;
    if IdAt(src, p).None? then None else
    var (id, len) := IdAt(src, p).value;
    if id <= 0 || len != idSize || PositionAt(src, p + idSize, stop).None? then None else
    Some(Entry(id, PositionAt(src, p + idSize, stop).value))
  }

  /** The position element from `p` up to exactly `stop`. */
  function PositionAt(src: seq<Byte>, p: int, stop: int): Option<nat> {
    if IdAt(src, p).None? then None else
    var (seekPosId, len) := IdAt(src, p).value;
    if seekPosId != ID_SEEK_POSITION || p + len > stop then None else
    var p := p + len;
    if UIntAt(src, p).None? then None else
    var (size, len) := UIntAt(src, p).value;
    var q := p + len;
    if size <= 0 || q > stop || q + size != stop || size > 8 || stop > |src| then None else
    var pos := ToInt64(FromBigEndian(src[q..stop]));
    if pos < 0 then None else Some(pos)
  }

  method ParseEntry(src: seq<Byte>, start: int, size: int) returns (ok: bool, entry: Entry)
    ensures ok <==> EntryAt(src, start, size).Some?
    ensures ok ==> entry == EntryAt(src, start, size).value
  {
    hide IdAt, UIntAt, PositionAt;
    entry := Entry(0, 0);
    if size <= 0 { return false, entry; }
    var pos, stop := start, start + size;
    var seekIdId, len := ReadID(src, pos);
    if seekIdId < 0 { return false, entry; }
    if seekIdId != ID_SEEK_ID { return false, entry; }
    if pos + len > stop { return false, entry; }
    pos := pos + len;
    var seekIdSize;
    seekIdSize, len := ReadUInt(src, pos);
    if seekIdSize <= 0 { return false, entry; }
    if pos + len > stop { return false, entry; }
    pos := pos + len;
    if pos + seekIdSize > stop { return false, entry; }
    var id;
    id, len := ReadID(src, pos);
    if id <= 0 { return false, entry; }
    if len != seekIdSize { return false, entry; }
    pos := pos + seekIdSize;
    var position;
    ok, position := ParsePosition(src, pos, stop);
    if ok { entry := Entry(id, position); }
  }

  method ParsePosition(src: seq<Byte>, start: int, stop: int) returns (ok: bool, position: nat)
    ensures ok <==> PositionAt(src, start, stop).Some?
    ensures ok ==> position == PositionAt(src, start, stop).value
  {
    hide IdAt, UIntAt;
    position := 0;
    var pos := start;
    var seekPosId, len := ReadID(src, pos);
    if seekPosId != ID_SEEK_POSITION { return false, position; }
    if pos + len > stop { return false, position; }
    pos := pos + len;
    var seekPosSize;
    seekPosSize, len := ReadUInt(src, pos);
    if seekPosSize <= 0 { return false, position; }
    if pos + len > stop { return false, position; }
    pos := pos + len;
    if pos + seekPosSize > stop { return false, position; }
    var value := UnserializeUInt(src, pos, seekPosSize);
    if value < 0 { return false, position; }
    pos := pos + seekPosSize;
    if pos != stop { return false, position; }
    ok, position := true, value;
  }

  /** The entries between `pos` and exactly `stop`; elements of other kinds, and Seek elements that do
      not parse, are passed over. */
  function EntriesAt(src: seq<Byte>, pos: int, stop: int): Option<seq<Entry>>
    decreases stop - pos
  {
    if pos >= stop then (if pos == stop then Some([]) else None)
    else
      var h := HeaderAt(src, pos, stop);
      if h.None? || h.value.payload + h.value.size > stop then None
      else
        var rest := EntriesAt(src, h.value.payload + h.value.size, stop);
        if rest.None? then None
        else if h.value.id == ID_SEEK && EntryAt(src, h.value.payload, h.value.size).Some? then
          Some([EntryAt(src, h.value.payload, h.value.size).value] + rest.value)
        else rest
  }

  /** Where the Void elements stand between `pos` and `stop`, and how long they are. */
  datatype Gap = Gap(start: int, size: int)

  function VoidsAt(src: seq<Byte>, pos: int, stop: int): seq<Gap>
    decreases stop - pos
  {
    var h := HeaderAt(src, pos, stop);
    if pos >= stop || h.None? || h.value.payload + h.value.size > stop then []
    else
      var next := h.value.payload + h.value.size;
      (if h.value.id == ID_VOID then [Gap(pos, next - pos)] else []) + VoidsAt(src, next, stop)
  }

  /** First the elements are counted, then the entries are parsed and the Void elements noted. */
  method Parse(src: seq<Byte>, start: nat, size: nat) returns (status: int, entries: seq<Entry>, voids: seq<Gap>)
    requires |src| <= INT64_MAX
    ensures status == 0 <==> EntriesAt(src, start, start + size).Some?
    ensures status == 0 ==>
              entries == EntriesAt(src, start, start + size).value && voids == VoidsAt(src, start, start + size)
  {
    hide HeaderAt, EntryAt;
    entries, voids := [], [];
    var stop := start + size;
    var entryCount, voidCount;
    status, entryCount, voidCount := CountEntries(src, start, stop);
    if status != 0 { return; }
    var pos := start;
    while pos < stop
      invariant start <= pos <= stop
      invariant EntriesAt(src, pos, stop).Some?
      invariant EntriesAt(src, start, stop).value == entries + EntriesAt(src, pos, stop).value
      invariant VoidsAt(src, start, stop) == voids + VoidsAt(src, pos, stop)
      invariant |entries| <= entryCount - CountAt(src, pos, stop, ID_SEEK)
      invariant |voids| <= voidCount - CountAt(src, pos, stop, ID_VOID)
      decreases stop - pos
    {
      var p, id, length;
      status, p, id, length := ParseElementHeader(src, pos, stop);
      if status < 0 { return; }
      if id == ID_SEEK && entryCount > 0 {
        var ok, entry := ParseEntry(src, p, length);
        if ok { entries := entries + [entry]; }
      } else if id == ID_VOID && voidCount > 0 {
        voids := voids + [Gap(pos, p + length - pos)];
      }
      pos := p + length;
      if pos > stop { return E_FILE_FORMAT_INVALID, entries, voids; }
    }
    if pos != stop { return E_FILE_FORMAT_INVALID, entries, voids; }
    status := 0;
  }

  /** The number of elements of one kind, for which the parser makes room. */
  function CountAt(src: seq<Byte>, pos: int, stop: int, id: int): nat
    decreases stop - pos
  {
    var h := HeaderAt(src, pos, stop);
    if pos >= stop || h.None? || h.value.payload + h.value.size > stop then 0
    else (if h.value.id == id then 1 else 0) + CountAt(src, h.value.payload + h.value.size, stop, id)
  }

  method CountEntries(src: seq<Byte>, start: nat, stop: nat) returns (status: int, entryCount: nat, voidCount: nat)
    requires |src| <= INT64_MAX && start <= stop
    ensures status == 0 <==> EntriesAt(src, start, stop).Some?
    ensures status == 0 ==>
              entryCount == CountAt(src, start, stop, ID_SEEK) && voidCount == CountAt(src, start, stop, ID_VOID)
  {
    hide HeaderAt, EntryAt;
    entryCount, voidCount := 0, 0;
    var pos := start;
    while pos < stop
      invariant start <= pos <= stop
      invariant EntriesAt(src, pos, stop).Some? <==> EntriesAt(src, start, stop).Some?
      invariant CountAt(src, start, stop, ID_SEEK) == entryCount + CountAt(src, pos, stop, ID_SEEK)
      invariant CountAt(src, start, stop, ID_VOID) == voidCount + CountAt(src, pos, stop, ID_VOID)
      decreases stop - pos
    {
      var id, length;
      status, pos, id, length := ParseElementHeader(src, pos, stop);
      if status < 0 { return; }
      if id == ID_SEEK {
        entryCount := entryCount + 1;
      } else if id == ID_VOID {
        voidCount := voidCount + 1;
      }
      pos := pos + length;
      if pos > stop { return E_FILE_FORMAT_INVALID, entryCount, voidCount; }
    }
    if pos != stop { return E_FILE_FORMAT_INVALID, entryCount, voidCount; }
    status := 0;
  }

  // ----- reading undoes writing

  function Written(es: seq<Entry>): seq<Entry> {
    if es == [] then []
    else if es[0].id == 0 then Written(es[1..])
    else [es[0]] + Written(es[1..])
  }

  /** Entries whose ID is an element ID and whose position a signed 64-bit integer holds. */
  predicate Readable(e: Entry) {
    e.id == 0 || (ValidId(e.id) && e.pos <= INT64_MAX)
  }

  lemma SeekIdRoundTrip(src: seq<Byte>, pos: int, id: nat)
    requires ValidId(id) && At(src, pos, EncodeUInt(ID_SEEK_ID, id))
    ensures IdAt(src, pos) == Some((ID_SEEK_ID as int, 2))
    ensures UIntAt(src, pos + 2) == Some((GetUIntSize(id) as int, 1))
    ensures IdAt(src, pos + 3) == Some((id as int, GetUIntSize(id)))
  {
    var n := GetUIntSize(id);
    AtSplit(src, pos, EncodeMaster(ID_SEEK_ID, n), UIntBytes(id));
    HeaderParts(src, pos, ID_SEEK_ID, n);
    IdRoundTrip(src, pos + 3, id);
  }

  lemma SeekPositionRoundTrip(src: seq<Byte>, pos: int, position: nat)
    requires position <= INT64_MAX && At(src, pos, EncodeUInt(ID_SEEK_POSITION, position))
    ensures PositionAt(src, pos, pos + UIntElementSize(ID_SEEK_POSITION, position)) == Some(position)
  {
    var n := GetUIntSize(position);
    AtSplit(src, pos, EncodeMaster(ID_SEEK_POSITION, n), UIntBytes(position));
    HeaderParts(src, pos, ID_SEEK_POSITION, n);
    UIntSizeIsLeast(position);
    UIntPayloadRoundTrip(src, pos + 3, position, n);
    ToInt64Keeps(position);
  }

  lemma EntryRoundTrip(src: seq<Byte>, pos: int, e: Entry)
    requires e.id != 0 && Readable(e) && At(src, pos, EntryPayload(e))
    ensures EntryAt(src, pos, EntryPayloadSize(e)) == Some(e)
  {
    hide *;
    EntryParts(src, pos, e);
    EntrySizes(e);
    SeekIdRoundTrip(src, pos, e.id);
    SeekPositionRoundTrip(src, pos + UIntElementSize(ID_SEEK_ID, e.id), e.pos);
    EntryIs(src, pos, EntryPayloadSize(e), e.id, GetUIntSize(e.id), e.pos);
  }

  lemma EntryParts(src: seq<Byte>, pos: int, e: Entry)
    requires e.id != 0 && Readable(e) && At(src, pos, EntryPayload(e))
    ensures ValidId(e.id) && e.pos <= INT64_MAX
    ensures At(src, pos, EncodeUInt(ID_SEEK_ID, e.id))
    ensures At(src, pos + UIntElementSize(ID_SEEK_ID, e.id), EncodeUInt(ID_SEEK_POSITION, e.pos))
  {
    assert |EncodeUInt(ID_SEEK_ID, e.id)| == UIntElementSize(ID_SEEK_ID, e.id);
    hide At, EncodeUInt;
    AtSplit(src, pos, EncodeUInt(ID_SEEK_ID, e.id), EncodeUInt(ID_SEEK_POSITION, e.pos));
  }

  lemma EntrySizes(e: Entry)
    ensures UIntElementSize(ID_SEEK_ID, e.id) == 3 + GetUIntSize(e.id) && GetUIntSize(e.id) > 0
    ensures EntryPayloadSize(e) == 3 + GetUIntSize(e.id) + UIntElementSize(ID_SEEK_POSITION, e.pos)
  {
    assert GetUIntSize(ID_SEEK_ID) == 2;
  }

  /** An entry is its two elements. */
  lemma EntryIs(src: seq<Byte>, pos: int, size: int, id: nat, n: nat, position: nat)
    requires IdAt(src, pos) == Some((ID_SEEK_ID as int, 2)) && UIntAt(src, pos + 2) == Some((n as int, 1))
    requires IdAt(src, pos + 3) == Some((id as int, n)) && id > 0 && n > 0 && 3 + n <= size
    requires PositionAt(src, pos + 3 + n, pos + size) == Some(position)
    ensures EntryAt(src, pos, size) == Some(Entry(id, position))
  {
    hide IdAt, UIntAt, PositionAt;
  }

  lemma {:induction false} EntryBytesAt(src: seq<Byte>, pos: int, es: seq<Entry>, i: nat)
    requires At(src, pos, EncodeEntries(es)) && i < |es|
    ensures At(src, pos + SeekPayloadSize(es[..i]), EncodeEntry(es[i]))
  {
    hide EncodeEntry, EntrySize;
    var n := |es| - 1;
    AtSplit(src, pos, EncodeEntries(es[..n]), EncodeEntry(es[n]));
    if i < n {
      EntryBytesAt(src, pos, es[..n], i);
      assert es[..n][..i] == es[..i];
    }
  }

  /** From the `i`-th entry on, the parser finds the entries that were written. */
  lemma {:induction false} EntriesRoundTrip(src: seq<Byte>, pos: int, es: seq<Entry>, i: nat)
    requires At(src, pos, EncodeEntries(es)) && i <= |es|
    requires forall e :: e in es ==> ValidEntry(e) && Readable(e)
    ensures SeekPayloadSize(es[..i]) <= SeekPayloadSize(es)
    ensures EntriesAt(src, pos + SeekPayloadSize(es[..i]), pos + SeekPayloadSize(es)) == Some(Written(es[i..]))
    decreases |es| - i
  {
    hide EncodeEntry, EntrySize, EntryAt, HeaderAt, EncodeEntries, At;
    if i == |es| {
      assert es[..i] == es;
    } else {
      EntriesRoundTrip(src, pos, es, i + 1);
      PrefixStep(es, i);
      EntryBytesAt(src, pos, es, i);
      assert es[i..][1..] == es[i + 1..];
      EntryStep(src, pos + SeekPayloadSize(es[..i]), pos + SeekPayloadSize(es), es[i]);
    }
  }

  /** An entry that was written is the next element; one that was not takes no room. */
  lemma EntryStep(src: seq<Byte>, pos: int, stop: int, e: Entry)
    requires At(src, pos, EncodeEntry(e)) && ValidEntry(e) && Readable(e) && pos + EntrySize(e) <= stop
    ensures e.id == 0 ==> EntrySize(e) == 0
    ensures e.id != 0 ==>
              && pos < stop && EntryPayloadSize(e) <= 18
              && HeaderAt(src, pos, stop) == Some(Header(ID_SEEK, EntryPayloadSize(e), pos + 3))
              && EntrySize(e) == 3 + EntryPayloadSize(e)
              && EntryAt(src, pos + 3, EntryPayloadSize(e)) == Some(e)
  {
    if e.id != 0 {
      hide EntryAt, HeaderAt, EncodeMaster, EntryPayload;
      PayloadSmall(e);
      AtSplit(src, pos, EncodeMaster(ID_SEEK, EntryPayloadSize(e)), EntryPayload(e));
      HeaderRoundTrip(src, pos, stop, ID_SEEK, EntryPayloadSize(e));
      EntryRoundTrip(src, pos + 3, e);
    }
  }

  lemma PayloadSmall(e: Entry)
    requires ValidEntry(e)
    ensures EntryPayloadSize(e) <= 18 && MasterSize(ID_SEEK, EntryPayloadSize(e)) == 3
  {
    assert GetUIntSize(e.id) <= 4;
  }

  /** The parser finds the SeekHead the muxer wrote and reads back the same IDs and positions. */
  lemma SeekHeadRoundTrip(src: seq<Byte>, start: int, es: seq<Entry>)
    requires |es| == ENTRY_COUNT && (forall e :: e in es ==> ValidEntry(e) && Readable(e))
    requires At(src, start, EncodeSeekHead(es))
    ensures HeaderAt(src, start, -1) == Some(Header(ID_SEEK_HEAD, SeekPayloadSize(es), start + 5))
    ensures EntriesAt(src, start + 5, start + 5 + SeekPayloadSize(es)) == Some(Written(es))
  {
    hide EncodeMaster, EncodeEntries, HeaderAt, EntriesAt, Written;
    PayloadBound(es);
    AtSplit(src, start, EncodeMaster(ID_SEEK_HEAD, SeekPayloadSize(es)), EncodeEntries(es));
    HeaderRoundTrip(src, start, -1, ID_SEEK_HEAD, SeekPayloadSize(es));
    EntriesRoundTrip(src, start + 5, es, 0);
    assert es[0..] == es && es[..0] == [];
  }

  // ----- elements of any kind in a SeekHead

  /** The entries of the Seek elements that parse, and where the Void elements stand, header and all. */
  function SeeksIn(src: seq<Byte>, parts: seq<Element>, p: nat): seq<Entry> {
    if |parts| == 0 then []
    else
      var e := parts[0];
      var entry := EntryAt(src, p + MasterSize(e.id, |e.body|), |e.body|);
      (if e.id == 0x4DBB && entry.Some? then [entry.value] else []) + SeeksIn(src, parts[1..], p + LengthOf(e))
  }

  function VoidsIn(parts: seq<Element>, p: nat): seq<Gap> {
    if |parts| == 0 then []
    else
      var e := parts[0];
      (if e.id == 0xEC then [Gap(p, LengthOf(e))] else []) + VoidsIn(parts[1..], p + LengthOf(e))
  }

  lemma InFirst(src: seq<Byte>, parts: seq<Element>, p: nat)
    ensures parts == [] ==> SeeksIn(src, parts, p) == [] && VoidsIn(parts, p) == []
    ensures parts != [] ==>
              var e := parts[0];
              var entry := EntryAt(src, p + MasterSize(e.id, |e.body|), |e.body|);
              && SeeksIn(src, parts, p)
                 == (if e.id == 0x4DBB && entry.Some? then [entry.value] else [])
                    + SeeksIn(src, parts[1..], p + LengthOf(e))
              && VoidsIn(parts, p)
                 == (if e.id == 0xEC then [Gap(p, LengthOf(e))] else []) + VoidsIn(parts[1..], p + LengthOf(e))
  {
    hide EntryAt;
  }

  lemma HeaderOver(src: seq<Byte>, p: nat, stop: int, e: Element)
    requires At(src, p, EncodeElement(e.id, e.body)) && Coded(e) && p + LengthOf(e) <= stop
    ensures HeaderAt(src, p, stop) == Some(Header(e.id, |e.body|, p + MasterSize(e.id, |e.body|)))
    ensures p < p + LengthOf(e) == p + MasterSize(e.id, |e.body|) + |e.body|
  {
    hide At, EncodeMaster, HeaderAt, ValidId, MasterSize;
    MasterLength(e);
    AtSplit(src, p, EncodeMaster(e.id, |e.body|), e.body);
    HeaderRoundTrip(src, p, stop, e.id, |e.body|);
  }

  /** One element more, of any kind. */
  lemma ElementOver(src: seq<Byte>, p: int, stop: int, h: Header)
    requires p < stop && HeaderAt(src, p, stop) == Some(h) && h.payload + h.size <= stop
    requires EntriesAt(src, h.payload + h.size, stop).Some?
    ensures var entry := EntryAt(src, h.payload, h.size);
            EntriesAt(src, p, stop)
            == Some((if h.id == 0x4DBB && entry.Some? then [entry.value] else [])
                    + EntriesAt(src, h.payload + h.size, stop).value)
    ensures VoidsAt(src, p, stop)
            == (if h.id == 0xEC then [Gap(p, h.payload + h.size - p)] else []) + VoidsAt(src, h.payload + h.size, stop)
  {
    hide HeaderAt, EntryAt;
    var rest := EntriesAt(src, h.payload + h.size, stop).value;
    assert [] + rest == rest;
  }

  /** The entries and the Void elements found are those that stand among the elements, in their order. */
  lemma {:induction false} ParsedAmong(src: seq<Byte>, p: nat, stop: int, parts: seq<Element>)
    requires At(src, p, ElementBytes(parts)) && stop == p + |ElementBytes(parts)|
    requires forall i :: 0 <= i < |parts| ==> Coded(parts[i])
    ensures EntriesAt(src, p, stop) == Some(SeeksIn(src, parts, p)) && VoidsAt(src, p, stop) == VoidsIn(parts, p)
    decreases |parts|
  {
    hide *;
    FirstElement(parts);
    InFirst(src, parts, p);
    if parts == [] {
      NothingThere(src, stop);
    } else {
      var e := parts[0];
      AtSplit(src, p, EncodeElement(e.id, e.body), ElementBytes(parts[1..]));
      HeaderOver(src, p, stop, e);
      ParsedAmong(src, p + LengthOf(e), stop, parts[1..]);
      ElementOver(src, p, stop, HeaderAt(src, p, stop).value);
    }
  }

  lemma NothingThere(src: seq<Byte>, stop: int)
    ensures EntriesAt(src, stop, stop) == Some([]) && VoidsAt(src, stop, stop) == []
  {
    hide HeaderAt;
  }
}
