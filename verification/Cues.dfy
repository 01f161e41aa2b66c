/** Cue points and the Cues element (libwebm/mkvmuxer/mkvmuxer.cc): sizes, bytes, and what moving the
    element in front of the clusters has to achieve. */
module Cues {
  import opened Bytes
  import opened Ebml
  import opened EbmlWriter

  /** The contents of a cue point. */
  datatype Cue = Cue(time: nat, track: nat, clusterPos: nat, blockNumber: nat, outputBlockNumber: bool)

  // ----- sizes

  function BlockNumberSize(c: Cue): nat {
    if c.outputBlockNumber && c.blockNumber > 1 then UIntElementSize(ID_CUE_BLOCK_NUMBER, c.blockNumber) else 0
  }

  function PositionsSize(c: Cue): nat {
    UIntElementSize(ID_CUE_CLUSTER_POSITION, c.clusterPos) + UIntElementSize(ID_CUE_TRACK, c.track) + BlockNumberSize(c)
  }

  function PayloadSize(c: Cue): (size: nat)
    ensures size <= 43
  {
    UIntElementSize(ID_CUE_TIME, c.time) + MasterSize(ID_CUE_TRACK_POSITIONS, PositionsSize(c)) + PositionsSize(c)
  }

  /** No cue point takes more than 45 bytes. */
  function MaxSum(count: nat): nat {
    45 * count
  }

  function CueSize(c: Cue): (size: nat)
    ensures size <= 45
  {
    MasterSize(ID_CUE_POINT, PayloadSize(c)) + PayloadSize(c)
  }

  function SumSizes(cues: seq<Cue>): nat {
    if cues == [] then 0 else SumSizes(cues[..|cues| - 1]) + CueSize(cues[|cues| - 1])
  }

  lemma {:induction false} SumBound(cues: seq<Cue>)
    ensures SumSizes(cues) <= MaxSum(|cues|)
  {
    hide CueSize;
    if cues != [] { SumBound(cues[..|cues| - 1]); }
  }

  /** The size of the Cues element around cue points of `sum` bytes. */
  function ElementSize(sum: nat): nat {
    sum + MasterSize(ID_CUES, sum)
  }

  function CuesSize(cues: seq<Cue>): nat {
    ElementSize(SumSizes(cues))
  }

  // ----- bytes

  function EncodeBlockNumber(c: Cue): seq<Byte> {
    if c.outputBlockNumber && c.blockNumber > 1 then EncodeUInt(ID_CUE_BLOCK_NUMBER, c.blockNumber) else []
  }

  function EncodePayload(c: Cue): (bs: seq<Byte>)
    ensures |bs| == PayloadSize(c)
  {
    EncodeUInt(ID_CUE_TIME, c.time)
    + EncodeMaster(ID_CUE_TRACK_POSITIONS, PositionsSize(c)) + EncodeUInt(ID_CUE_TRACK, c.track)
    + EncodeUInt(ID_CUE_CLUSTER_POSITION, c.clusterPos) + EncodeBlockNumber(c)
  }

  function EncodeCue(c: Cue): (bs: seq<Byte>)
    ensures |bs| == CueSize(c)
  {
    EncodeMaster(ID_CUE_POINT, PayloadSize(c)) + EncodePayload(c)
  }

  function EncodeAll(cues: seq<Cue>): (bs: seq<Byte>)
    ensures |bs| == SumSizes(cues)
  {
    if cues == [] then [] else EncodeAll(cues[..|cues| - 1]) + EncodeCue(cues[|cues| - 1])
  }

  lemma CuePrefixStep(cues: seq<Cue>, i: nat)
    requires i < |cues|
    ensures EncodeAll(cues[..i + 1]) == EncodeAll(cues[..i]) + EncodeCue(cues[i])
    ensures SumSizes(cues[..i + 1]) == SumSizes(cues[..i]) + CueSize(cues[i])
  {
    assert cues[..i + 1][..i] == cues[..i];
  }

  function EncodeCues(cues: seq<Cue>): (bs: seq<Byte>)
    ensures |bs| == CuesSize(cues)
  {
    EncodeMaster(ID_CUES, SumSizes(cues)) + EncodeAll(cues)
  }

  // ----- moving

  function Move(c: Cue, dist: nat): Cue {
    c.(clusterPos := c.clusterPos + dist)
  }

  /** All cue points moved by the same distance. */
  function MoveAll(cues: seq<Cue>, dist: nat): (moved: seq<Cue>)
    ensures |moved| == |cues| && forall i :: 0 <= i < |cues| ==> moved[i] == Move(cues[i], dist)
  {
    seq(|cues|, i requires 0 <= i < |cues| => Move(cues[i], dist))
  }

  /** A distance is enough when the Cues element, once its positions have moved that far, takes no
      more than that distance. */
  predicate Enough(cues: seq<Cue>, dist: nat) {
    CuesSize(MoveAll(cues, dist)) <= dist
  }

  /** The distance the clusters really move when the Cues element is put in front of them: the least
      one that equals the size of the element with its positions moved by just that distance. */
  ghost predicate IsRelocation(cues: seq<Cue>, dist: nat) {
    && CuesSize(MoveAll(cues, dist)) == dist
    && forall other: nat :: Enough(cues, other) ==> dist <= other
  }

  /** The distance is unique, whatever procedure finds it. */
  lemma RelocationUnique(cues: seq<Cue>, a: nat, b: nat)
    requires IsRelocation(cues, a) && IsRelocation(cues, b)
    ensures a == b
  {
    assert Enough(cues, a) && Enough(cues, b);
  }

  /** Position by position, `a` is not beyond `b`, and they agree otherwise. */
  ghost predicate NotBeyond(a: seq<Cue>, b: seq<Cue>) {
    && |a| == |b|
    && forall i :: 0 <= i < |a| ==>
         a[i].clusterPos <= b[i].clusterPos && Move(a[i], b[i].clusterPos - a[i].clusterPos) == b[i]
  }

  lemma {:induction false} SumMonotone(a: seq<Cue>, b: seq<Cue>)
    requires NotBeyond(a, b)
    ensures SumSizes(a) <= SumSizes(b)
  {
    if a != [] {
      var n := |a| - 1;
      SumMonotone(a[..n], b[..n]);
      CueMonotone(a[n], b[n].clusterPos - a[n].clusterPos);
    }
  }

  /** Moving a cue point further never makes it smaller. */
  lemma CueMonotone(c: Cue, dist: nat)
    ensures CueSize(c) <= CueSize(Move(c, dist))
  {
    var m := Move(c, dist);
    assert BlockNumberSize(m) == BlockNumberSize(c);
    assert PositionsSize(c) <= PositionsSize(m);
  }

  /** Moving cue points further never makes the element smaller. */
  lemma SizeMonotone(a: seq<Cue>, b: seq<Cue>)
    requires NotBeyond(a, b)
    ensures CuesSize(a) <= CuesSize(b)
  {
    SumMonotone(a, b);
  }

  lemma {:induction false} SumUpdate(cues: seq<Cue>, i: nat, c: Cue)
    requires i < |cues|
    ensures SumSizes(cues[i := c]) == SumSizes(cues) - CueSize(cues[i]) + CueSize(c)
  {
    var n := |cues| - 1;
    if i < n {
      SumUpdate(cues[..n], i, c);
      assert cues[i := c][..n] == cues[..n][i := c];
    } else {
      assert cues[i := c][..n] == cues[..n];
    }
  }

  // ----- the objects

  class CuePoint {
    var time: nat
    var track: nat
    var clusterPos: nat
    var blockNumber: nat
    var outputBlockNumber: bool

    constructor ()
      ensures Value() == Cue(0, 0, 0, 1, true)
    {
      time, track, clusterPos, blockNumber, outputBlockNumber := 0, 0, 0, 1, true;
    }

    function Value(): Cue
      reads this
    {
      Cue(time, track, clusterPos, blockNumber, outputBlockNumber)
    }

    /** Writes exactly `CueSize` bytes, unless the track or the position was never set. */
    method Write(w: Writer) returns (ok: bool)
      requires w.Valid()
      modifies w
      ensures w.Valid()
      ensures ok ==> track >= 1 && clusterPos >= 1 && w.Appended(EncodeCue(Value()))
      ensures w.reliable && track >= 1 && clusterPos >= 1 ==> ok
    {
      hide EncodeMaster, EncodePayload, UIntElementSize;
      if track < 1 || clusterPos < 1 { return false; }
      ghost var before := w.pending;
      var size := UIntElementSize(ID_CUE_CLUSTER_POSITION, clusterPos);
      size := size + UIntElementSize(ID_CUE_TRACK, track);
      if outputBlockNumber && blockNumber > 1 {
        size := size + UIntElementSize(ID_CUE_BLOCK_NUMBER, blockNumber);
      }
      var trackPosSize := MasterSize(ID_CUE_TRACK_POSITIONS, size) + size;
      var payloadSize := UIntElementSize(ID_CUE_TIME, time) + trackPosSize;

      assert payloadSize == PayloadSize(Value());
      ok := WriteEbmlMasterElement(w, ID_CUE_POINT, payloadSize);
      if !ok { return false; }
      var payloadPosition := w.Position();
      ok := WritePayload(w, size);
      if !ok { return false; }
      Then(before, EncodeMaster(ID_CUE_POINT, payloadSize), EncodePayload(Value()));
      if w.Position() - payloadPosition != payloadSize { return false; }
      ok := true;
    }

    method WritePayload(w: Writer, size: nat) returns (ok: bool)
      requires w.Valid() && size == PositionsSize(Value())
      modifies w
      ensures w.Valid()
      ensures ok ==> w.Appended(EncodePayload(Value()))
      ensures w.reliable ==> ok
    {
      hide EncodeMaster, EncodeUInt;
      ghost var c, before := Value(), w.pending;
      ghost var time', track', pos' := EncodeUInt(ID_CUE_TIME, time), EncodeUInt(ID_CUE_TRACK, track),
        EncodeUInt(ID_CUE_CLUSTER_POSITION, clusterPos);
      ghost var header := EncodeMaster(ID_CUE_TRACK_POSITIONS, size);
      ok := WriteUIntElement(w, ID_CUE_TIME, time);
      if !ok { return false; }
      ok := WriteEbmlMasterElement(w, ID_CUE_TRACK_POSITIONS, size);
      if !ok { return false; }
      Then(before, time', header);
      ok := WriteUIntElement(w, ID_CUE_TRACK, track);
      if !ok { return false; }
      Then(before, time' + header, track');
      ok := WriteUIntElement(w, ID_CUE_CLUSTER_POSITION, clusterPos);
      if !ok { return false; }
      Then(before, time' + header + track', pos');
      if outputBlockNumber && blockNumber > 1 {
        ok := WriteUIntElement(w, ID_CUE_BLOCK_NUMBER, blockNumber);
        if !ok { return false; }
      }
      Then(before, time' + header + track' + pos', EncodeBlockNumber(c));
    }
  }

  function Values(entries: seq<CuePoint>): (vs: seq<Cue>)
    reads entries
    ensures |vs| == |entries| && forall i :: 0 <= i < |entries| ==> vs[i] == entries[i].Value()
  {
    seq(|entries|, i requires 0 <= i < |entries| reads entries => entries[i].Value())
  }

  class CueList {
    var entries: seq<CuePoint>
    var outputBlockNumber: bool

    constructor ()
      ensures entries == [] && outputBlockNumber
    {
      entries, outputBlockNumber := [], true;
    }

    ghost predicate Valid()
      reads this
    {
      forall i, j :: 0 <= i < j < |entries| ==> entries[i] != entries[j]
    }

    method AddCue(cue: CuePoint) returns (ok: bool)
      requires Valid() && cue !in entries
      modifies this`entries, cue`outputBlockNumber
      ensures Valid() && ok
      ensures entries == old(entries) + [cue]
      ensures Values(entries) == old(Values(entries)) + [old(cue.Value()).(outputBlockNumber := outputBlockNumber)]
    {
      cue.outputBlockNumber := outputBlockNumber;
      entries := entries + [cue];
      ok := true;
    }

    method Size() returns (size: nat)
      ensures size == CuesSize(Values(entries))
    {
      size := EntriesSize();
      size := size + MasterSize(ID_CUES, size);
    }

    method EntriesSize() returns (size: nat)
      ensures size == SumSizes(Values(entries))
    {
      hide CueSize, EncodeCue;
      size := 0;
      ghost var vs := Values(entries);
      for i := 0 to |entries|
        invariant size == SumSizes(vs[..i])
      {
        CuePrefixStep(vs, i);
        size := size + CueSize(entries[i].Value());
      }
      assert vs[..|entries|] == vs;
    }

    /** Every cue point names a track and a cluster. */
    ghost predicate AllSet()
      reads this, entries
    {
      forall c :: c in entries ==> c.track >= 1 && c.clusterPos >= 1
    }

    /** Writes exactly `Size` bytes. */
    method Write(w: Writer) returns (ok: bool)
      requires w.Valid()
      modifies w
      ensures w.Valid()
      ensures ok ==> w.Appended(EncodeCues(Values(entries))) && AllSet() && SumSizes(Values(entries)) <= MAX_CODED
      ensures w.reliable && SumSizes(Values(entries)) <= MAX_CODED && AllSet() ==> ok
    {
      hide EncodeMaster, EncodeAll, SumSizes;
      var size := EntriesSize();
      ghost var before, vs := w.pending, Values(entries);
      ok := WriteEbmlMasterElement(w, ID_CUES, size);
      if !ok { return false; }
      var payloadPosition := w.Position();
      ok := WriteEntries(w);
      if !ok { return false; }
      Then(before, EncodeMaster(ID_CUES, size), EncodeAll(vs));
      if w.Position() - payloadPosition != size { return false; }
      ok := true;
    }

    method WriteEntries(w: Writer) returns (ok: bool)
      requires w.Valid()
      modifies w
      ensures w.Valid()
      ensures ok ==> w.Appended(EncodeAll(Values(entries))) && AllSet()
      ensures w.reliable && AllSet() ==> ok
    {
      hide EncodeCue, CueSize, SumSizes;
      ghost var before, vs := w.pending, Values(entries);
      for i := 0 to |entries|
        invariant w.Valid() && w.Appended(EncodeAll(vs[..i]))
        invariant forall j :: 0 <= j < i ==> entries[j].track >= 1 && entries[j].clusterPos >= 1
      {
        ok := entries[i].Write(w);
        if !ok { return false; }
        CuePrefixStep(vs, i);
        Then(before, EncodeAll(vs[..i]), EncodeCue(vs[i]));
      }
      assert vs[..|entries|] == vs;
      ok := true;
    }
  }
}
