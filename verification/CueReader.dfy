/** The parser's cue points (libwebm/mkvparser/mkvparser.cc, classes `CuePoint` and `Cues`): found first, loaded one
    at a time, searched by time, and read back as the muxer wrote them. */
module CueReader {
  import opened Bytes
  import opened Ebml
  import opened EbmlReader
  import M = Cues

  // ----- children

  /** A child that ends by `stop`. */
  function ChildIn(src: seq<Byte>, pos: int, stop: int): (h: Option<Header>)
    ensures h.Some? ==>
              h == HeaderAt(src, pos, stop) && h.value.payload + h.value.size <= stop && 0 <= pos < h.value.payload
  {
    if stop < 0 then None
    else match HeaderAt(src, pos, stop)
         case None => None
         case Some(h) => if h.payload + h.size > stop then None else Some(h)
  }

  /** The header of a child, which must end by `stop`. */
  method ReadInside(src: seq<Byte>, pos: nat, stop: nat) returns (ok: bool, h: Header)
    requires pos < stop
    ensures ok <==> ChildIn(src, pos, stop).Some?
    ensures ok ==> h == ChildIn(src, pos, stop).value && pos < h.payload && h.size >= 0
  {
    hide IdAt, UIntAt;
    h := Header(0, 0, 0);
    var id, len := ReadID(src, pos);
    if id < 0 || pos + len > stop { return false, h; }
    var at := pos + len;
    var size;
    size, len := ReadUInt(src, at);
    if size < 0 || at + len > stop { return false, h; }
    at := at + len;
    if at + size > stop { return false, h; }
    ok, h := true, Header(id, size, at);
  }

  method ReadValue(src: seq<Byte>, h: Header) returns (value: int)
    ensures value == ValueAt(src, h)
  {
    hide FromBigEndian, ToInt64;
    value := UnserializeUInt(src, h.payload, h.size);
  }

  // ----- track positions

  datatype Position = Position(track: int, pos: int, block: int)

  function Field(src: seq<Byte>, h: Header, p: Position): Position {
    if h.id == ID_CUE_TRACK then p.(track := ValueAt(src, h))
    else if h.id == ID_CUE_CLUSTER_POSITION then p.(pos := ValueAt(src, h))
    else if h.id == ID_CUE_BLOCK_NUMBER then p.(block := ValueAt(src, h))
    else p
  }

  function FieldsAt(src: seq<Byte>, pos: int, stop: int, p: Position): Option<Position>
    decreases stop - pos
  {
    if pos >= stop then Some(p)
    else match ChildIn(src, pos, stop)
         case None => None
         case Some(h) => FieldsAt(src, h.payload + h.size, stop, Field(src, h, p))
  }

  /** A position names a track and a cluster; the block is the first one if it is not given. */
  function PositionAt(src: seq<Byte>, start: int, size: int): Option<Position> {
    match FieldsAt(src, start, start + size, Position(-1, -1, 1))
    case None => None
    case Some(p) => if p.pos < 0 || p.track <= 0 then None else Some(p)
  }

  method ParsePosition(src: seq<Byte>, start: nat, size: nat) returns (ok: bool, p: Position)
    ensures ok <==> PositionAt(src, start, size).Some?
    ensures ok ==> p == PositionAt(src, start, size).value
  {
    hide ChildIn, ValueAt, HeaderAt;
    var pos, stop := start, start + size;
    p := Position(-1, -1, 1);
    while pos < stop
      invariant pos >= 0 && FieldsAt(src, start, stop, Position(-1, -1, 1)) == FieldsAt(src, pos, stop, p)
      decreases stop - pos
    {
      var h;
      ok, h := ReadInside(src, pos, stop);
      if !ok { return; }
      if h.id == ID_CUE_TRACK {
        var value := ReadValue(src, h);
        p := p.(track := value);
      } else if h.id == ID_CUE_CLUSTER_POSITION {
        var value := ReadValue(src, h);
        p := p.(pos := value);
      } else if h.id == ID_CUE_BLOCK_NUMBER {
        var value := ReadValue(src, h);
        p := p.(block := value);
      }
      pos := h.payload + h.size;
    }
    ok := p.pos >= 0 && p.track > 0;
  }

  // ----- cue points

  datatype Point = Point(time: int, positions: seq<Position>)

  /** First the time is read and the track positions are counted. */
  function CountAt(src: seq<Byte>, pos: int, stop: int, time: int, count: nat): Option<(int, nat)>
    decreases stop - pos
  {
    if pos >= stop then Some((time, count))
    else match ChildIn(src, pos, stop)
         case None => None
         case Some(h) =>
           CountAt(src, h.payload + h.size, stop, if h.id == ID_CUE_TIME then ValueAt(src, h) else time,
                   if h.id == ID_CUE_TRACK_POSITIONS then count + 1 else count)
  }

  /** Then the track positions are parsed. */
  function PositionsAt(src: seq<Byte>, pos: int, stop: int, before: seq<Position>): Option<seq<Position>>
    decreases stop - pos
  {
    if pos >= stop then Some(before)
    else match ChildIn(src, pos, stop)
         case None => None
         case Some(h) =>
           if h.id != ID_CUE_TRACK_POSITIONS then PositionsAt(src, h.payload + h.size, stop, before)
           else match PositionAt(src, h.payload, h.size)
                case None => None
                case Some(p) => PositionsAt(src, h.payload + h.size, stop, before + [p])
  }

  /** Where a cue point begins, and its header. */
  datatype Place = Place(at: int, header: Header)

  /** The cue point at a place; it has a time and at least one position. */
  function PointOf(src: seq<Byte>, place: Place): (point: Option<Point>)
    ensures point.Some? ==> point.value.time >= 0
  {
    var h := place.header;
    match CountAt(src, h.payload, h.payload + h.size, -place.at, 0)
    case None => None
    case Some((time, count)) =>
      if time < 0 || count == 0 then None
      else match PositionsAt(src, h.payload, h.payload + h.size, [])
           case None => None
           case Some(positions) => Some(Point(time, positions))
  }

  class CuePoint {
    const index: nat
    /** The time; as long as it is not loaded, its place in the file with a minus sign. */
    var timecode: int
    var positions: seq<Position>

    constructor (index: nat, pos: nat)
      requires pos > 0
      ensures this.index == index && timecode == -(pos as int) && positions == []
    {
      this.index, timecode, positions := index, -(pos as int), [];
    }

    /** Reads the cue point at its place, the first time; its header has been seen to be good. */
    method Load(src: seq<Byte>, ghost h: Header) returns (ok: bool)
      requires timecode < 0 && positions == [] ==> HeaderAt(src, -timecode, -1) == Some(h) && h.id == ID_CUE_POINT
      requires timecode < 0 ==> positions == []
      modifies this
      ensures old(timecode) >= 0 ==> ok && timecode == old(timecode) && positions == old(positions)
      ensures old(timecode) < 0 ==> (ok <==> PointOf(src, Place(-old(timecode), h)).Some?)
      ensures old(timecode) < 0 && ok ==> Point(timecode, positions) == PointOf(src, Place(-old(timecode), h)).value
    {
      hide IdAt, UIntAt, ChildIn, ValueAt, PositionAt;
      if timecode >= 0 { return true; }
      var at := -timecode;
      var id, len := ReadID(src, at);
      if id != ID_CUE_POINT { return false; }
      at := at + len;
      var size;
      size, len := ReadUInt(src, at);
      at := at + len;
      var stop := at + size;

      var pos, count := at, 0;
      while pos < stop
        invariant pos >= 0 && positions == [] &&
                  CountAt(src, at, stop, old(timecode), 0) == CountAt(src, pos, stop, timecode, count)
        decreases stop - pos
      {
        var child;
        ok, child := ReadInside(src, pos, stop);
        if !ok { return; }
        if child.id == ID_CUE_TIME {
          timecode := ReadValue(src, child);
        } else if child.id == ID_CUE_TRACK_POSITIONS {
          count := count + 1;
        }
        pos := child.payload + child.size;
      }
      if timecode < 0 || count <= 0 { return false; }
      ok := LoadPositions(src, at, stop);
    }

    method LoadPositions(src: seq<Byte>, at: nat, stop: nat) returns (ok: bool)
      requires positions == []
      modifies `positions
      ensures ok <==> PositionsAt(src, at, stop, []).Some?
      ensures ok ==> positions == PositionsAt(src, at, stop, []).value
    {
      hide ChildIn, PositionAt, HeaderAt;
      var pos := at;
      while pos < stop
        invariant pos >= 0 && PositionsAt(src, at, stop, []) == PositionsAt(src, pos, stop, positions)
        decreases stop - pos
      {
        var child;
        ok, child := ReadInside(src, pos, stop);
        if !ok { return; }
        if child.id == ID_CUE_TRACK_POSITIONS {
          var p;
          ok, p := ParsePosition(src, child.payload, child.size);
          if !ok { return; }
          positions := positions + [p];
        }
        pos := child.payload + child.size;
      }
      ok := true;
    }
  }

  // ----- the Cues element

  /** The cue points between `pos` and `stop`; elements of other kinds are passed over. */
  function PlacesAt(src: seq<Byte>, pos: int, stop: int): Option<seq<Place>>
    decreases stop - pos
  {
    if pos >= stop then Some([])
    else match ChildIn(src, pos, stop)
         case None => None
         case Some(h) =>
           match PlacesAt(src, h.payload + h.size, stop)
           case None => None
           case Some(rest) => Some(if h.id == ID_CUE_POINT then [Place(pos, h)] + rest else rest)
  }

  lemma PlacesEnd(src: seq<Byte>, pos: int, stop: int)
    ensures pos >= stop ==> PlacesAt(src, pos, stop) == Some([])
  {
  }

  lemma PlacesStep(src: seq<Byte>, pos: int, stop: int)
    requires pos < stop
    ensures ChildIn(src, pos, stop).None? ==> PlacesAt(src, pos, stop).None?
    ensures ChildIn(src, pos, stop).Some? ==>
              var h := ChildIn(src, pos, stop).value;
              var rest := PlacesAt(src, h.payload + h.size, stop);
              && (PlacesAt(src, pos, stop).Some? <==> rest.Some?)
              && (rest.Some? ==> PlacesAt(src, pos, stop).value == if h.id == ID_CUE_POINT then
                  [Place(pos, h)] + rest.value else rest.value)
  {
    hide ChildIn;
  }

  lemma WiderHeader(src: seq<Byte>, pos: int, stop: int)
    requires HeaderAt(src, pos, stop).Some?
    ensures HeaderAt(src, pos, -1) == HeaderAt(src, pos, stop)
  {
    hide IdAt, UIntAt;
  }

  class Cues {
    const start: nat
    const size: nat
    var pos: int
    /** The cue points: first those that are loaded, then those of which only the place is known. */
    var points: seq<CuePoint>
    var count: nat
    var preload: nat

    constructor (start: nat, size: nat)
      requires start > 0
      ensures this.start == start && this.size == size && points == [] && count == 0 && preload == 0 && pos == start
    {
      this.start, this.size, pos, points, count, preload := start, size, start, [], 0, 0;
    }

    /** The cue points there are. */
    function Places(src: seq<Byte>): Option<seq<Place>> {
      PlacesAt(src, start, start + size)
    }

    ghost predicate Valid(src: seq<Byte>)
      reads this, points
    {
      && Shape() && LoadedAre(src)
      && (points == [] && pos < start + size ==> pos == start)
      && (points != [] && pos < start + size ==> Waiting(src, pos))
    }

    ghost predicate Shape()
      reads this
    {
      && start > 0 && start <= pos && count + preload == |points|
      && (forall i :: 0 <= i < |points| ==> points[i].index == i)
    }

    /** The loaded cue points are the first ones of the element. */
    ghost predicate LoadedAre(src: seq<Byte>)
      reads `points, `count, points
    {
      count > 0 ==>
        && Places(src).Some? && count <= |points| && count <= |Places(src).value|
        && forall i :: 0 <= i < count ==>
             && points[i].timecode >= 0
             && PointOf(src, Places(src).value[i]) == Some(Point(points[i].timecode, points[i].positions))
    }

    /** The others are still to come, from `at` on. */
    ghost predicate Waiting(src: seq<Byte>, at: int)
      reads `points, `count, points
    {
      && Places(src).Some? && |Places(src).value| == |points| && count <= |points|
      && PlacesAt(src, at, start + size) == Some(Places(src).value[count..])
      && forall i :: count <= i < |points| ==>
          points[i].timecode == -Places(src).value[i].at && points[i].positions == []
    }

    /** Finds all cue points, the first time. */
    method Init(src: seq<Byte>) returns (ok: bool)
      requires Valid(src) && pos < start + size
      modifies `points, `preload
      ensures Shape() && (ok ==> Valid(src))
      ensures ok <==> Places(src).Some?
      ensures ok && points == [] ==> Places(src) == Some([])
      ensures points == old(points) || (old(points) == [] && forall i :: 0 <= i < |points| ==> fresh(points[i]))
      ensures !ok ==> count == 0
    {
      hide ChildIn, HeaderAt, PointOf, PlacesAt;
      if |points| > 0 { return true; }
      var at, stop := start as int, start + size;
      ghost var seen: seq<Place> := [];
      while at < stop
        invariant at >= start && preload == |points| == |seen|
        invariant Places(src).Some? <==> PlacesAt(src, at, stop).Some?
        invariant Places(src).Some? ==> Places(src).value == seen + PlacesAt(src, at, stop).value
        invariant forall i :: 0 <= i < |points| ==>
                  fresh(points[i]) && points[i].timecode == -seen[i].at && points[i].positions == []
        invariant forall i :: 0 <= i < |points| ==> points[i].index == i
        decreases stop - at
      {
        PlacesStep(src, at, stop);
        var h;
        ok, h := ReadInside(src, at, stop);
        if !ok { return; }
        if h.id == ID_CUE_POINT {
          var point := new CuePoint(preload, at);
          points := points + [point];
          preload := preload + 1;
          seen := seen + [Place(at, h)];
        }
        at := h.payload + h.size;
      }
      PlacesEnd(src, at, stop);
      assert Places(src).value == seen == Places(src).value[0..];
      ok := true;
    }

    /** Loads the next cue point; false when there is none, or when it is bad, and then for good. */
    method LoadCuePoint(src: seq<Byte>) returns (ok: bool)
      requires Valid(src)
      modifies this, points
      ensures Valid(src)
      ensures ok ==> count == old(count) + 1
      ensures !ok ==> count == old(count) && pos >= start + size
      ensures !ok && old(pos) < start + size ==> Places(src).None? || NoneLeft(src)
      ensures points == old(points) || (old(points) == [] && forall i :: 0 <= i < |points| ==> fresh(points[i]))
    {
      hide ChildIn, HeaderAt, PointOf;
      var stop := start + size;
      if pos >= stop { return false; }
      ok := Init(src);
      if !ok {
        pos := stop;
        return;
      }
      assert pos == start || points != [];
      ok := LoadNext(src);
    }

    /** The next cue point, if there is one, is bad. */
    ghost predicate NoneLeft(src: seq<Byte>)
      reads `count
    {
      && Places(src).Some?
      && (count >= |Places(src).value| || PointOf(src, Places(src).value[count]).None?)
    }

    /** What is left from `at` to the end are the cue points still to be loaded. */
    ghost predicate ToCome(src: seq<Byte>, at: int)
      reads `points, `count, points
    {
      && Places(src).Some?
      && if points == [] then PlacesAt(src, at, start + size) == Places(src) == Some([]) &&
          count == 0 else Waiting(src, at)
    }

    lemma PassOver(src: seq<Byte>, at: int)
      requires ToCome(src, at) && at < start + size
      ensures ChildIn(src, at, start + size).Some?
      ensures var h := ChildIn(src, at, start + size).value;
              h.id != ID_CUE_POINT ==> ToCome(src, h.payload + h.size)
    {
      hide ChildIn, PlacesAt;
      PlacesStep(src, at, start + size);
    }

    lemma AllPassed(src: seq<Byte>, at: int)
      requires ToCome(src, at) && at >= start + size
      ensures NoneLeft(src)
    {
      PlacesEnd(src, at, start + size);
      hide PlacesAt;
    }

    /** Goes to the next cue point and loads it. */
    method LoadNext(src: seq<Byte>) returns (ok: bool)
      requires Shape() && LoadedAre(src) && pos < start + size && ToCome(src, pos)
      modifies `pos, `count, `preload, points
      ensures Valid(src)
      ensures ok ==> count == old(count) + 1
      ensures !ok ==> count == old(count) && pos >= start + size && NoneLeft(src)
    {
      hide ChildIn, ToCome, LoadedAre, NoneLeft;
      var stop := start + size;
      while pos < stop
        invariant Shape() && LoadedAre(src) && ToCome(src, pos) && count == old(count)
        decreases stop - pos
      {
        PassOver(src, pos);
        var child;
        ok, child := ReadInside(src, pos, stop);
        if !ok { return; }
        if child.id == ID_CUE_POINT {
          ok := LoadHere(src, child);
          return;
        }
        pos := child.payload + child.size;
      }
      AllPassed(src, pos);
      ok := false;
    }

    lemma NextIsHere(src: seq<Byte>, child: Header)
      requires Shape() && ToCome(src, pos) && pos < start + size
      requires ChildIn(src, pos, start + size) == Some(child) && child.id == ID_CUE_POINT
      ensures points != [] && preload >= 1 && Waiting(src, pos) && Places(src).value[count] == Place(pos, child)
      ensures points[count].timecode == -pos && points[count].positions == []
      ensures PlacesAt(src, child.payload + child.size, start + size) == Some(Places(src).value[count + 1..])
      ensures HeaderAt(src, pos, -1) == Some(child)
    {
      hide ChildIn, HeaderAt, PlacesAt;
      var all := Places(src).value;
      PlacesStep(src, pos, start + size);
      assert all[count] == all[count..][0] == Place(pos, child);
      assert all[count + 1..] == all[count..][1..];
      WiderHeader(src, pos, start + size);
    }

    /** Loads the cue point that begins here. */
    method LoadHere(src: seq<Byte>, child: Header) returns (ok: bool)
      requires Shape() && LoadedAre(src) && ToCome(src, pos) && pos < start + size
      requires ChildIn(src, pos, start + size) == Some(child) && child.id == ID_CUE_POINT
      modifies `pos, `count, `preload, points
      ensures Valid(src)
      ensures ok ==> count == old(count) + 1
      ensures !ok ==> count == old(count) && pos >= start + size && NoneLeft(src)
    {
      hide ChildIn, HeaderAt, PointOf, PlacesAt, ToCome;
      NextIsHere(src, child);
      if preload < 1 { return false; }
      var point := points[count];
      if point.timecode < 0 && -point.timecode != pos { return false; }
      ok := point.Load(src, child);
      if !ok {
        pos := start + size;
        return;
      }
      count := count + 1;
      preload := preload - 1;
      pos := child.payload + child.size;
      assert Shape() && LoadedAre(src);
      assert Waiting(src, pos);
    }

    /** The time of a loaded cue point, in nanoseconds. */
    function Time(i: nat, scale: nat): int
      requires i < |points|
      reads this, points
    {
      scale * points[i].timecode
    }

    /** Cue points in the order of time. */
    ghost predicate InOrder()
      reads this, points
    {
      count <= |points| && forall i, j :: 0 <= i < j < count ==> points[i].timecode <= points[j].timecode
    }

    /** The last cue point not later than `time`, or the first one when even that is not earlier. */
    ghost predicate IsNearest(k: nat, time: int, scale: nat)
      reads this, points
    {
      && k < count <= |points|
      && if time <= Time(0, scale) then k == 0
         else Time(k, scale) <= time && forall i :: k < i < count ==> Time(i, scale) > time
    }

    /** Searches for a time by halving; the cue point must have a position for the track. */
    method Find(time: int, track: int, scale: nat) returns (found: bool, k: nat, p: Position)
      requires count <= |points| && scale >= 1
      ensures time < 0 || count == 0 ==> !found
      ensures found ==> k < count && PositionFor(points[k].positions, track) == Some(p)
      ensures found ==> Time(k, scale) <= time || k == 0
      ensures time >= 0 && count > 0 && InOrder() ==>
                IsNearest(k, time, scale) && (found <==> PositionFor(points[k].positions, track).Some?)
    {
      found, k, p := false, 0, Position(0, 0, 0);
      if time < 0 || count == 0 { return; }
      if time <= Time(0, scale) {
        found, p := FindPosition(points[0].positions, track);
        return;
      }
      var i, j := 0, count;
      assert InOrder() ==> Ordered(scale) by { if InOrder() { TimesOrdered(scale); } }
      while i < j
        invariant 0 <= i <= j <= count
        invariant forall m :: 0 <= m < count ==> m == i - 1 ==> Time(m, scale) <= time
        invariant j < count ==> Time(j, scale) > time
        invariant Ordered(scale) ==> forall m :: j <= m < count ==> Time(m, scale) > time
        invariant i > 0 || j > 0
        decreases j - i
      {
        var middle := i + (j - i) / 2;
        if Time(middle, scale) <= time {
          i := middle + 1;
        } else {
          j := middle;
        }
      }
      if i <= 0 { return; }
      k := i - 1;
      if Time(k, scale) > time { return; }
      found, p := FindPosition(points[k].positions, track);
    }

    ghost predicate Ordered(scale: nat)
      reads this, points
    {
      count <= |points| && forall i, j :: 0 <= i < j < count ==> Time(i, scale) <= Time(j, scale)
    }

    lemma TimesOrdered(scale: nat)
      requires InOrder()
      ensures Ordered(scale)
    {
      forall i, j | 0 <= i < j < count ensures Time(i, scale) <= Time(j, scale) {
        Monotone(points[i].timecode, points[j].timecode, scale);
      }
    }
  }

  function PositionFor(positions: seq<Position>, track: int): Option<Position> {
    if positions == [] then None
    else if positions[0].track == track then Some(positions[0])
    else PositionFor(positions[1..], track)
  }

  /** It is the first one of the track. */
  lemma {:induction false} PositionIsFirst(positions: seq<Position>, track: int)
    ensures PositionFor(positions, track).Some? <==> exists i :: 0 <= i < |positions| && positions[i].track == track
    ensures PositionFor(positions, track).Some? ==>
              exists i :: 0 <= i < |positions| && PositionFor(positions, track).value == positions[i]
                          && positions[i].track == track && forall j :: 0 <= j < i ==> positions[j].track != track
  {
    if positions != [] && positions[0].track != track {
      var rest := positions[1..];
      PositionIsFirst(rest, track);
      forall i | 0 <= i < |positions| && positions[i].track == track ensures rest[i - 1].track == track { }
      if PositionFor(rest, track).Some? {
        var i :| 0 <= i < |rest| && PositionFor(rest, track).value == rest[i] && rest[i].track == track
                 && forall j :: 0 <= j < i ==> rest[j].track != track;
        assert positions[i + 1] == rest[i];
        forall j | 0 <= j < i + 1 ensures positions[j].track != track {
          if j > 0 { assert positions[j] == rest[j - 1]; }
        }
      }
    }
  }

  method FindPosition(positions: seq<Position>, track: int) returns (found: bool, p: Position)
    ensures found <==> PositionFor(positions, track).Some?
    ensures found ==> p == PositionFor(positions, track).value
  {
    found, p := false, Position(0, 0, 0);
    var i := 0;
    assert positions[0..] == positions;
    while i < |positions|
      invariant i <= |positions| && PositionFor(positions, track) == PositionFor(positions[i..], track)
    {
      p := positions[i];
      i := i + 1;
      if p.track == track { return true, p; }
    }
  }

  // ----- reading undoes writing

  /** A cue whose numbers a signed 64-bit integer holds. */
  predicate Fits(c: M.Cue) {
    c.time <= INT64_MAX && 0 < c.track <= INT64_MAX && c.clusterPos <= INT64_MAX && c.blockNumber <= INT64_MAX
  }

  /** What is read of a cue: a number that is not written reads as 1. */
  function PointFor(c: M.Cue): Point {
    Point(c.time, [Position(c.track, c.clusterPos,
                            if c.outputBlockNumber && c.blockNumber > 1 then c.blockNumber else 1)])
  }

  lemma CueIds()
    ensures ValidId(ID_CUES) && ValidId(ID_CUE_POINT) && ValidId(ID_CUE_TIME) && ValidId(ID_CUE_TRACK_POSITIONS) &&
            ValidId(ID_CUE_TRACK)
    ensures ValidId(ID_CUE_CLUSTER_POSITION) && ValidId(ID_CUE_BLOCK_NUMBER)
  {
  }

  /** An unsigned element is found as the child that was written. */
  lemma NumberReadsBack(src: seq<Byte>, p: nat, stop: int, id: nat, value: nat)
    requires ValidId(id) && value <= INT64_MAX && At(src, p, EncodeUInt(id, value)) &&
             p + |EncodeUInt(id, value)| <= stop
    ensures p < stop
    ensures var h := ChildIn(src, p, stop);
            && h.Some? && h.value.id == id && h.value.payload + h.value.size == p + |EncodeUInt(id, value)|
            && ValueAt(src, h.value) == value
  {
    hide At, HeaderAt, EncodeMaster, BigEndian, FromBigEndian, GetUIntSize, GetCodedUIntSize, ValidId, ToInt64;
    var body := UIntBytes(value);
    ElementSizesMatchEncodings(id, value, 0, body, 0);
    AtSplit(src, p, EncodeMaster(id, |body|), body);
    HeaderRoundTrip(src, p, stop, id, |body|);
    Placed(src, p + MasterSize(id, |body|), body);
    UIntSizeIsLeast(value);
    UIntPayloadRoundTrip(src, p + MasterSize(id, |body|), value, |body|);
    ToInt64Keeps(value);
  }

  lemma Placed(src: seq<Byte>, p: int, bs: seq<Byte>)
    requires At(src, p, bs)
    ensures 0 <= p <= p + |bs| <= |src|
  {
  }

  function WithField(id: nat, value: int, p: Position): Position {
    if id == ID_CUE_TRACK then p.(track := value)
    else if id == ID_CUE_CLUSTER_POSITION then p.(pos := value)
    else if id == ID_CUE_BLOCK_NUMBER then p.(block := value)
    else p
  }

  lemma FieldStep(src: seq<Byte>, p: nat, stop: int, id: nat, value: nat, before: Position)
    requires ValidId(id) && value <= INT64_MAX && At(src, p, EncodeUInt(id, value)) &&
             p + |EncodeUInt(id, value)| <= stop
    ensures FieldsAt(src, p, stop, before) == FieldsAt(src, p + |EncodeUInt(id, value)|, stop,
                                                       WithField(id, value, before))
  {
    hide At, ChildIn, ValueAt, EncodeUInt, ValidId;
    NumberReadsBack(src, p, stop, id, value);
  }

  lemma FieldsEnd(src: seq<Byte>, stop: int, p: Position)
    ensures FieldsAt(src, stop, stop, p) == Some(p)
  {
  }

  lemma PositionParts(c: M.Cue)
    ensures M.PositionsSize(c) == |EncodeUInt(ID_CUE_TRACK, c.track)|
            + |EncodeUInt(ID_CUE_CLUSTER_POSITION, c.clusterPos)| + |M.EncodeBlockNumber(c)|
  {
    ElementSizesMatchEncodings(ID_CUE_TRACK, c.track, 0, [], 0);
    ElementSizesMatchEncodings(ID_CUE_CLUSTER_POSITION, c.clusterPos, 0, [], 0);
    ElementSizesMatchEncodings(ID_CUE_BLOCK_NUMBER, c.blockNumber, 0, [], 0);
    hide EncodeUInt, UIntElementSize;
  }

  lemma PositionReadsBack(src: seq<Byte>, p: nat, c: M.Cue)
    requires Fits(c)
    requires At(src, p, EncodeUInt(ID_CUE_TRACK, c.track) + EncodeUInt(ID_CUE_CLUSTER_POSITION, c.clusterPos)
                + M.EncodeBlockNumber(c))
    ensures PositionAt(src, p, M.PositionsSize(c)) == Some(PointFor(c).positions[0])
  {
    hide At, FieldsAt, EncodeUInt, ValidId, M.PositionsSize;
    CueIds();
    PositionParts(c);
    var a, b, d := EncodeUInt(ID_CUE_TRACK, c.track), EncodeUInt(ID_CUE_CLUSTER_POSITION, c.clusterPos),
        M.EncodeBlockNumber(c);
    AtSplit(src, p, a + b, d);
    AtSplit(src, p, a, b);
    var stop := p + M.PositionsSize(c);
    FieldStep(src, p, stop, ID_CUE_TRACK, c.track, Position(-1, -1, 1));
    FieldStep(src, p + |a|, stop, ID_CUE_CLUSTER_POSITION, c.clusterPos, Position(c.track, -1, 1));
    if c.outputBlockNumber && c.blockNumber > 1 {
      FieldStep(src, p + |a| + |b|, stop, ID_CUE_BLOCK_NUMBER, c.blockNumber, Position(c.track, c.clusterPos, 1));
    }
    FieldsEnd(src, stop, PointFor(c).positions[0]);
  }

  /** A cue point is read as it was written. */
  lemma PointReadsBack(src: seq<Byte>, p: nat, stop: int, c: M.Cue)
    requires Fits(c) && At(src, p, M.EncodeCue(c)) && p + M.CueSize(c) <= stop
    ensures p < stop
    ensures var h := ChildIn(src, p, stop);
            h.Some? && h.value.id == ID_CUE_POINT && h.value.payload + h.value.size == p + M.CueSize(c)
            && PointOf(src, Place(p, h.value)) == Some(PointFor(c))
  {
    hide *;
    CueIds();
    SmallCue(c);
    CueParts(src, p, c);
    var q := p + MasterSize(ID_CUE_POINT, M.PayloadSize(c));
    HeaderRoundTrip(src, p, stop, ID_CUE_POINT, M.PayloadSize(c));
    ChildIs(src, p, stop);
    PayloadReadsBack(src, q, q + M.PayloadSize(c), -(p as int), c);
    PointIs(src, p, Header(ID_CUE_POINT, M.PayloadSize(c), q), c);
  }

  /** A cue point is its header and its payload. */
  lemma CueParts(src: seq<Byte>, p: nat, c: M.Cue)
    requires At(src, p, M.EncodeCue(c))
    ensures At(src, p, EncodeMaster(ID_CUE_POINT, M.PayloadSize(c)))
    ensures At(src, p + MasterSize(ID_CUE_POINT, M.PayloadSize(c)), M.EncodePayload(c))
  {
    ElementSizesMatchEncodings(ID_CUE_POINT, M.PayloadSize(c), 0, [], 0);
    hide At, EncodeMaster, M.PayloadSize, M.EncodePayload, MasterSize;
    AtSplit(src, p, EncodeMaster(ID_CUE_POINT, M.PayloadSize(c)), M.EncodePayload(c));
  }

  lemma PointIs(src: seq<Byte>, p: nat, h: Header, c: M.Cue)
    requires CountAt(src, h.payload, h.payload + h.size, -(p as int), 0) == Some((c.time as int, 1))
    requires PositionsAt(src, h.payload, h.payload + h.size, []) == Some(PointFor(c).positions)
    ensures PointOf(src, Place(p, h)) == Some(PointFor(c))
  {
    hide CountAt, PositionsAt;
  }

  lemma SmallCue(c: M.Cue)
    ensures M.PositionsSize(c) <= M.PayloadSize(c) <= MAX_CODED
    ensures M.CueSize(c) == MasterSize(ID_CUE_POINT, M.PayloadSize(c)) + M.PayloadSize(c) &&
            MasterSize(ID_CUE_POINT, M.PayloadSize(c)) > 0
    ensures M.PayloadSize(c) == UIntElementSize(ID_CUE_TIME, c.time)
            + MasterSize(ID_CUE_TRACK_POSITIONS, M.PositionsSize(c)) + M.PositionsSize(c)
  {
    hide UIntElementSize;
  }

  lemma ChildIs(src: seq<Byte>, p: int, stop: int)
    ensures var h := HeaderAt(src, p, stop);
            h.Some? && stop >= 0 && h.value.payload + h.value.size <= stop ==> ChildIn(src, p, stop) == h
  {
    hide HeaderAt;
  }

  lemma Regroup(t: seq<Byte>, a: seq<Byte>, b: seq<Byte>, d: seq<Byte>)
    ensures t + a + b + d == t + (a + b + d)
  {
  }

  lemma PayloadParts(src: seq<Byte>, q: nat, c: M.Cue) returns (track: nat, fields: nat)
    requires At(src, q, M.EncodePayload(c))
    ensures track == q + |EncodeUInt(ID_CUE_TIME, c.time)| && fields + M.PositionsSize(c) == q + M.PayloadSize(c)
    ensures fields == track + MasterSize(ID_CUE_TRACK_POSITIONS, M.PositionsSize(c))
    ensures At(src, q, EncodeUInt(ID_CUE_TIME, c.time)) &&
            At(src, track, EncodeMaster(ID_CUE_TRACK_POSITIONS, M.PositionsSize(c)))
    ensures At(src, fields, EncodeUInt(ID_CUE_TRACK, c.track) + EncodeUInt(ID_CUE_CLUSTER_POSITION, c.clusterPos)
               + M.EncodeBlockNumber(c))
  {
    hide *;
    SmallCue(c);
    ElementSizesMatchEncodings(ID_CUE_TRACK_POSITIONS, M.PositionsSize(c), 0, [], 0);
    ElementSizesMatchEncodings(ID_CUE_TIME, c.time, 0, [], 0);
    PayloadIs(c);
    var t, m := EncodeUInt(ID_CUE_TIME, c.time), EncodeMaster(ID_CUE_TRACK_POSITIONS, M.PositionsSize(c));
    var a, b, d := EncodeUInt(ID_CUE_TRACK, c.track), EncodeUInt(ID_CUE_CLUSTER_POSITION, c.clusterPos),
        M.EncodeBlockNumber(c);
    var rest := a + b + d;
    Regroup(t + m, a, b, d);
    AtSplit(src, q, t + m, rest);
    AtSplit(src, q, t, m);
    track, fields := q + |t|, q + |t| + |m|;
  }

  lemma PayloadIs(c: M.Cue)
    ensures M.EncodePayload(c)
            == EncodeUInt(ID_CUE_TIME, c.time) + EncodeMaster(ID_CUE_TRACK_POSITIONS, M.PositionsSize(c))
               + EncodeUInt(ID_CUE_TRACK, c.track) + EncodeUInt(ID_CUE_CLUSTER_POSITION, c.clusterPos)
               + M.EncodeBlockNumber(c)
  {
    hide EncodeUInt, EncodeMaster, M.PositionsSize, M.EncodeBlockNumber;
  }

  lemma PayloadReadsBack(src: seq<Byte>, q: nat, stop: int, before: int, c: M.Cue)
    requires Fits(c) && At(src, q, M.EncodePayload(c)) && stop == q + M.PayloadSize(c)
    ensures CountAt(src, q, stop, before, 0) == Some((c.time as int, 1))
    ensures PositionsAt(src, q, stop, []) == Some(PointFor(c).positions)
  {
    hide At, HeaderAt, EncodeMaster, EncodeUInt, M.EncodeBlockNumber, ValidId, ChildIn, ValueAt, PositionAt,
         MasterSize, M.PositionsSize, M.PayloadSize, PointFor, M.EncodePayload;
    CueIds();
    SmallCue(c);
    var track, fields := PayloadParts(src, q, c);
    NumberReadsBack(src, q, stop, ID_CUE_TIME, c.time);
    HeaderRoundTrip(src, track, stop, ID_CUE_TRACK_POSITIONS, M.PositionsSize(c));
    ChildIs(src, track, stop);
    PositionReadsBack(src, fields, c);
    OnePosition(c);
    assert CountAt(src, track, stop, c.time, 0) == Some((c.time as int, 1));
    assert PositionsAt(src, track, stop, []) == Some([] + [PointFor(c).positions[0]]);
  }

  lemma OnePosition(c: M.Cue)
    ensures |PointFor(c).positions| == 1 && [] + [PointFor(c).positions[0]] == PointFor(c).positions
  {
  }

  lemma {:induction false} PrefixIn(src: seq<Byte>, start: nat, cues: seq<M.Cue>, i: nat)
    requires i <= |cues| && At(src, start, M.EncodeAll(cues))
    ensures At(src, start, M.EncodeAll(cues[..i])) && M.SumSizes(cues[..i]) <= M.SumSizes(cues)
    decreases |cues|
  {
    hide At, M.EncodeCue, M.CueSize;
    if i == |cues| {
      assert cues[..i] == cues;
    } else {
      var n := |cues| - 1;
      AtSplit(src, start, M.EncodeAll(cues[..n]), M.EncodeCue(cues[n]));
      PrefixIn(src, start, cues[..n], i);
      assert cues[..n][..i] == cues[..i];
    }
  }

  lemma CueInAll(src: seq<Byte>, start: nat, cues: seq<M.Cue>, i: nat)
    requires i < |cues| && At(src, start, M.EncodeAll(cues))
    ensures At(src, start + |M.EncodeAll(cues[..i])|, M.EncodeCue(cues[i]))
    ensures |M.EncodeAll(cues[..i + 1])| == |M.EncodeAll(cues[..i])| + M.CueSize(cues[i]) <= |M.EncodeAll(cues)|
  {
    hide *;
    PrefixIn(src, start, cues, i + 1);
    M.CuePrefixStep(cues, i);
    AtSplit(src, start, M.EncodeAll(cues[..i]), M.EncodeCue(cues[i]));
  }

  /** The places found are those of the cues, each of which is read as it was written. */
  ghost predicate ReadAs(src: seq<Byte>, places: seq<Place>, cues: seq<M.Cue>) {
    |places| == |cues| && forall i :: 0 <= i < |cues| ==> PointOf(src, places[i]) == Some(PointFor(cues[i]))
  }

  ghost predicate AllRead(src: seq<Byte>, start: int, stop: int, cues: seq<M.Cue>) {
    PlacesAt(src, start, stop).Some? && ReadAs(src, PlacesAt(src, start, stop).value, cues)
  }

  lemma AllReadMore(src: seq<Byte>, p: int, stop: int, h: Header, cues: seq<M.Cue>)
    requires cues != [] && p < stop && ChildIn(src, p, stop) == Some(h) && h.id == ID_CUE_POINT
    requires PointOf(src, Place(p, h)) == Some(PointFor(cues[0])) && AllRead(src, h.payload + h.size, stop, cues[1..])
    ensures AllRead(src, p, stop, cues)
  {
    hide PlacesAt, PointOf, PointFor, ChildIn;
    PlacesStep(src, p, stop);
  }

  lemma {:induction false} PlacesFrom(src: seq<Byte>, start: nat, cues: seq<M.Cue>, i: nat)
    requires i <= |cues| && At(src, start, M.EncodeAll(cues)) && forall k :: 0 <= k < |cues| ==> Fits(cues[k])
    ensures AllRead(src, start + |M.EncodeAll(cues[..i])|, start + |M.EncodeAll(cues)|, cues[i..])
    decreases |cues| - i
  {
    hide *;
    var stop := start + |M.EncodeAll(cues)|;
    if i == |cues| {
      assert cues[..i] == cues;
      NothingToRead(src, stop);
    } else {
      CueInAll(src, start, cues, i);
      var p := start + |M.EncodeAll(cues[..i])|;
      PointReadsBack(src, p, stop, cues[i]);
      PlacesFrom(src, start, cues, i + 1);
      assert cues[i..][1..] == cues[i + 1..];
      AllReadMore(src, p, stop, ChildIn(src, p, stop).value, cues[i..]);
    }
  }

  lemma NothingToRead(src: seq<Byte>, stop: int)
    ensures AllRead(src, stop, stop, [])
  {
  }

  /** Reading undoes writing: the parser finds as many cue points as the muxer has written, each with the time,
      the track, the cluster and the block it was given. */
  lemma CuesReadBack(src: seq<Byte>, p: nat, cues: seq<M.Cue>)
    requires At(src, p, M.EncodeCues(cues)) && M.SumSizes(cues) <= MAX_CODED && forall k :: 0 <= k < |cues| ==>
             Fits(cues[k])
    ensures HeaderAt(src, p, -1) == Some(Header(ID_CUES, M.SumSizes(cues), p + MasterSize(ID_CUES, M.SumSizes(cues))))
    ensures AllRead(src, p + MasterSize(ID_CUES, M.SumSizes(cues)), p + M.CuesSize(cues), cues)
  {
    CueIds();
    NoCues(cues);
    hide *;
    var start := CuesParts(src, p, cues);
    HeaderRoundTrip(src, p, -1, ID_CUES, M.SumSizes(cues));
    PlacesFrom(src, start, cues, 0);
  }

  lemma CuesParts(src: seq<Byte>, p: nat, cues: seq<M.Cue>) returns (start: nat)
    requires At(src, p, M.EncodeCues(cues))
    ensures start == p + MasterSize(ID_CUES, M.SumSizes(cues)) && start + |M.EncodeAll(cues)| == p + M.CuesSize(cues)
    ensures At(src, p, EncodeMaster(ID_CUES, M.SumSizes(cues))) && At(src, start, M.EncodeAll(cues))
  {
    hide *;
    HeaderLength(M.SumSizes(cues));
    CuesAre(cues);
    start := p + MasterSize(ID_CUES, M.SumSizes(cues));
    AtSplit(src, p, EncodeMaster(ID_CUES, M.SumSizes(cues)), M.EncodeAll(cues));
  }

  lemma CuesAre(cues: seq<M.Cue>)
    ensures M.CuesSize(cues) == M.SumSizes(cues) + MasterSize(ID_CUES, M.SumSizes(cues))
    ensures M.EncodeCues(cues) == EncodeMaster(ID_CUES, M.SumSizes(cues)) + M.EncodeAll(cues)
    ensures |M.EncodeAll(cues)| == M.SumSizes(cues)
  {
    hide M.SumSizes, MasterSize, EncodeMaster, M.EncodeAll;
  }

  lemma HeaderLength(sum: nat)
    ensures |EncodeMaster(ID_CUES, sum)| == MasterSize(ID_CUES, sum)
  {
    ElementSizesMatchEncodings(ID_CUES, sum, 0, [], 0);
  }

  lemma NoCues(cues: seq<M.Cue>)
    ensures cues[0..] == cues && cues[..0] == [] && |M.EncodeAll(cues[..0])| == 0
  {
  }

  // ----- elements of any kind among those that count

  lemma ChildOver(src: seq<Byte>, p: nat, stop: int, e: Element)
    requires At(src, p, EncodeElement(e.id, e.body)) && Coded(e) && p + LengthOf(e) <= stop
    ensures p < p + LengthOf(e) <= |src|
    ensures var h := Header(e.id, |e.body|, p + MasterSize(e.id, |e.body|));
            ChildIn(src, p, stop) == Some(h) && h.payload + h.size == p + LengthOf(e) && At(src, h.payload, e.body)
  {
    hide At, EncodeMaster, HeaderAt, ValidId, MasterSize;
    ElementSizesMatchEncodings(e.id, 0, 0, e.body, 0);
    AtSplit(src, p, EncodeMaster(e.id, |e.body|), e.body);
    MasterLength(e);
    HeaderRoundTrip(src, p, stop, e.id, |e.body|);
    Placed(src, p + MasterSize(e.id, |e.body|), e.body);
  }

  lemma FieldOver(src: seq<Byte>, p: nat, stop: int, e: Element, q: Position)
    requires At(src, p, EncodeElement(e.id, e.body)) && Coded(e) && p + LengthOf(e) <= stop
    requires e.id in {0xF7, 0xF1, 0x5378} ==> IsNumber(e)
    ensures var next := Position(if e.id == 0xF7 then FromBigEndian(e.body) else q.track,
                                 if e.id == 0xF1 then FromBigEndian(e.body) else q.pos,
                                 if e.id == 0x5378 then FromBigEndian(e.body) else q.block);
            FieldsAt(src, p, stop, q) == FieldsAt(src, p + LengthOf(e), stop, next)
  {
    hide At, EncodeElement, ChildIn, ValueAt, Coded, MasterSize, FromBigEndian, LengthOf, IsNumber, HeaderAt;
    ChildOver(src, p, stop, e);
    if IsNumber(e) { NumberIs(src, ChildIn(src, p, stop).value, e); }
  }

  /** The fields of a position stand in any order, others among them, and of each kind the last counts. */
  lemma {:induction false} FieldsAmong(src: seq<Byte>, p: nat, stop: int, parts: seq<Element>, before: Position)
      returns (q: Position)
    requires At(src, p, ElementBytes(parts)) && stop == p + |ElementBytes(parts)|
    requires forall i :: 0 <= i < |parts| ==>
               Coded(parts[i]) && (parts[i].id in {0xF7, 0xF1, 0x5378} ==> IsNumber(parts[i]))
    ensures FieldsAt(src, p, stop, before) == Some(q)
    ensures LastNumber(parts, 0xF7, before.track, q.track) && LastNumber(parts, 0xF1, before.pos, q.pos)
    ensures LastNumber(parts, 0x5378, before.block, q.block)
    decreases |parts|
  {
    hide At, FieldsAt, ElementBytes, EncodeElement, IsNumber, Coded, FromBigEndian, LengthOf;
    FirstElement(parts);
    if |parts| == 0 {
      FieldsEnd(src, stop, before);
      q := before;
    } else {
      var e := parts[0];
      AtSplit(src, p, EncodeElement(e.id, e.body), ElementBytes(parts[1..]));
      FieldOver(src, p, stop, e, before);
      hide LastNumber;
      q := FieldsAmong(src, p + LengthOf(e), stop, parts[1..],
                       Position(if e.id == 0xF7 then FromBigEndian(e.body) else before.track,
                                if e.id == 0xF1 then FromBigEndian(e.body) else before.pos,
                                if e.id == 0x5378 then FromBigEndian(e.body) else before.block));
      LastNumberFirst(parts, 0xF7, before.track, q.track);
      LastNumberFirst(parts, 0xF1, before.pos, q.pos);
      LastNumberFirst(parts, 0x5378, before.block, q.block);
    }
  }

  /** A position has the last track, the last cluster and the last block number there are; without a number it means the
      first block, and without a track or a cluster it cannot be used. */
  lemma PositionAmong(src: seq<Byte>, p: nat, parts: seq<Element>) returns (q: Position)
    requires At(src, p, ElementBytes(parts))
    requires forall i :: 0 <= i < |parts| ==>
               Coded(parts[i]) && (parts[i].id in {0xF7, 0xF1, 0x5378} ==> IsNumber(parts[i]))
    ensures LastNumber(parts, 0xF7, -1, q.track) && LastNumber(parts, 0xF1, -1, q.pos)
    ensures LastNumber(parts, 0x5378, 1, q.block)
    ensures PositionAt(src, p, |ElementBytes(parts)|) == if q.track > 0 && q.pos >= 0 then Some(q) else None
  {
    hide At, FieldsAt, ElementBytes, IsNumber, Coded, LastNumber;
    q := FieldsAmong(src, p, p + |ElementBytes(parts)|, parts, Position(-1, -1, 1));
  }

  /** The track positions among the children of a cue point. */
  function PositionsIn(parts: seq<Element>, p: nat): seq<Header> {
    if |parts| == 0 then []
    else
      var e := parts[0];
      (if e.id == 0xB7 then [Header(e.id, |e.body|, p + MasterSize(e.id, |e.body|))] else [])
          + PositionsIn(parts[1..], p + LengthOf(e))
  }

  lemma PositionsFirst(parts: seq<Element>, p: nat)
    ensures parts == [] ==> PositionsIn(parts, p) == []
    ensures parts != [] ==>
              var e, rest := parts[0], PositionsIn(parts[1..], p + LengthOf(parts[0]));
              PositionsIn(parts, p)
              == if e.id == 0xB7 then [Header(e.id, |e.body|, p + MasterSize(e.id, |e.body|))] + rest else rest
  {
  }

  lemma {:induction false} CountAmong(src: seq<Byte>, p: nat, stop: int, parts: seq<Element>, time: int, count: nat)
      returns (t: int)
    requires At(src, p, ElementBytes(parts)) && stop == p + |ElementBytes(parts)|
    requires forall i :: 0 <= i < |parts| ==> Coded(parts[i]) && (parts[i].id == 0xB3 ==> IsNumber(parts[i]))
    ensures CountAt(src, p, stop, time, count) == Some((t, count + |PositionsIn(parts, p)|))
    ensures LastNumber(parts, 0xB3, time, t)
    decreases |parts|
  {
    hide At, CountAt, ElementBytes, EncodeElement, IsNumber, Coded, FromBigEndian, LengthOf, PositionsIn;
    FirstElement(parts);
    PositionsFirst(parts, p);
    if |parts| == 0 {
      CountEnd(src, stop, time, count);
      t := time;
    } else {
      var e := parts[0];
      AtSplit(src, p, EncodeElement(e.id, e.body), ElementBytes(parts[1..]));
      CountOver(src, p, stop, e, time, count);
      hide LastNumber;
      t := CountAmong(src, p + LengthOf(e), stop, parts[1..], if e.id == 0xB3 then FromBigEndian(e.body) else time,
                      if e.id == 0xB7 then count + 1 else count);
      LastNumberFirst(parts, 0xB3, time, t);
    }
  }

  lemma CountEnd(src: seq<Byte>, stop: int, time: int, count: nat)
    ensures CountAt(src, stop, stop, time, count) == Some((time, count))
  {
  }

  lemma CountOver(src: seq<Byte>, p: nat, stop: int, e: Element, time: int, count: nat)
    requires At(src, p, EncodeElement(e.id, e.body)) && Coded(e) && p + LengthOf(e) <= stop
    requires e.id == 0xB3 ==> IsNumber(e)
    ensures CountAt(src, p, stop, time, count)
            == CountAt(src, p + LengthOf(e), stop, if e.id == 0xB3 then FromBigEndian(e.body) else time,
                       if e.id == 0xB7 then count + 1 else count)
  {
    hide At, EncodeElement, ChildIn, ValueAt, Coded, MasterSize, FromBigEndian, LengthOf, IsNumber, HeaderAt;
    ChildOver(src, p, stop, e);
    if IsNumber(e) { NumberIs(src, ChildIn(src, p, stop).value, e); }
  }

  function PositionsOf(src: seq<Byte>, hs: seq<Header>): (ps: seq<Position>)
    requires forall h :: h in hs ==> PositionAt(src, h.payload, h.size).Some?
    ensures |ps| == |hs| && forall i :: 0 <= i < |hs| ==> ps[i] == PositionAt(src, hs[i].payload, hs[i].size).value
  {
    seq(|hs|, i requires 0 <= i < |hs| => PositionAt(src, hs[i].payload, hs[i].size).value)
  }

  lemma {:induction false} PositionsAmong(src: seq<Byte>, p: nat, stop: int, parts: seq<Element>, before: seq<Position>)
    requires At(src, p, ElementBytes(parts)) && stop == p + |ElementBytes(parts)|
    requires forall i :: 0 <= i < |parts| ==> Coded(parts[i])
    requires forall h :: h in PositionsIn(parts, p) ==> PositionAt(src, h.payload, h.size).Some?
    ensures PositionsAt(src, p, stop, before) == Some(before + PositionsOf(src, PositionsIn(parts, p)))
    decreases |parts|
  {
    hide At, PositionsAt, ElementBytes, EncodeElement, Coded, LengthOf, PositionsIn, PositionAt;
    FirstElement(parts);
    PositionsFirst(parts, p);
    var hs := PositionsIn(parts, p);
    if |parts| == 0 {
      PositionsEnd(src, stop, before);
      assert before + PositionsOf(src, hs) == before;
    } else {
      var e, next := parts[0], p + LengthOf(parts[0]);
      var rest := PositionsIn(parts[1..], next);
      AtSplit(src, p, EncodeElement(e.id, e.body), ElementBytes(parts[1..]));
      assert forall h :: h in rest ==> h in hs;
      if e.id == 0xB7 { assert hs[0] in hs; }
      PositionsOver(src, p, stop, e, before);
      var more := if e.id == 0xB7 then before + [PositionAt(src, hs[0].payload, hs[0].size).value] else before;
      PositionsAmong(src, next, stop, parts[1..], more);
      assert more + PositionsOf(src, rest) == before + PositionsOf(src, hs);
    }
  }

  lemma PositionsEnd(src: seq<Byte>, stop: int, before: seq<Position>)
    ensures PositionsAt(src, stop, stop, before) == Some(before)
  {
  }

  lemma PositionsOver(src: seq<Byte>, p: nat, stop: int, e: Element, before: seq<Position>)
    requires At(src, p, EncodeElement(e.id, e.body)) && Coded(e) && p + LengthOf(e) <= stop
    requires e.id == 0xB7 ==> PositionAt(src, p + MasterSize(e.id, |e.body|), |e.body|).Some?
    ensures PositionsAt(src, p, stop, before)
            == PositionsAt(src, p + LengthOf(e), stop,
                           if e.id == 0xB7 then
                               before + [PositionAt(src, p + MasterSize(e.id, |e.body|), |e.body|).value]
                           else before)
  {
    hide *;
    ChildOver(src, p, stop, e);
    if e.id == 0xB7 {
      PositionTaken(src, p, stop, ChildIn(src, p, stop).value, before);
    } else {
      PositionPassed(src, p, stop, ChildIn(src, p, stop).value, before);
    }
  }

  lemma PositionTaken(src: seq<Byte>, p: int, stop: int, h: Header, before: seq<Position>)
    requires p < stop && ChildIn(src, p, stop) == Some(h) && h.id == 0xB7
    requires PositionAt(src, h.payload, h.size).Some?
    ensures PositionsAt(src, p, stop, before)
            == PositionsAt(src, h.payload + h.size, stop, before + [PositionAt(src, h.payload, h.size).value])
  {
    hide ChildIn, PositionAt, HeaderAt;
  }

  lemma PositionPassed(src: seq<Byte>, p: int, stop: int, h: Header, before: seq<Position>)
    requires p < stop && ChildIn(src, p, stop) == Some(h) && h.id != 0xB7
    ensures PositionsAt(src, p, stop, before) == PositionsAt(src, h.payload + h.size, stop, before)
  {
    hide ChildIn, PositionAt, HeaderAt;
  }

  /** A cue point with any number of track positions, in any order with its time and with other elements: it has the
      last
      time and all the positions, and without a time or a position it is not read. */
  lemma PointAmong(src: seq<Byte>, at: nat, id: int, p: nat, parts: seq<Element>) returns (time: int)
    requires At(src, p, ElementBytes(parts)) && at > 0
    requires forall i :: 0 <= i < |parts| ==> Coded(parts[i]) && (parts[i].id == 0xB3 ==> IsNumber(parts[i]))
    requires forall h :: h in PositionsIn(parts, p) ==> PositionAt(src, h.payload, h.size).Some?
    ensures LastNumber(parts, 0xB3, -(at as int), time)
    ensures var positions := PositionsOf(src, PositionsIn(parts, p));
            PointOf(src, Place(at, Header(id, |ElementBytes(parts)|, p)))
            == if time < 0 || positions == [] then None else Some(Point(time, positions))
  {
    hide At, CountAt, PositionsAt, ElementBytes, IsNumber, Coded, LastNumber, PositionsIn, PositionAt;
    time := CountAmong(src, p, p + |ElementBytes(parts)|, parts, -(at as int), 0);
    PositionsAmong(src, p, p + |ElementBytes(parts)|, parts, []);
    var positions := PositionsOf(src, PositionsIn(parts, p));
    assert [] + positions == positions;
  }

  /** The places of the cue points among other elements. */
  function PlacesIn(parts: seq<Element>, p: nat): seq<Place> {
    if |parts| == 0 then []
    else
      var e := parts[0];
      (if e.id == 0xBB then [Place(p, Header(e.id, |e.body|, p + MasterSize(e.id, |e.body|)))] else [])
          + PlacesIn(parts[1..], p + LengthOf(e))
  }

  lemma PlacesFirst(parts: seq<Element>, p: nat)
    ensures parts == [] ==> PlacesIn(parts, p) == []
    ensures parts != [] ==>
              var e, rest := parts[0], PlacesIn(parts[1..], p + LengthOf(parts[0]));
              PlacesIn(parts, p)
              == if e.id == 0xBB then [Place(p, Header(e.id, |e.body|, p + MasterSize(e.id, |e.body|)))] + rest
                 else rest
  {
  }

  lemma CuePointId(e: Element)
    ensures e.id == ID_CUE_POINT <==> e.id == 0xBB
  {
  }

  /** Of the elements in the Cues exactly the cue points are found, in order. */
  lemma {:induction false} PlacesAmong(src: seq<Byte>, p: nat, stop: int, parts: seq<Element>)
    requires At(src, p, ElementBytes(parts)) && stop == p + |ElementBytes(parts)|
    requires forall i :: 0 <= i < |parts| ==> Coded(parts[i])
    ensures PlacesAt(src, p, stop) == Some(PlacesIn(parts, p))
    decreases |parts|
  {
    hide *;
    FirstElement(parts);
    PlacesFirst(parts, p);
    if |parts| == 0 {
      PlacesEnd(src, stop, stop);
    } else {
      var e := parts[0];
      AtSplit(src, p, EncodeElement(e.id, e.body), ElementBytes(parts[1..]));
      ChildOver(src, p, stop, e);
      PlacesStep(src, p, stop);
      PlacesAmong(src, p + LengthOf(e), stop, parts[1..]);
      CuePointId(e);
    }
  }
}
