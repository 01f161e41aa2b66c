/** Holding frames back and merging them by time (libwebm/mkvmuxer/mkvmuxer.cc, `Cluster::QueueOrWriteFrame`
    and `Cluster::Finalize`): what the stored frames and the written ones must be to each other. */
module HoldBack {
  import opened Bytes
  import opened EbmlReader
  import opened EbmlWriter
  import opened Blocks

  /** The frames of one track, in order. */
  function Track(frames: seq<MuxFrame>, t: nat): seq<MuxFrame> {
    if |frames| == 0 then []
    else
      var last := frames[|frames| - 1];
      Track(frames[..|frames| - 1], t) + if last.track == t then [last] else []
  }

  lemma OneMore(frames: seq<MuxFrame>, f: MuxFrame, t: nat)
    ensures Track(frames + [f], t) == Track(frames, t) + if f.track == t then [f] else []
  {
    assert (frames + [f])[..|frames|] == frames;
  }

  ghost predicate InOrder(frames: seq<MuxFrame>) {
    forall i, j :: 0 <= i < j < |frames| ==> frames[i].timestamp <= frames[j].timestamp
  }

  function Latest(frames: seq<MuxFrame>): nat {
    if |frames| == 0 then 0 else frames[|frames| - 1].timestamp
  }

  function Held(stored: map<nat, seq<MuxFrame>>, t: nat): seq<MuxFrame> {
    if t in stored then stored[t] else []
  }

  /** No frame is later than `time`. */
  ghost predicate AllBy(frames: seq<MuxFrame>, time: nat) {
    forall i :: 0 <= i < |frames| ==> frames[i].timestamp <= time
  }

  ghost predicate AllFrom(frames: seq<MuxFrame>, time: nat) {
    forall i :: 0 <= i < |frames| ==> time <= frames[i].timestamp
  }

  /** The frames of every track that came are those written and then those held, in order; frames are written
      in the order of time, and none that is held is earlier than one that is written. */
  ghost predicate Merging(came: seq<MuxFrame>, gone: seq<MuxFrame>, stored: map<nat, seq<MuxFrame>>) {
    && (forall t: nat :: Track(gone, t) + Held(stored, t) == Track(came, t))
    && (forall t :: t in stored ==> stored[t] != [])
    && InOrder(came) && InOrder(gone)
    && (forall t :: t in stored ==> AllFrom(stored[t], Latest(gone)))
  }

  /** All frames of a track are of that track and among all frames. */
  lemma {:induction false} TrackElement(frames: seq<MuxFrame>, t: nat, j: nat)
    requires j < |Track(frames, t)|
    ensures Track(frames, t)[j] in frames && Track(frames, t)[j].track == t
  {
    var n := |frames| - 1;
    if j < |Track(frames[..n], t)| { TrackElement(frames[..n], t, j); }
  }

  lemma {:induction false} TrackInOrder(frames: seq<MuxFrame>, t: nat)
    requires InOrder(frames)
    ensures InOrder(Track(frames, t))
  {
    if |frames| > 0 {
      var n := |frames| - 1;
      TrackInOrder(frames[..n], t);
      forall i | 0 <= i < |Track(frames[..n], t)| ensures Track(frames[..n], t)[i].timestamp <= frames[n].timestamp {
        TrackElement(frames[..n], t, i);
      }
    }
  }

  /** Everything that came, and so everything held or written, is by the latest time. */
  lemma HeldBy(came: seq<MuxFrame>, gone: seq<MuxFrame>, stored: map<nat, seq<MuxFrame>>, t: nat)
    requires Merging(came, gone, stored)
    ensures AllBy(Held(stored, t), Latest(came)) && InOrder(Held(stored, t))
    ensures forall j :: 0 <= j < |Held(stored, t)| ==> Held(stored, t)[j].track == t
  {
    assert InOrder(came) && Track(came, t) == Track(gone, t) + Held(stored, t);
    hide Merging;
    RestBy(came, t, Track(gone, t), Held(stored, t));
  }

  lemma RestBy(came: seq<MuxFrame>, t: nat, first: seq<MuxFrame>, rest: seq<MuxFrame>)
    requires InOrder(came) && Track(came, t) == first + rest
    ensures AllBy(rest, Latest(came)) && InOrder(rest) && forall j :: 0 <= j < |rest| ==> rest[j].track == t
  {
    TrackInOrder(came, t);
    var all := Track(came, t);
    forall j | 0 <= j < |rest| ensures rest[j] == all[|first| + j] && rest[j].timestamp <= Latest(came) &&
        rest[j].track == t {
      TrackElement(came, t, |first| + j);
    }
  }

  lemma {:induction false} InOwnTrack(frames: seq<MuxFrame>, i: nat)
    requires i < |frames|
    ensures frames[i] in Track(frames, frames[i].track)
  {
    var n := |frames| - 1;
    if i < n {
      InOwnTrack(frames[..n], i);
    } else {
      var own := Track(frames, frames[i].track);
      assert own[|own| - 1] == frames[i];
    }
  }

  lemma GoneBy(came: seq<MuxFrame>, gone: seq<MuxFrame>, stored: map<nat, seq<MuxFrame>>)
    requires Merging(came, gone, stored)
    ensures Latest(gone) <= Latest(came)
  {
    if |gone| > 0 {
      var last := gone[|gone| - 1];
      InOwnTrack(gone, |gone| - 1);
      var own := Track(gone, last.track);
      var j :| 0 <= j < |own| && own[j] == last;
      assert Track(came, last.track)[j] == last;
      TrackElement(came, last.track, j);
    }
  }

  /** The stored frames with one more behind those of its track. */
  function Joined(stored: map<nat, seq<MuxFrame>>, f: MuxFrame): (more: map<nat, seq<MuxFrame>>)
    ensures f.track in more
  {
    stored[f.track := Held(stored, f.track) + [f]]
  }

  /** A frame that is not earlier than those before arrives and is held. */
  lemma Arrives(came: seq<MuxFrame>, gone: seq<MuxFrame>, stored: map<nat, seq<MuxFrame>>, f: MuxFrame)
    requires Merging(came, gone, stored) && f.timestamp >= Latest(came)
    ensures Merging(came + [f], gone, stored[f.track := Held(stored, f.track) + [f]])
  {
    var more := stored[f.track := Held(stored, f.track) + [f]];
    GoneBy(came, gone, stored);
    StaysInOrder(came, f);
    ArrivesFrom(came, gone, stored, f);
    hide Track, InOrder, Latest, AllFrom;
    forall t: nat ensures Track(gone, t) + Held(more, t) == Track(came + [f], t) {
      ArrivesOne(came, gone, stored, f, t);
    }
  }

  lemma ArrivesFrom(came: seq<MuxFrame>, gone: seq<MuxFrame>, stored: map<nat, seq<MuxFrame>>, f: MuxFrame)
    requires Merging(came, gone, stored) && f.timestamp >= Latest(gone)
    ensures AllFrom(Held(stored, f.track) + [f], Latest(gone))
  {
    assert AllFrom(Held(stored, f.track), Latest(gone));
    hide Merging;
  }

  lemma ArrivesOne(came: seq<MuxFrame>, gone: seq<MuxFrame>, stored: map<nat, seq<MuxFrame>>, f: MuxFrame, t: nat)
    requires Track(gone, t) + Held(stored, t) == Track(came, t)
    ensures Track(gone, t) + Held(stored[f.track := Held(stored, f.track) + [f]], t) == Track(came + [f], t)
  {
    hide Track;
    OneMore(came, f, t);
    if t == f.track {
      Then(Track(gone, t), Held(stored, t), [f]);
    } else {
      NothingMore(Track(came, t));
    }
  }

  lemma StaysInOrder(frames: seq<MuxFrame>, f: MuxFrame)
    requires InOrder(frames) && f.timestamp >= Latest(frames)
    ensures InOrder(frames + [f]) && Latest(frames + [f]) == f.timestamp
  {
  }

  /** The stored frames without the first one of a track. */
  function Without(stored: map<nat, seq<MuxFrame>>, t: nat): map<nat, seq<MuxFrame>>
    requires t in stored && stored[t] != []
  {
    if |stored[t]| == 1 then stored - {t} else stored[t := stored[t][1..]]
  }

  /** No track's first frame is earlier than this one. */
  ghost predicate Earliest(stored: map<nat, seq<MuxFrame>>, time: nat) {
    forall t :: t in stored ==> stored[t] != [] && time <= stored[t][0].timestamp
  }

  /** The earliest of the first frames leaves. */
  lemma Leaves(came: seq<MuxFrame>, gone: seq<MuxFrame>, stored: map<nat, seq<MuxFrame>>, t: nat)
    requires Merging(came, gone, stored) && t in stored && Earliest(stored, stored[t][0].timestamp)
    ensures stored[t][0].track == t
    ensures Merging(came, gone + [stored[t][0]], Without(stored, t))
  {
    var f, less := stored[t][0], Without(stored, t);
    HeldBy(came, gone, stored, t);
    LeavesTrack(came, gone, stored, t);
    LeavesLater(came, gone, stored, t);
    FirstFrom(came, gone, stored, t);
    hide Track, Held, Without, AllFrom, InOrder;
    StaysInOrder(gone, f);
  }

  lemma FirstFrom(came: seq<MuxFrame>, gone: seq<MuxFrame>, stored: map<nat, seq<MuxFrame>>, t: nat)
    requires Merging(came, gone, stored) && t in stored
    ensures stored[t] != [] && Latest(gone) <= stored[t][0].timestamp
  {
    assert AllFrom(stored[t], Latest(gone));
  }

  lemma LeavesTrack(came: seq<MuxFrame>, gone: seq<MuxFrame>, stored: map<nat, seq<MuxFrame>>, t: nat)
    requires Merging(came, gone, stored) && t in stored && stored[t] != [] && stored[t][0].track == t
    ensures forall u: nat :: Track(gone + [stored[t][0]], u) + Held(Without(stored, t), u) == Track(came, u)
  {
    forall u: nat ensures Track(gone + [stored[t][0]], u) + Held(Without(stored, t), u) == Track(came, u) {
      LeavesOne(gone, stored, t, u);
    }
  }

  lemma LeavesOne(gone: seq<MuxFrame>, stored: map<nat, seq<MuxFrame>>, t: nat, u: nat)
    requires t in stored && stored[t] != [] && stored[t][0].track == t
    ensures Track(gone + [stored[t][0]], u) + Held(Without(stored, t), u) == Track(gone, u) + Held(stored, u)
  {
    hide Track;
    OneMore(gone, stored[t][0], u);
    if u == t {
      assert Held(stored, t) == [stored[t][0]] + Held(Without(stored, t), t);
      hide Held, Without;
      Then(Track(gone, t), [stored[t][0]], Held(Without(stored, t), t));
    } else {
      assert Held(Without(stored, t), u) == Held(stored, u);
      NothingMore(Track(gone, u));
    }
  }

  lemma NothingMore<T>(a: seq<T>)
    ensures a + [] == a
  {
  }

  lemma LeavesLater(came: seq<MuxFrame>, gone: seq<MuxFrame>, stored: map<nat, seq<MuxFrame>>, t: nat)
    requires Merging(came, gone, stored) && t in stored && Earliest(stored, stored[t][0].timestamp)
    ensures forall u :: u in Without(stored, t) ==>
            Without(stored, t)[u] != [] && AllFrom(Without(stored, t)[u], stored[t][0].timestamp)
  {
    var f, less := stored[t][0], Without(stored, t);
    forall u | u in less ensures less[u] != [] && AllFrom(less[u], f.timestamp) {
      HeldBy(came, gone, stored, u);
      hide Merging, InOrder;
      FromFirst(stored[u], f.timestamp);
    }
  }

  lemma FromFirst(frames: seq<MuxFrame>, time: nat)
    requires InOrder(frames) && frames != [] && time <= frames[0].timestamp
    ensures AllFrom(frames, time)
  {
  }

  // ----- the last frame of a track

  /** No later frame is of the same track. */
  ghost predicate LastOfTrack(frames: seq<MuxFrame>, i: nat)
    requires i < |frames|
  {
    forall j :: i < j < |frames| ==> frames[j].track != frames[i].track
  }

  /** The time of the last frame of a track, or 0. */
  function LastTime(frames: seq<MuxFrame>, t: nat): nat {
    Latest(Track(frames, t))
  }

  /** A frame that is given a duration: it lasts until `end`, and one that is no key frame then needs a
      reference. */
  function Closed(f: MuxFrame, end: nat, before: nat): MuxFrame {
    var g := f.(duration := ToUInt64(end - f.timestamp), durationSet := true);
    if !f.key && f.reference.None? then g.(reference := Some(before as int)) else g
  }

  /** Frame `i` as it is written when the last frame of a track is given a duration. */
  ghost function Finished(gone: seq<MuxFrame>, stored: map<nat, seq<MuxFrame>>, setLast: bool, end: nat,
                          i: nat): MuxFrame
    requires i < |gone|
  {
    if setLast && !gone[i].durationSet && gone[i].track !in stored && LastOfTrack(gone, i)
    then Closed(gone[i], end, LastTime(gone[..i], gone[i].track)) else gone[i]
  }

  ghost predicate WrittenAs(written: seq<MuxFrame>, gone: seq<MuxFrame>, stored: map<nat, seq<MuxFrame>>,
                            setLast: bool, end: nat) {
    |written| == |gone| && forall i :: 0 <= i < |gone| ==> written[i] == Finished(gone, stored, setLast, end, i)
  }

  /** While every track holds a frame back, frames are written as they came. */
  lemma WrittenPlain(gone: seq<MuxFrame>, stored: map<nat, seq<MuxFrame>>, setLast: bool, end: nat)
    requires forall i :: 0 <= i < |gone| ==> gone[i].track in stored
    ensures WrittenAs(gone, gone, stored, setLast, end)
  {
  }

  /** The frame that leaves is given a duration exactly when it is the only one its track holds. */
  lemma LeavesAs(written: seq<MuxFrame>, gone: seq<MuxFrame>, stored: map<nat, seq<MuxFrame>>, setLast: bool,
                 end: nat, t: nat)
    requires WrittenAs(written, gone, stored, setLast, end) && t in stored && stored[t] != [] && stored[t][0].track == t
    ensures var f := stored[t][0];
            var g := if setLast && |stored[t]| == 1 && !f.durationSet then Closed(f, end, LastTime(gone, t)) else f;
            WrittenAs(written + [g], gone + [f], Without(stored, t), setLast, end)
  {
    var f := stored[t][0];
    var less, more := Without(stored, t), gone + [f];
    hide Closed, LastTime;
    assert more[..|gone|] == gone;
    forall i | 0 <= i < |gone| ensures Finished(more, less, setLast, end, i)
        == Finished(gone, stored, setLast, end, i) {
      assert more[..i] == gone[..i];
      assert more[i] == gone[i] && more[|gone|] == f;
      if gone[i].track != t {
        assert gone[i].track in less <==> gone[i].track in stored;
        assert LastOfTrack(more, i) <==> LastOfTrack(gone, i);
      } else if |stored[t]| == 1 {
        assert !LastOfTrack(more, i);
      }
    }
    assert LastOfTrack(more, |gone|);
  }

  /** The last frame of a track before the `i`-th of all has this time; there is none, and the time is 0. */
  ghost predicate LatestBefore(frames: seq<MuxFrame>, i: nat, t: nat, time: int)
    requires i <= |frames|
  {
    if exists j :: 0 <= j < i && frames[j].track == t
    then exists j :: 0 <= j < i && frames[j].track == t && frames[j].timestamp == time
                     && forall k :: j < k < i ==> frames[k].track != t
    else time == 0
  }

  lemma {:induction false} LastTimeIs(frames: seq<MuxFrame>, i: nat, t: nat)
    requires i <= |frames|
    ensures LatestBefore(frames, i, t, LastTime(frames[..i], t))
  {
    if i > 0 {
      LastTimeIs(frames, i - 1, t);
      assert frames[..i] == frames[..i - 1] + [frames[i - 1]];
      LastTimeMore(frames[..i - 1], frames[i - 1], t);
    }
  }

  /** Frame `i` as it has been written: the last one of a track that has no duration lasts until `end`, if it may be
      given one, and refers to the frame of its track before it, if it has to; nothing else changes. */
  ghost predicate Ended(w: MuxFrame, gone: seq<MuxFrame>, i: nat, setLast: bool, end: nat)
    requires i < |gone|
  {
    var f := gone[i];
    if setLast && !f.durationSet && forall j :: i < j < |gone| ==> gone[j].track != f.track then
      && w.durationSet && (f.timestamp <= end < 0x1_0000_0000_0000_0000 ==> f.timestamp + w.duration == end)
      && (end < f.timestamp < 0x1_0000_0000_0000_0000 ==> f.timestamp + w.duration == end + 0x1_0000_0000_0000_0000)
      && (if f.key || f.reference.Some? then w.reference == f.reference
          else w.reference.Some? && LatestBefore(gone, i, f.track, w.reference.value))
      && w == f.(duration := w.duration, durationSet := true, reference := w.reference)
    else w == f
  }

  ghost predicate AllEnded(written: seq<MuxFrame>, gone: seq<MuxFrame>, setLast: bool, end: nat) {
    |written| == |gone| && forall i :: 0 <= i < |gone| ==> Ended(written[i], gone, i, setLast, end)
  }

  lemma DurationsEnd(written: seq<MuxFrame>, gone: seq<MuxFrame>, setLast: bool, end: nat)
    requires WrittenAs(written, gone, map[], setLast, end)
    ensures AllEnded(written, gone, setLast, end)
  {
    forall i | 0 <= i < |gone| ensures Ended(written[i], gone, i, setLast, end) {
      var f := gone[i];
      LastTimeIs(gone, i, f.track);
      assert written[i] == Finished(gone, map[], setLast, end, i);
      hide LastTime, LatestBefore;
      ClosedEnds(f, end, LastTime(gone[..i], f.track));
    }
  }

  lemma ClosedEnds(f: MuxFrame, end: nat, before: nat)
    ensures var g := Closed(f, end, before);
            && g.durationSet && (f.timestamp <= end < 0x1_0000_0000_0000_0000 ==> f.timestamp + g.duration == end)
            && (end < f.timestamp < 0x1_0000_0000_0000_0000 ==>
                  f.timestamp + g.duration == end + 0x1_0000_0000_0000_0000)
            && g == f.(duration := g.duration, durationSet := true, reference := g.reference)
            && g.reference == if f.key || f.reference.Some? then f.reference else Some(before as int)
  {
  }

  // ----- once nothing is held any more

  /** Lists with the same frames in every track have the same frames altogether. */
  lemma SameTracks(a: seq<MuxFrame>, b: seq<MuxFrame>)
    requires forall t: nat :: Track(a, t) == Track(b, t)
    ensures multiset(a) == multiset(b)
  {
    forall f: MuxFrame ensures multiset(a)[f] == multiset(b)[f] {
      CountInTrack(a, f);
      CountInTrack(b, f);
    }
  }

  lemma {:induction false} CountInTrack(frames: seq<MuxFrame>, f: MuxFrame)
    ensures multiset(frames)[f] == multiset(Track(frames, f.track))[f]
  {
    if |frames| > 0 {
      var n := |frames| - 1;
      assert frames == frames[..n] + [frames[n]];
      CountInTrack(frames[..n], f);
    }
  }

  /** When nothing is held any more, what was written is what came: the same frames, each track in order,
      altogether in the order of time. */
  lemma MergeIsPermutation(came: seq<MuxFrame>, gone: seq<MuxFrame>, stored: map<nat, seq<MuxFrame>>)
    requires Merging(came, gone, stored) && stored == map[]
    ensures multiset(gone) == multiset(came) && InOrder(gone)
    ensures forall t: nat :: Track(gone, t) == Track(came, t)
  {
    forall t: nat ensures Track(gone, t) == Track(came, t) {
      assert Held(stored, t) == [];
    }
    SameTracks(gone, came);
  }

  // ----- how many frames are held

  /** How many frames the tracks 1 to `k` hold. */
  function HeldCount(stored: map<nat, seq<MuxFrame>>, k: nat): nat {
    if k == 0 then 0 else HeldCount(stored, k - 1) + |Held(stored, k)|
  }

  lemma {:induction false} OneLess(stored: map<nat, seq<MuxFrame>>, t: nat, k: nat)
    requires t in stored && stored[t] != [] && t > 0
    ensures HeldCount(Without(stored, t), k) == HeldCount(stored, k) - if t <= k then 1 else 0
  {
    if k > 0 { OneLess(stored, t, k - 1); }
  }

  lemma LastTimeMore(frames: seq<MuxFrame>, f: MuxFrame, t: nat)
    ensures LastTime(frames + [f], t) == if f.track == t then f.timestamp else LastTime(frames, t)
  {
    OneMore(frames, f, t);
    if f.track != t { NothingMore(Track(frames, t)); }
  }

  /** No other track holds a frame earlier than `time`. */
  ghost predicate NoneBefore(stored: map<nat, seq<MuxFrame>>, t: nat, time: nat) {
    forall u :: u in stored && u != t ==> stored[u] != [] && time <= stored[u][0].timestamp
  }

  /** How many frames of a track may be written: all but the last, up to the first for which another track holds
      back an earlier frame. */
  ghost predicate MayGo(queue: seq<MuxFrame>, stored: map<nat, seq<MuxFrame>>, t: nat, n: nat) {
    && n < |queue| && (forall i :: 0 <= i < n ==> NoneBefore(stored, t, queue[i].timestamp))
    && (n + 1 < |queue| ==> !NoneBefore(stored, t, queue[n].timestamp))
  }

  /** What the track itself holds back plays no part. */
  lemma OwnListIgnored(queue: seq<MuxFrame>, stored: map<nat, seq<MuxFrame>>, own: seq<MuxFrame>, t: nat, n: nat)
    requires MayGo(queue, stored[t := own], t, n)
    ensures MayGo(queue, stored, t, n)
  {
    forall i | 0 <= i < |queue| ensures NoneBefore(stored[t := own], t, queue[i].timestamp)
        == NoneBefore(stored, t, queue[i].timestamp) {
      SameOthers(stored, own, t, queue[i].timestamp);
    }
  }

  lemma SameOthers(stored: map<nat, seq<MuxFrame>>, own: seq<MuxFrame>, t: nat, time: nat)
    ensures NoneBefore(stored[t := own], t, time) == NoneBefore(stored, t, time)
  {
    forall u | u != t ensures (u in stored[t := own] <==> u in stored) &&
        (u in stored ==> stored[t := own][u] == stored[u]) { }
  }

  lemma MayGoIs(queue: seq<MuxFrame>, stored: map<nat, seq<MuxFrame>>, t: nat, n: nat)
    requires n < |queue| && (forall i :: 0 <= i < n ==> NoneBefore(stored, t, queue[i].timestamp))
    requires n + 1 < |queue| ==> !NoneBefore(stored, t, queue[n].timestamp)
    ensures MayGo(queue, stored, t, n)
  {
    hide NoneBefore;
  }

  /** What a cluster holds back, what it has written, and the time of the last frame of every track. */
  datatype Books = Books(stored: map<nat, seq<MuxFrame>>, written: seq<MuxFrame>, lastBlock: map<nat, nat>)

  function Marks(lastBlock: map<nat, nat>, frames: seq<MuxFrame>): map<nat, nat> {
    if |frames| == 0 then lastBlock
    else
      var f := frames[|frames| - 1];
      Marks(lastBlock, frames[..|frames| - 1])[f.track := f.timestamp]
  }

  /** The first `n` frames of a track's queue are written, and the rest is held. */
  function Went(queue: seq<MuxFrame>, b: Books, t: nat, n: nat): Books
    requires n <= |queue|
  {
    Books(b.stored[t := queue[n..]], b.written + queue[..n], Marks(b.lastBlock, queue[..n]))
  }

  lemma NothingWent(queue: seq<MuxFrame>, b: Books, t: nat)
    requires t in b.stored && b.stored[t] == queue
    ensures Went(queue, b, t, 0) == b
  {
    assert queue[0..] == queue;
    assert b.stored[t := queue] == b.stored;
  }

  lemma OneWent(queue: seq<MuxFrame>, b: Books, t: nat, n: nat)
    requires n < |queue|
    ensures var before, f := Went(queue, b, t, n), queue[n];
            Went(queue, b, t, n + 1)
            == Books(before.stored[t := queue[n + 1..]], before.written + [f], before.lastBlock[f.track := f.timestamp])
  {
    assert queue[..n + 1][..n] == queue[..n];
    assert queue[..n + 1] == queue[..n] + [queue[n]];
  }

  /** A frame has been queued, and those of its track that may go have been written. */
  ghost predicate Queued(before: Books, after: Books, f: MuxFrame) {
    var queue := Held(before.stored, f.track) + [f];
    exists n: nat :: MayGo(queue, before.stored, f.track, n) && after == Went(queue, before, f.track, n)
  }

  /** What queueing a frame does: its track's frames leave from the front, none of them later than what another track
      holds, and the rest waits for a frame of another track that is earlier than the first of it, or is the new frame
      alone.  The other tracks keep theirs. */
  lemma QueuedMeans(before: Books, after: Books, f: MuxFrame)
    requires Queued(before, after, f) && forall u :: u in before.stored ==> before.stored[u] != []
    ensures before.written <= after.written && f.track in after.stored && after.stored[f.track] != []
    ensures var gone, rest := after.written[|before.written|..], after.stored[f.track];
            && gone + rest == (if f.track in before.stored then before.stored[f.track] else []) + [f]
            && (forall w, u :: w in gone && u in before.stored && u != f.track ==>
                  w.timestamp <= before.stored[u][0].timestamp)
            && (|rest| > 1 ==>
                  exists u :: u in before.stored && u != f.track
                              && before.stored[u][0].timestamp < rest[0].timestamp)
    ensures forall u :: u != f.track ==> (u in after.stored <==> u in before.stored)
    ensures forall u :: u in before.stored && u != f.track ==> after.stored[u] == before.stored[u]
  {
    hide MayGo, Went, Queued;
    var n := WentSome(before, after, f);
    var queue := Held(before.stored, f.track) + [f];
    WentIs(queue, before, f.track, n);
    assert after.written[|before.written|..] == queue[..n] && queue[..n] + queue[n..] == queue;
    MayGoMeans(queue, before.stored, f.track, n);
  }

  lemma WentSome(before: Books, after: Books, f: MuxFrame) returns (n: nat)
    requires Queued(before, after, f)
    ensures var queue := Held(before.stored, f.track) + [f];
            MayGo(queue, before.stored, f.track, n) && n < |queue| && after == Went(queue, before, f.track, n)
  {
    var queue := Held(before.stored, f.track) + [f];
    n :| MayGo(queue, before.stored, f.track, n) && after == Went(queue, before, f.track, n);
  }

  lemma WentIs(queue: seq<MuxFrame>, b: Books, t: nat, n: nat)
    requires n <= |queue|
    ensures Went(queue, b, t, n).stored == b.stored[t := queue[n..]]
    ensures Went(queue, b, t, n).written == b.written + queue[..n]
  {
  }

  lemma MayGoMeans(queue: seq<MuxFrame>, stored: map<nat, seq<MuxFrame>>, t: nat, n: nat)
    requires MayGo(queue, stored, t, n) && forall u :: u in stored ==> stored[u] != []
    ensures forall w, u :: w in queue[..n] && u in stored && u != t ==> w.timestamp <= stored[u][0].timestamp
    ensures n + 1 < |queue| ==>
              exists u :: u in stored && u != t && stored[u][0].timestamp < queue[n].timestamp
  {
    forall w, u | w in queue[..n] && u in stored && u != t ensures w.timestamp <= stored[u][0].timestamp {
      var i :| 0 <= i < n && queue[i] == w;
      assert NoneBefore(stored, t, queue[i].timestamp);
    }
  }

  /** Only one number of frames may be written. */
  lemma MayGoUnique(queue: seq<MuxFrame>, stored: map<nat, seq<MuxFrame>>, t: nat, n: nat, m: nat)
    requires MayGo(queue, stored, t, n) && MayGo(queue, stored, t, m)
    ensures n == m
  {
  }

  /** Frame `n` of a queue may leave before the rest of it when no other track has an earlier one. */
  lemma NextLeaves(came: seq<MuxFrame>, gone: seq<MuxFrame>, stored: map<nat, seq<MuxFrame>>, queue: seq<MuxFrame>,
                   n: nat, t: nat)
    requires t in stored && n < |queue| - 1 && Merging(came, gone, stored[t := queue[n..]])
    requires NoneBefore(stored, t, queue[n].timestamp)
    ensures queue[n].track == t && Merging(came, gone + [queue[n]], stored[t := queue[n + 1..]])
  {
    var now := stored[t := queue[n..]];
    hide Merging;
    Leaves(came, gone, now, t);
    assert Without(now, t) == stored[t := queue[n + 1..]];
  }
}
