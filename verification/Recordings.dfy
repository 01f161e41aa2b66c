/** Which recordings a sound writer completes: those that leave no gap longer than a cluster reaches, and examples of
    good frames that the muxer refuses. */
module Recordings {
  import opened EbmlReader
  import opened Blocks
  import opened Clusters
  import opened Planning
  import M = SegmentMux

  // ----- smooth recordings

  /** A frame that may be recorded: of a known track, with all it must have, but for a reference that it is given
      unless it waits. */
  predicate Usable(f: MuxFrame, s: Settings) {
    && InRange(f) && f.track in s.tracks && 0 < f.track <= MAX_TRACK_NUMBER && f.payload != []
    && (f.additional.Some? ==> f.additional.value != [])
    && (Queues(f.track, s) ==> IsValid(f))
  }

  /** Frames in the order of time, none more than 0x7FFF after the one before it, of which the `v`-th is the first
      that does not wait, not more than 0x7FFF after the very first. */
  predicate Smooth(input: seq<MuxFrame>, v: nat, s: Settings)
    requires s.style.scale > 0
  {
    && v < |input| < 0x40_0000
    && (forall i :: 0 <= i < |input| ==> Usable(input[i], s))
    && (forall i, j :: 0 <= i <= j < |input| ==> input[i].timestamp <= input[j].timestamp)
    && (forall i :: 0 < i < |input| ==> Tick(input[i], s) - Tick(input[i - 1], s) <= MAX_BLOCK_TIMECODE)
    && (forall i :: 0 <= i < v ==> Queues(input[i].track, s)) && !Queues(input[v].track, s)
    && Tick(input[v], s) - Tick(input[0], s) <= MAX_BLOCK_TIMECODE
  }

  /** Queued frames are usable and in the order of time. */
  predicate Waiting(queue: seq<MuxFrame>, s: Settings) {
    && (forall i :: 0 <= i < |queue| ==> Usable(queue[i], s) && IsValid(queue[i]))
    && forall i, j :: 0 <= i <= j < |queue| ==> queue[i].timestamp <= queue[j].timestamp
  }

  lemma TickOrder(a: MuxFrame, b: MuxFrame, s: Settings)
    requires s.style.scale > 0 && a.timestamp <= b.timestamp
    ensures Tick(a, s) <= Tick(b, s)
  {
    if Tick(a, s) > Tick(b, s) { Monotone(Tick(b, s) + 1, Tick(a, s), s.style.scale); }
  }

  /** What holds of the plan after the first `i` frames. */
  ghost predicate OnTrack(p: Plan, input: seq<MuxFrame>, i: nat, v: nat, s: Settings)
    requires s.style.scale > 0 && v < |input|
  {
    && i <= |input| && !p.force && (i == 0 ==> p.last == 0) && (i > 0 ==> p.last <= input[i - 1].timestamp)
    && Waiting(p.queue, s) && (p.queue != [] ==> i > 0 && p.queue[|p.queue| - 1] == input[i - 1])
    && if i <= v then p.open.None? && p.queue == input[..i]
       else p.open.Some? && Going(p.open.value, p.queue, input[i - 1], i, s)
  }

  /** The last cluster has blocks, can reach what is queued, and is not too large. */
  ghost predicate Going(g: Group, queue: seq<MuxFrame>, last: MuxFrame, i: nat, s: Settings)
    requires s.style.scale > 0
  {
    && g.frames != [] && AllInReach(g.frames, g.timecode, s.style.scale) && AllInReach(queue, g.timecode, s.style.scale)
    && AllSmall(g.frames) && |g.frames| + |queue| <= i && g.timecode <= Tick(last, s)
  }

  lemma ReachBoth(a: seq<MuxFrame>, b: seq<MuxFrame>, timecode: nat, scale: nat)
    requires scale > 0 && AllInReach(a, timecode, scale) && AllInReach(b, timecode, scale)
    ensures AllInReach(a + b, timecode, scale)
  {
    hide InReach;
  }

  lemma SmallBoth(a: seq<MuxFrame>, b: seq<MuxFrame>, s: Settings)
    requires AllSmall(a) && Waiting(b, s)
    ensures AllSmall(a + b)
  {
    hide IsValid;
  }

  /** When the whole queue is early, all of it but the last frame goes to the last cluster. */
  lemma AllEarly(queue: seq<MuxFrame>, time: nat, s: Settings)
    requires queue != [] && Waiting(queue, s) && queue[|queue| - 1].timestamp <= time
    ensures Early(queue, time) == |queue| - 1
  {
    hide Usable, IsValid;
    EarlyUnique(queue, time, |queue| - 1);
  }

  lemma NowValid(f: MuxFrame, lastOf: map<nat, nat>, s: Settings)
    requires Usable(f, s)
    ensures var g := Referenced(f, lastOf);
            IsValid(g) && Fits32(g) && g.timestamp == f.timestamp && g.track == f.track
  {
  }

  /** A cluster that is going can be completed with the first part of the queue. */
  lemma GoingSealable(g: Group, queue: seq<MuxFrame>, n: nat, last: MuxFrame, i: nat, s: Settings)
    requires s.style.scale > 0 && Going(g, queue, last, i, s) && Waiting(queue, s) && n <= |queue| && i < 0x40_0000
    ensures Sealable(Grown(g, queue[..n]), s.style)
  {
    hide IsValid, Fits32, ClusterBody, InReach, Usable;
    assert Waiting(queue[..n], s) && AllInReach(queue[..n], g.timecode, s.style.scale);
    ReachBoth(g.frames, queue[..n], g.timecode, s.style.scale);
    SmallBoth(g.frames, queue[..n], s);
    SmallBody(g.frames + queue[..n], g.timecode, s.style.fixedSize, s.style.scale);
  }

  /** What is written behind the queue keeps the cluster going. */
  lemma GoesOn(g: Group, queue: seq<MuxFrame>, f: MuxFrame, i: nat, s: Settings)
    requires s.style.scale > 0 && AllInReach(g.frames, g.timecode, s.style.scale) && AllSmall(g.frames)
    requires Waiting(queue, s) && AllInReach(queue, g.timecode, s.style.scale)
    requires InReach(f, g.timecode, s.style.scale) && Fits32(f) && |g.frames| + |queue| <= i
    ensures Going(Grown(Grown(g, queue), [f]), [], f, i + 1, s)
  {
    hide IsValid, Fits32, Usable;
    ReachBoth(g.frames, queue, g.timecode, s.style.scale);
    ReachBoth(g.frames + queue, [f], g.timecode, s.style.scale);
    SmallBoth(g.frames, queue, s);
  }

  lemma WaitStep(p: Plan, input: seq<MuxFrame>, i: nat, v: nat, s: Settings)
    requires s.style.scale > 0 && Smooth(input, v, s) && i < |input| && OnTrack(p, input, i, v, s) &&
             Waits(p, input[i], s)
    ensures Takes(p, input[i], s) && OnTrack(After(p, input[i], s), input, i + 1, v, s)
  {
    hide InRange, ClusterBody;
    var f := input[i];
    TakenLater(p, f, s);
    assert f.timestamp >= p.last && i != v;
    var more := p.queue + [f];
    assert Waiting(more, s) by {
      if p.queue != [] { assert input[i - 1].timestamp <= f.timestamp; }
      forall k | 0 <= k < |more| ensures more[k].timestamp <= f.timestamp && Usable(more[k], s) && IsValid(more[k]) { }
    }
    if i < v {
      assert input[..i + 1] == input[..i] + [f];
    } else {
      TickOrder(input[i - 1], f, s);
      ReachBoth(p.queue, [f], p.open.value.timecode, s.style.scale);
    }
  }

  /** Where a frame that does not wait goes: a cluster that can take what is left of the queue, and the frame. */
  ghost predicate Goes(p: Plan, f: MuxFrame, s: Settings, g: Group, rest: seq<MuxFrame>, i: nat)
    requires s.style.scale > 0
  {
    && CanPrepare(p, f.track, f.timestamp, f.key, s)
    && (var q := Prepared(p, f, s); q.open == Some(Grown(g, rest)) && q.queue == [])
    && AllInReach(g.frames, g.timecode, s.style.scale) && AllSmall(g.frames) && Waiting(rest, s)
    && AllInReach(rest, g.timecode, s.style.scale) && |g.frames| + |rest| <= i
    && 0 <= Tick(f, s) - g.timecode <= MAX_BLOCK_TIMECODE
  }

  /** The first cluster begins with all that is queued. */
  lemma GoesFirst(p: Plan, input: seq<MuxFrame>, v: nat, s: Settings)
    requires s.style.scale > 0 && Smooth(input, v, s) && OnTrack(p, input, v, v, s)
    ensures Goes(p, input[v], s, Group([], TimecodeFor(p.queue, input[v].timestamp, s.style.scale)), p.queue, v)
  {
    hide ClusterBody, IsValid, Fits32, InRange, LastAfter, LastOfAfter;
    var f := input[v];
    NothingEarly(p.(force := false), f.timestamp, s);
    var tc := TimecodeFor(p.queue, f.timestamp, s.style.scale);
    TickOrder(input[0], f, s);
    forall k | 0 <= k < |p.queue| ensures InReach(p.queue[k], tc, s.style.scale) {
      TickOrder(input[0], input[k], s);
      TickOrder(input[k], f, s);
      assert p.queue[k] == input[k];
    }
    assert p.queue[0..] == p.queue;
  }

  /** A new cluster begins with the last frame that is queued. */
  lemma GoesNew(p: Plan, input: seq<MuxFrame>, i: nat, v: nat, s: Settings)
    requires s.style.scale > 0 && Smooth(input, v, s) && v < i < |input| && OnTrack(p, input, i, v, s)
    requires Due(p, input[i].track, input[i].timestamp, input[i].key, s)
    ensures var rest := p.queue[Moves(p, input[i].timestamp)..];
            Goes(p, input[i], s, Group([], TimecodeFor(rest, input[i].timestamp, s.style.scale)), rest, i)
  {
    hide ClusterBody, IsValid, Fits32, InRange, LastAfter, LastOfAfter, Early, Due, Sealable, Usable;
    var f := input[i];
    var n := Moves(p, f.timestamp);
    GoingSealable(p.open.value, p.queue, n, input[i - 1], i, s);
    TickOrder(input[i - 1], f, s);
    if p.queue != [] {
      AllEarly(p.queue, f.timestamp, s);
      assert p.queue[n..] == [input[i - 1]];
    } else {
      assert p.queue[n..] == [];
    }
    NotForced(p, f.track, f.timestamp, f.key, s);
  }

  /** Or it goes to the last cluster, behind the queue. */
  lemma GoesBehind(p: Plan, input: seq<MuxFrame>, i: nat, v: nat, s: Settings)
    requires s.style.scale > 0 && Smooth(input, v, s) && v < i < |input| && OnTrack(p, input, i, v, s)
    requires !Due(p, input[i].track, input[i].timestamp, input[i].key, s)
    ensures Goes(p, input[i], s, p.open.value, p.queue, i)
  {
    hide ClusterBody, IsValid, Fits32, InRange, LastAfter, LastOfAfter, Payload, Usable;
  }

  lemma WriteStep(p: Plan, input: seq<MuxFrame>, i: nat, v: nat, s: Settings)
    requires s.style.scale > 0 && Smooth(input, v, s) && i < |input| && OnTrack(p, input, i, v, s) &&
             !Waits(p, input[i], s)
    ensures Takes(p, input[i], s) && OnTrack(After(p, input[i], s), input, i + 1, v, s)
  {
    hide ClusterBody, IsValid, Fits32, InRange, LastAfter, LastOfAfter, Due, CanPrepare, Prepared, Moves, Early,
         Referenced;
    var f := input[i];
    assert i >= v && p.last <= f.timestamp by { if i > 0 { assert input[i - 1].timestamp <= f.timestamp; } }
    var g, rest;
    if i == v {
      g, rest := Group([], TimecodeFor(p.queue, f.timestamp, s.style.scale)), p.queue;
      GoesFirst(p, input, v, s);
    } else if Due(p, f.track, f.timestamp, f.key, s) {
      rest := p.queue[Moves(p, f.timestamp)..];
      g := Group([], TimecodeFor(rest, f.timestamp, s.style.scale));
      GoesNew(p, input, i, v, s);
    } else {
      g, rest := p.open.value, p.queue;
      GoesBehind(p, input, i, v, s);
    }
    var q := Prepared(p, f, s);
    NowValid(f, q.lastOf, s);
    GoesOn(g, rest, Referenced(f, q.lastOf), i, s);
    TickOrder(f, f, s);
  }

  /** Every smooth recording is let pass, frame by frame. */
  lemma {:induction false} SmoothTaken(input: seq<MuxFrame>, i: nat, v: nat, s: Settings)
    requires s.style.scale > 0 && Smooth(input, v, s) && i <= |input|
    ensures TakesAll(EMPTY, input[..i], s) && OnTrack(RunOf(EMPTY, input[..i], s), input, i, v, s)
  {
    hide Smooth, Takes, After, OnTrack, Waits;
    if i == 0 {
      NothingYet(input, v, s);
    } else {
      SmoothTaken(input, i - 1, v, s);
      var p := RunOf(EMPTY, input[..i - 1], s);
      NextTaken(EMPTY, input, i - 1, s);
      if Waits(p, input[i - 1], s) { WaitStep(p, input, i - 1, v, s); } else { WriteStep(p, input, i - 1, v, s); }
    }
  }

  lemma NothingYet(input: seq<MuxFrame>, v: nat, s: Settings)
    requires s.style.scale > 0 && Smooth(input, v, s)
    ensures TakesAll(EMPTY, input[..0], s) && OnTrack(RunOf(EMPTY, input[..0], s), input, 0, v, s)
  {
  }

  /** And is completed. */
  lemma SmoothRecords(input: seq<MuxFrame>, v: nat, s: Settings)
    requires s.style.scale > 0 && Smooth(input, v, s)
    ensures Records(input, s)
  {
    hide TakesAll, RunOf, Sealable, Usable, InReach, AllSmall;
    SmoothTaken(input, |input|, v, s);
    assert input[..|input|] == input;
    var p := RunOf(EMPTY, input, s);
    GoingSealable(p.open.value, p.queue, |p.queue|, input[|input| - 1], |input|, s);
    assert p.queue[..|p.queue|] == p.queue;
  }

  // ----- good frames that are refused

  /** Before the first cluster only a frame within reach of the first one queued can begin it. */
  lemma FirstReach(p: Plan, f: MuxFrame, s: Settings)
    requires s.style.scale > 0 && p.open.None? && p.queue != [] && p.queue[0].timestamp <= f.timestamp &&
             !Waits(p, f, s)
    ensures Takes(p, f, s) ==> Tick(f, s) - Tick(p.queue[0], s) <= MAX_BLOCK_TIMECODE
  {
    hide ClusterBody, IsValid, LastAfter, LastOfAfter;
    NothingEarly(p.(force := false), f.timestamp, s);
    TickOrder(p.queue[0], f, s);
  }

  /** A segment with a video track of number 1 and an audio track of number 2, in milliseconds. */
  function Example(): Settings {
    Settings(Style(1000000, false, true), 0, 0, true, map[1 := Video, 2 := Audio])
  }

  function AudioAt(ms: nat): MuxFrame {
    MuxFrame([0], None, 0, 0, false, true, 2, ms * 1000000, 0, None)
  }

  function VideoAt(ms: nat): MuxFrame {
    MuxFrame([0], None, 0, 0, false, true, 1, ms * 1000000, 0, None)
  }

  /** Audio waits for the first video frame, which is refused, though valid and in time, when it comes 40 seconds
      later: the cluster that it would begin takes the timecode of the audio. */
  lemma LateVideoRefused()
    ensures Usable(AudioAt(0), Example()) && Usable(VideoAt(40000), Example())
    ensures Takes(EMPTY, AudioAt(0), Example()) &&
            !Takes(After(EMPTY, AudioAt(0), Example()), VideoAt(40000), Example())
  {
    var s := Example();
    TakenLater(EMPTY, AudioAt(0), s);
    FirstReach(After(EMPTY, AudioAt(0), s), VideoAt(40000), s);
  }

  /** When every frame waits, no cluster ever begins, and the recording cannot be completed. */
  lemma {:induction false} OnlyWaiting(input: seq<MuxFrame>, s: Settings)
    requires s.style.scale > 0 && forall i :: 0 <= i < |input| ==> Queues(input[i].track, s)
    ensures var p := RunOf(EMPTY, input, s);
            p.open.None? && p.queue == input && !p.force
    ensures input != [] ==> !Records(input, s)
  {
    hide Queues, Prepared, Written, Takes;
    if |input| > 0 { OnlyWaiting(input[..|input| - 1], s); }
  }

  function Mixed(): seq<MuxFrame> {
    [VideoAt(0), AudioAt(100), AudioAt(50), VideoAt(120)]
  }

  lemma Small(frames: seq<MuxFrame>, timecode: nat)
    requires 0 < |frames| < 5 && AllInReach(frames, timecode, 1000000) && AllSmall(frames)
    ensures Sealable(Group(frames, timecode), Example().style)
  {
    hide ClusterBody, AllInReach;
    SmallBody(frames, timecode, Example().style.fixedSize, Example().style.scale);
  }

  lemma FirstVideo()
    ensures Takes(EMPTY, VideoAt(0), Example())
    ensures After(EMPTY, VideoAt(0), Example()) == Plan([], Some(Group([VideoAt(0)], 0)), [], 0, map[1 := 0], false)
  {
    hide ClusterBody;
    var b := Begun(EMPTY, 0, Example());
    assert b == Plan([], Some(Group([], 0)), [], 0, map[], false);
    assert Grown(Group([], 0), b.queue) == Group([], 0);
    assert Grown(Group([], 0), [VideoAt(0)]) == Group([VideoAt(0)], 0);
  }

  /** The first three frames of the example: a video frame begins the first cluster, audio waits. */
  lemma MixedBegins()
    ensures var p := Plan([], Some(Group([VideoAt(0)], 0)), [AudioAt(100), AudioAt(50)], 0, map[1 := 0], false);
            TakesAll(EMPTY, Mixed()[..3], Example()) && RunOf(EMPTY, Mixed()[..3], Example()) == p
  {
    hide ClusterBody;
    var s := Example();
    var p0 := Plan([], Some(Group([VideoAt(0)], 0)), [], 0, map[1 := 0], false);
    FirstVideo();
    hide LastAfter, LastOfAfter;
    hide Prepared, CanPrepare, Written, Referenced;
    var p1 := p0.(queue := [AudioAt(100)]);
    assert Takes(p0, AudioAt(100), s) && After(p0, AudioAt(100), s) == p1;
    var p2 := p0.(queue := [AudioAt(100), AudioAt(50)]);
    assert Takes(p1, AudioAt(50), s) && After(p1, AudioAt(50), s) == p2;
    hide Takes, After;
    NextTaken(EMPTY, Mixed(), 0, s);
    NextTaken(EMPTY, Mixed(), 1, s);
    NextTaken(EMPTY, Mixed(), 2, s);
  }

  /** Then a key frame begins the second cluster, which takes the audio frame that is earlier. */
  lemma MixedBegun(p: Plan)
    requires p == Plan([], Some(Group([VideoAt(0)], 0)), [AudioAt(100), AudioAt(50)], 0, map[1 := 0], false)
    ensures CanBegin(p, 120000000, Example())
    ensures var b := Begun(p, 120000000, Example());
            b == Plan([Group([VideoAt(0), AudioAt(100)], 0)], Some(Group([], 50)), [AudioAt(50)], 100000000, b.lastOf,
                      false)
  {
    hide ClusterBody, Sealable, LastOfAfter;
    EarlyUnique(p.queue, 120000000, 1);
    assert p.queue[..1] == [AudioAt(100)] && p.queue[1..] == [AudioAt(50)];
    hide Early;
    Small([VideoAt(0), AudioAt(100)], 0);
    assert [VideoAt(0)] + [AudioAt(100)] == [VideoAt(0), AudioAt(100)];
    OneLast(0, [AudioAt(100)]);
    hide LastAfter;
  }

  lemma OneLast(last: nat, frames: seq<MuxFrame>)
    requires |frames| == 1
    ensures LastAfter(last, frames) == if frames[0].timestamp > last then frames[0].timestamp else last
  {
    assert LastAfter(last, frames[..0]) == last;
  }

  lemma MixedEnds(p: Plan)
    requires p == Plan([], Some(Group([VideoAt(0)], 0)), [AudioAt(100), AudioAt(50)], 0, map[1 := 0], false)
    ensures Takes(p, VideoAt(120), Example())
    ensures var q := After(p, VideoAt(120), Example());
            CanFinish(q, Example()) && Completed(q)
                == [Group([VideoAt(0), AudioAt(100)], 0), Group([AudioAt(50), VideoAt(120)], 50)]
  {
    hide ClusterBody, Sealable, Early, LastAfter, LastOfAfter, Begun, CanBegin;
    MixedBegun(p);
    var s := Example();
    var b := Begun(p, 120000000, s);
    assert Due(p, 1, 120000000, true, s) && CanFlush(b, s);
    assert p.(force := false) == p;
    hide Due;
    var f := Flushed(b);
    assert [] + [AudioAt(50)] == [AudioAt(50)];
    assert f.closed == b.closed && f.queue == [] && f.open == Some(Group([AudioAt(50)], 50));
    var q := Written(f, VideoAt(120));
    assert After(p, VideoAt(120), s) == q;
    assert [AudioAt(50)] + [VideoAt(120)] == [AudioAt(50), VideoAt(120)];
    Small([AudioAt(50), VideoAt(120)], 50);
    assert Grown(q.open.value, q.queue) == Group([AudioAt(50), VideoAt(120)], 50);
  }

  /** Frames that wait need not come in the order of time, and then cues on their track need not either: the first
      audio frame of the second cluster is earlier than that of the first. */
  lemma UnorderedCues()
    ensures Records(Mixed(), Example())
    ensures M.CueTimes(Completed(RunOf(EMPTY, Mixed(), Example())), 2, 1000000) == [100, 50]
  {
    hide Takes, After, CanFinish;
    MixedBegins();
    var p := RunOf(EMPTY, Mixed()[..3], Example());
    MixedEnds(p);
    NextTaken(EMPTY, Mixed(), 3, Example());
    assert Mixed()[..4] == Mixed();
    hide RunOf, TakesAll;
    TimesAre([VideoAt(0), AudioAt(100)], 0, [AudioAt(50), VideoAt(120)], 50);
  }

  lemma TimesAre(first: seq<MuxFrame>, t0: nat, second: seq<MuxFrame>, t1: nat)
    requires first == [VideoAt(0), AudioAt(100)] && second == [AudioAt(50), VideoAt(120)]
    ensures M.CueTimes([Group(first, t0), Group(second, t1)], 2, 1000000) == [100, 50]
  {
    assert M.FirstOf(first, 2) == 1 && M.FirstOf(second, 2) == 0;
    var groups := [Group(first, t0), Group(second, t1)];
    assert groups[..1][..0] == [];
    assert M.CueTimes(groups[..1], 2, 1000000) == [100];
  }
}
