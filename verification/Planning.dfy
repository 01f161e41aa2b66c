/** Which frame goes to which cluster (libwebm/mkvmuxer/mkvmuxer.cc, `AddGenericFrame` and what it calls): a plan
    of the segment that says which frames a sound writer lets pass and where they end up. */
module Planning {
  import opened Ebml
  import opened EbmlReader
  import opened Blocks
  import opened Clusters

  datatype Kind = Video | Audio | Other

  /** How clusters are written in a segment. */
  datatype Style = Style(scale: nat, fixedSize: bool, seekable: bool)

  datatype Settings = Settings(style: Style, maxDuration: nat, maxSize: nat, hasVideo: bool, tracks: map<nat, Kind>)

  /** Lengths are below 2^31 and times below 2^63. */
  predicate InRange(f: MuxFrame) {
    Fits32(f) && f.timestamp <= INT64_MAX
  }

  function Tick(f: MuxFrame, s: Settings): nat
    requires s.style.scale > 0
  {
    f.timestamp / s.style.scale
  }

  /** The same frame, except that it may have been given a reference. */
  predicate SameButReference(g: MuxFrame, f: MuxFrame) {
    g == f || (!CanBeSimpleBlock(f) && !f.key && f.reference.None? && g.reference.Some? &&
               g == f.(reference := g.reference))
  }

  /** The frames of a cluster. */
  datatype Group = Group(frames: seq<MuxFrame>, timecode: nat)

  /** The clusters that are complete, the last one, the queue, and the times that are remembered. */
  datatype Plan = Plan(closed: seq<Group>, open: Option<Group>, queue: seq<MuxFrame>, last: nat,
                       lastOf: map<nat, nat>, force: bool)

  const EMPTY: Plan := Plan([], None, [], 0, map[], false)

  /** A cluster that can be completed and read again: it has blocks, all within its reach, and a size that can be
      written. */
  ghost predicate Sealable(g: Group, style: Style)
    requires style.scale > 0
  {
    && g.frames != [] && AllInReach(g.frames, g.timecode, style.scale)
    && (style.seekable ==> |ClusterBody(g.frames, g.timecode, style.fixedSize, style.scale)| <= MAX_CODED)
  }

  function Payload(g: Group, style: Style): nat
    requires style.scale > 0
  {
    if g.frames == [] then 0 else |ClusterBody(g.frames, g.timecode, style.fixedSize, style.scale)|
  }

  // ----- the queue

  /** How many queued frames go to the cluster that is about to be completed: the longest first part, short of the
      whole queue, of which every frame's successor is not later than `time`. */
  function Early(queue: seq<MuxFrame>, time: nat): (n: nat)
    ensures queue == [] ==> n == 0
    ensures queue != [] ==> n < |queue|
    ensures forall i :: 1 <= i <= n ==> queue[i].timestamp <= time
    ensures n + 1 < |queue| ==> queue[n + 1].timestamp > time
  {
    if |queue| <= 1 then 0
    else
      var n := Early(queue[..|queue| - 1], time);
      if n == |queue| - 2 && queue[|queue| - 1].timestamp <= time then n + 1 else n
  }

  /** There is only one such number. */
  lemma EarlyUnique(queue: seq<MuxFrame>, time: nat, n: nat)
    requires n < |queue| && (forall i :: 1 <= i <= n ==> queue[i].timestamp <= time)
    requires n + 1 < |queue| ==> queue[n + 1].timestamp > time
    ensures n == Early(queue, time)
  {
  }

  /** Before the first cluster nothing can go to one. */
  function Moves(p: Plan, time: nat): (n: nat)
    ensures n <= |p.queue| && (p.queue != [] ==> n < |p.queue|)
  {
    if p.open.None? then 0 else Early(p.queue, time)
  }

  /** A frame whose successor is early is among the early ones. */
  lemma NotAllEarly(p: Plan, time: nat, n: nat)
    requires p.open.Some? && n + 1 < |p.queue| && forall i :: 1 <= i <= n + 1 ==> p.queue[i].timestamp <= time
    ensures n < Moves(p, time) && p.queue[n] == p.queue[..Moves(p, time)][n]
  {
  }

  /** The times remembered after queued frames have been written. */
  function LastAfter(last: nat, frames: seq<MuxFrame>): nat {
    if |frames| == 0 then last
    else
      var before, f := LastAfter(last, frames[..|frames| - 1]), frames[|frames| - 1];
      if f.timestamp > before then f.timestamp else before
  }

  function LastOfAfter(last: nat, lastOf: map<nat, nat>, frames: seq<MuxFrame>): map<nat, nat> {
    if |frames| == 0 then lastOf
    else
      var rest, f := frames[..|frames| - 1], frames[|frames| - 1];
      var before := LastOfAfter(last, lastOf, rest);
      if f.timestamp > LastAfter(last, rest) then before[f.track := f.timestamp] else before
  }

  lemma LastMore(last: nat, lastOf: map<nat, nat>, frames: seq<MuxFrame>, f: MuxFrame)
    ensures LastAfter(last, frames + [f]) == if f.timestamp > LastAfter(last, frames) then f.timestamp
            else LastAfter(last, frames)
    ensures LastOfAfter(last, lastOf, frames + [f]) ==
            if f.timestamp > LastAfter(last, frames) then LastOfAfter(last, lastOf, frames)[f.track := f.timestamp]
            else LastOfAfter(last, lastOf, frames)
  {
    assert (frames + [f])[..|frames|] == frames;
  }

  // ----- one frame

  /** The last cluster can reach a time, if there is one. */
  predicate Reachable(p: Plan, time: nat, s: Settings)
    requires s.style.scale > 0
  {
    p.open.None? || 0 <= time / s.style.scale - p.open.value.timecode <= MAX_BLOCK_TIMECODE
  }

  /** A frame begins a new cluster when that is asked for, when there is no cluster or none in reach, with a
      video key frame, and when the last cluster has grown too long or too large. */
  predicate Due(p: Plan, track: nat, time: nat, key: bool, s: Settings)
    requires s.style.scale > 0
  {
    || p.force || p.open.None? || !Reachable(p, time, s)
    || (key && track in s.tracks && s.tracks[track] == Video)
    || (s.maxDuration > 0 && (time / s.style.scale - p.open.value.timecode) * s.style.scale >= s.maxDuration)
    || (s.maxSize > 0 && Payload(p.open.value, s.style) >= s.maxSize)
  }

  predicate Queues(t: nat, s: Settings) {
    s.hasVideo && t in s.tracks && s.tracks[t] == Audio
  }

  /** Audio waits in the queue when there is video, unless a new cluster is needed for it. */
  predicate Waits(p: Plan, f: MuxFrame, s: Settings)
    requires s.style.scale > 0
  {
    Queues(f.track, s) && !p.force && Reachable(p, f.timestamp, s)
  }

  /** The timecode of a cluster that begins at a time: that of the first queued frame if it is earlier. */
  function TimecodeFor(queue: seq<MuxFrame>, time: nat, scale: nat): nat
    requires scale > 0
  {
    if |queue| > 0 && queue[0].timestamp / scale < time / scale then queue[0].timestamp / scale else time / scale
  }

  /** The last cluster with some more frames. */
  function Grown(g: Group, frames: seq<MuxFrame>): Group {
    Group(g.frames + frames, g.timecode)
  }

  /** A new cluster begins: the last one takes the early part of the queue, and is complete. */
  ghost predicate CanBegin(p: Plan, time: nat, s: Settings)
    requires s.style.scale > 0
  {
    p.open.Some? ==> Sealable(Grown(p.open.value, p.queue[..Moves(p, time)]), s.style)
  }

  function Begun(p: Plan, time: nat, s: Settings): Plan
    requires s.style.scale > 0
  {
    var n := Moves(p, time);
    Plan(if p.open.None? then p.closed else p.closed + [Grown(p.open.value, p.queue[..n])],
         Some(Group([], TimecodeFor(p.queue[n..], time, s.style.scale))), p.queue[n..],
         LastAfter(p.last, p.queue[..n]), LastOfAfter(p.last, p.lastOf, p.queue[..n]), p.force)
  }

  /** With no cluster nothing is written before the first one begins. */
  lemma NothingEarly(p: Plan, time: nat, s: Settings)
    requires s.style.scale > 0 && p.open.None?
    ensures CanBegin(p, time, s)
    ensures var b := Begun(p, time, s);
            b.closed == p.closed && b.queue == p.queue && b.last == p.last && b.lastOf == p.lastOf
  {
  }

  /** The whole queue is written to the last cluster. */
  ghost predicate CanFlush(p: Plan, s: Settings)
    requires s.style.scale > 0
  {
    p.queue != [] ==> p.open.Some? && AllInReach(p.queue, p.open.value.timecode, s.style.scale)
  }

  function Flushed(p: Plan): Plan {
    Plan(p.closed, if p.open.None? then None else Some(Grown(p.open.value, p.queue)), [], LastAfter(p.last, p.queue),
         LastOfAfter(p.last, p.lastOf, p.queue), p.force)
  }

  /** A frame that is no key frame and cannot be a SimpleBlock needs a reference: the time of the frame before it
      in its track. */
  function Referenced(f: MuxFrame, lastOf: map<nat, nat>): MuxFrame {
    if !CanBeSimpleBlock(f) && !f.key && f.reference.None? then
      f.(reference := Some((if f.track in lastOf then lastOf[f.track] else 0) as int))
    else f
  }

  /** What comes before a frame is written: a new cluster if one is due, and the queue. */
  function PreparedFor(p: Plan, due: bool, time: nat, s: Settings): Plan
    requires s.style.scale > 0
  {
    Flushed(if due then Begun(p.(force := false), time, s) else p.(force := false))
  }

  function Prepared(p: Plan, f: MuxFrame, s: Settings): Plan
    requires s.style.scale > 0
  {
    PreparedFor(p, Due(p, f.track, f.timestamp, f.key, s), f.timestamp, s)
  }

  ghost predicate CanPrepare(p: Plan, track: nat, time: nat, key: bool, s: Settings)
    requires s.style.scale > 0
  {
    if Due(p, track, time, key, s) then CanBegin(p, time, s) && CanFlush(Begun(p, time, s), s) else CanFlush(p, s)
  }

  /** That a cluster is asked for plays no part once it is known to be due. */
  lemma NotForced(p: Plan, track: nat, time: nat, key: bool, s: Settings)
    requires s.style.scale > 0
    ensures var q := p.(force := false);
            && Moves(q, time) == Moves(p, time) && CanBegin(q, time, s) == CanBegin(p, time, s) &&
                CanFlush(q, s) == CanFlush(p, s)
            && CanFlush(Begun(q, time, s), s) == CanFlush(Begun(p, time, s), s)
  {
  }

  /** A frame that the last cluster cannot reach is written as if a new one had been asked for. */
  lemma ForcedSame(p: Plan, f: MuxFrame, s: Settings)
    requires s.style.scale > 0
    ensures var q := p.(force := p.force || !Reachable(p, f.timestamp, s));
            && Due(q, f.track, f.timestamp, f.key, s) == Due(p, f.track, f.timestamp, f.key, s)
            && CanPrepare(q, f.track, f.timestamp, f.key, s) == CanPrepare(p, f.track, f.timestamp, f.key, s)
            && Prepared(q, f, s) == Prepared(p, f, s)
  {
    hide Payload, Sealable, Early, LastAfter, LastOfAfter, AllInReach;
  }

  /** A frame that waits begins no cluster. */
  function NewClusters(p: Plan, f: MuxFrame, s: Settings): nat
    requires s.style.scale > 0
  {
    if !Waits(p, f, s) && Due(p, f.track, f.timestamp, f.key, s) then 1 else 0
  }

  /** What the early part of the queue needs. */
  lemma EarlyReach(p: Plan, time: nat, s: Settings)
    requires s.style.scale > 0 && CanBegin(p, time, s)
    ensures p.open.Some? ==> AllInReach(p.queue[..Moves(p, time)], p.open.value.timecode, s.style.scale)
  {
    if p.open.None? { return; }
    var n := Moves(p, time);
    var all := Grown(p.open.value, p.queue[..n]).frames;
    forall i | 0 <= i < n ensures InReach(p.queue[..n][i], p.open.value.timecode, s.style.scale) {
      assert all[|p.open.value.frames| + i] == p.queue[..n][i];
    }
  }

  /** A sound writer lets a frame pass: it is not earlier than the last one written, of a known track, and waits; or
      all that has to be written before it can be, and it is within reach of the cluster it goes to. */
  ghost predicate Takes(p: Plan, f: MuxFrame, s: Settings)
    requires s.style.scale > 0
  {
    && f.timestamp >= p.last && f.track in s.tracks
    && (Waits(p, f, s) || (CanPrepare(p, f.track, f.timestamp, f.key, s) && Fits(Prepared(p, f, s), f, s)))
  }

  ghost predicate Fits(p: Plan, f: MuxFrame, s: Settings)
    requires s.style.scale > 0
  {
    p.open.Some? && InReach(Referenced(f, p.lastOf), p.open.value.timecode, s.style.scale)
  }

  /** The frame as it is accepted: its reference may be filled in. */
  function Accepted(p: Plan, f: MuxFrame, s: Settings): MuxFrame
    requires s.style.scale > 0
  {
    if Waits(p, f, s) then f else Referenced(f, Prepared(p, f, s).lastOf)
  }

  function Written(p: Plan, f: MuxFrame): Plan {
    if p.open.None? then p
    else
      var g := Referenced(f, p.lastOf);
      Plan(p.closed, Some(Grown(p.open.value, [g])), [], g.timestamp, p.lastOf[g.track := g.timestamp], false)
  }

  function After(p: Plan, f: MuxFrame, s: Settings): Plan
    requires s.style.scale > 0
  {
    if Waits(p, f, s) then p.(queue := p.queue + [f]) else Written(Prepared(p, f, s), f)
  }

  lemma PreparedIs(p: Plan, f: MuxFrame, s: Settings)
    requires s.style.scale > 0
    ensures Prepared(p, f, s) == PreparedFor(p, Due(p, f.track, f.timestamp, f.key, s), f.timestamp, s)
  {
  }

  lemma NotTaken(p: Plan, f: MuxFrame, s: Settings)
    requires s.style.scale > 0
    ensures f.timestamp < p.last || f.track !in s.tracks ==> !Takes(p, f, s)
    ensures Waits(p, f, s) <==> Queues(f.track, s) && !p.force && Reachable(p, f.timestamp, s)
  {
    hide Queues, Reachable;
  }

  /** A frame that waits is taken as it is. */
  lemma TakenLater(p: Plan, f: MuxFrame, s: Settings)
    requires s.style.scale > 0 && Waits(p, f, s) && f.timestamp >= p.last && f.track in s.tracks
    ensures Takes(p, f, s) && After(p, f, s) == p.(queue := p.queue + [f]) && Accepted(p, f, s) == f &&
            NewClusters(p, f, s) == 0
  {
  }

  /** Another one is written, as if a new cluster had been asked for when the last one cannot reach it. */
  lemma TakenNow(p: Plan, f: MuxFrame, s: Settings)
    requires s.style.scale > 0 && !Waits(p, f, s) && f.timestamp >= p.last && f.track in s.tracks
    ensures var q := p.(force := p.force || !Reachable(p, f.timestamp, s));
            && (Takes(p, f, s) <==> CanPrepare(q, f.track, f.timestamp, f.key, s) && Fits(Prepared(q, f, s), f, s))
            && After(p, f, s) == Written(Prepared(q, f, s), f)
            && Accepted(p, f, s) == Referenced(f, Prepared(q, f, s).lastOf)
            && NewClusters(p, f, s) == if Due(q, f.track, f.timestamp, f.key, s) then 1 else 0
  {
    hide Waits, Due, CanPrepare, Fits, Prepared, Written, Referenced, Reachable;
    ForcedSame(p, f, s);
  }

  // ----- a whole recording

  function RunOf(p: Plan, input: seq<MuxFrame>, s: Settings): Plan
    requires s.style.scale > 0
  {
    if |input| == 0 then p else After(RunOf(p, input[..|input| - 1], s), input[|input| - 1], s)
  }

  /** Every frame is let pass in its turn. */
  ghost predicate TakesAll(p: Plan, input: seq<MuxFrame>, s: Settings)
    requires s.style.scale > 0
  {
    |input| > 0 ==>
      TakesAll(p, input[..|input| - 1], s) && Takes(RunOf(p, input[..|input| - 1], s), input[|input| - 1], s)
  }

  lemma NextTaken(p: Plan, input: seq<MuxFrame>, i: nat, s: Settings)
    requires s.style.scale > 0 && i < |input|
    ensures RunOf(p, input[..i + 1], s) == After(RunOf(p, input[..i], s), input[i], s)
    ensures TakesAll(p, input[..i + 1], s) <==>
            TakesAll(p, input[..i], s) && Takes(RunOf(p, input[..i], s), input[i], s)
    ensures TakesAll(p, input, s) ==> TakesAll(p, input[..i + 1], s)
  {
    hide Takes, After;
    assert input[..i + 1][..i] == input[..i];
    if TakesAll(p, input, s) { FirstTaken(p, input, i + 1, s); }
  }

  /** Whether the first frames are taken does not depend on the rest. */
  lemma {:induction false} FirstTaken(p: Plan, input: seq<MuxFrame>, n: nat, s: Settings)
    requires s.style.scale > 0 && TakesAll(p, input, s) && n <= |input|
    ensures TakesAll(p, input[..n], s)
    decreases |input|
  {
    hide Takes;
    if n == |input| {
      assert input[..n] == input;
    } else {
      FirstTaken(p, input[..|input| - 1], n, s);
      assert input[..|input| - 1][..n] == input[..n];
    }
  }

  /** At the end the queue is written and the last cluster completed. */
  ghost predicate CanFinish(p: Plan, s: Settings)
    requires s.style.scale > 0
  {
    CanFlush(p, s) && (p.open.Some? ==> Sealable(Grown(p.open.value, p.queue), s.style))
  }

  function Completed(p: Plan): seq<Group> {
    if p.open.None? then p.closed else p.closed + [Grown(p.open.value, p.queue)]
  }

  ghost predicate Records(input: seq<MuxFrame>, s: Settings)
    requires s.style.scale > 0
  {
    TakesAll(EMPTY, input, s) && CanFinish(RunOf(EMPTY, input, s), s)
  }
}
