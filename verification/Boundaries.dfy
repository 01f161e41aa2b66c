/** Where clusters begin (libwebm/mkvmuxer/mkvmuxer.cc, `TestFrame`, `DoNewClusterProcessing` and `AddGenericFrame`):
    what
    the clusters of a whole recording are, told from their frames, the settings and the bytes alone. */
module Boundaries {
  import opened EbmlReader
  import opened Blocks
  import opened Bytes
  import opened Clusters
  import opened HoldBack
  import opened Planning

  // ----- what ends a cluster

  /** A frame of an audio track in a segment with video: it may have waited in the queue. */
  predicate MayWait(f: MuxFrame, s: Settings) {
    s.hasVideo && f.track in s.tracks && s.tracks[f.track] == Audio
  }

  predicate OnVideo(f: MuxFrame, s: Settings) {
    f.track in s.tracks && s.tracks[f.track] == Video
  }

  /** How many ticks after the timecode a frame is. */
  function Since(timecode: nat, f: MuxFrame, s: Settings): int
    requires s.style.scale > 0
  {
    Tick(f, s) - timecode
  }

  predicate WithinReach(timecode: nat, f: MuxFrame, s: Settings)
    requires s.style.scale > 0
  {
    0 <= Since(timecode, f, s) <= 0x7FFF
  }

  /** A cluster with this timecode and these frames takes no such frame any more: it cannot reach it, the frame is a key
      frame of a video track, or the cluster lasts too long already or has too many bytes. */
  predicate Ends(frames: seq<MuxFrame>, timecode: nat, f: MuxFrame, s: Settings)
    requires s.style.scale > 0
  {
    || !WithinReach(timecode, f, s)
    || (f.key && OnVideo(f, s))
    || (s.maxDuration > 0 && Since(timecode, f, s) * s.style.scale >= s.maxDuration)
    || (s.maxSize > 0 && |ClusterBody(frames, timecode, s.style.fixedSize, s.style.scale)| >= s.maxSize)
  }

  /** Of the frames of a cluster, `lead` is the one it was begun for, ahead of which stand frames that had waited, and
      `tail` the last one that had not waited. */
  datatype Cut = Cut(lead: nat, tail: nat)

  /** How many frames the cluster had when its frame `k` was to be written: what had waited till then comes with it. */
  function Found(frames: seq<MuxFrame>, lead: nat, k: nat, s: Settings): (n: nat)
    requires lead < k <= |frames|
    ensures lead < n <= k
  {
    if k == lead + 1 || !MayWait(frames[k - 1], s) then k else Found(frames, lead, k - 1, s)
  }

  /** One cluster: no frame that has not waited, but the one it was begun for, would have ended it. */
  predicate Lain(g: Group, c: Cut, s: Settings)
    requires s.style.scale > 0
  {
    && c.lead <= c.tail < |g.frames| && (c.lead < c.tail ==> !MayWait(g.frames[c.tail], s))
    && (forall k :: 0 <= k < |g.frames| && !(c.lead <= k <= c.tail) ==> MayWait(g.frames[k], s))
    && g.timecode == Tick(if c.lead > 0 && Tick(g.frames[0], s) < Tick(g.frames[c.lead], s) then g.frames[0]
                          else g.frames[c.lead], s)
    && forall k :: c.lead < k <= c.tail && !MayWait(g.frames[k], s) ==>
         !Ends(g.frames[..Found(g.frames, c.lead, k, s)], g.timecode, g.frames[k], s)
  }

  /** The frame that a cluster was begun for would have ended the one before; one that might have waited was out of its
      reach. */
  predicate Turned(g: Group, c: Cut, next: Group, d: Cut, s: Settings)
    requires s.style.scale > 0
  {
    && c.tail < |g.frames| && d.lead < |next.frames|
    && Ends(g.frames[..c.tail + 1], g.timecode, next.frames[d.lead], s)
    && (MayWait(next.frames[d.lead], s) ==> !WithinReach(g.timecode, next.frames[d.lead], s))
  }

  /** All clusters of a recording. */
  predicate Divided(groups: seq<Group>, cuts: seq<Cut>, s: Settings)
    requires s.style.scale > 0
  {
    && |cuts| == |groups| && (forall j :: 0 <= j < |groups| ==> Lain(groups[j], cuts[j], s))
    && (groups != [] ==> !MayWait(groups[0].frames[cuts[0].lead], s))
    && forall j :: 0 < j < |groups| ==> Turned(groups[j - 1], cuts[j - 1], groups[j], cuts[j], s)
  }

  // ----- the plan divides its frames like this

  function Whole(p: Plan): seq<Group> {
    if p.open.None? then p.closed else p.closed + [p.open.value]
  }

  /** What holds of the plan all the time. */
  ghost predicate Follows(p: Plan, cuts: seq<Cut>, s: Settings)
    requires s.style.scale > 0
  {
    && !p.force && (p.open.None? ==> p.closed == []) && Divided(Whole(p), cuts, s)
    && (p.open.Some? ==> cuts[|cuts| - 1].tail == |p.open.value.frames| - 1)
    && forall i :: 0 <= i < |p.queue| ==> MayWait(p.queue[i], s)
  }

  /** More frames that have waited change nothing. */
  lemma GrownLain(g: Group, c: Cut, more: seq<MuxFrame>, s: Settings)
    requires s.style.scale > 0 && Lain(g, c, s) && forall i :: 0 <= i < |more| ==> MayWait(more[i], s)
    ensures Lain(Grown(g, more), c, s)
  {
    var all := g.frames + more;
    hide MayWait, Ends, Tick;
    forall k | c.lead < k <= c.tail && !MayWait(all[k], s)
      ensures !Ends(all[..Found(all, c.lead, k, s)], g.timecode, all[k], s) {
      SameFound(g.frames, more, c.lead, k, s);
      assert all[..Found(g.frames, c.lead, k, s)] == g.frames[..Found(g.frames, c.lead, k, s)];
      assert all[k] == g.frames[k];
    }
  }

  lemma {:induction false} SameFound(frames: seq<MuxFrame>, more: seq<MuxFrame>, lead: nat, k: nat, s: Settings)
    requires lead < k <= |frames|
    ensures Found(frames + more, lead, k, s) == Found(frames, lead, k, s)
  {
    hide MayWait;
    if k > lead + 1 { SameFound(frames, more, lead, k - 1, s); }
  }

  /** Behind the last frame that has not waited there are only those that have. */
  lemma {:induction false} FoundBehind(frames: seq<MuxFrame>, c: Cut, k: nat, s: Settings)
    requires c.lead <= c.tail < k <= |frames| && (c.lead < c.tail ==> !MayWait(frames[c.tail], s))
    requires forall i :: c.tail < i < k ==> MayWait(frames[i], s)
    ensures Found(frames, c.lead, k, s) == c.tail + 1
  {
    hide MayWait;
    if k > c.tail + 1 { FoundBehind(frames, c, k - 1, s); }
  }

  /** A frame that does not end the cluster comes behind those that have waited. */
  lemma OneMoreLain(g: Group, c: Cut, f: MuxFrame, s: Settings)
    requires s.style.scale > 0 && Lain(g, c, s) && !MayWait(f, s) && !Ends(g.frames[..c.tail + 1], g.timecode, f, s)
    ensures Lain(Grown(g, [f]), Cut(c.lead, |g.frames|), s)
  {
    var last := |g.frames|;
    var all := g.frames + [f];
    forall k | c.lead < k <= last && !MayWait(all[k], s)
      ensures !Ends(all[..Found(all, c.lead, k, s)], g.timecode, all[k], s) {
      OneMoreFound(g, c, f, k, s);
    }
    hide MayWait, Ends, Tick, Found;
    assert forall k :: 0 <= k < last ==> all[k] == g.frames[k];
  }

  lemma OneMoreFound(g: Group, c: Cut, f: MuxFrame, k: nat, s: Settings)
    requires s.style.scale > 0 && Lain(g, c, s) && !Ends(g.frames[..c.tail + 1], g.timecode, f, s)
    requires c.lead < k <= |g.frames| && !MayWait((g.frames + [f])[k], s)
    ensures var all := g.frames + [f];
            !Ends(all[..Found(all, c.lead, k, s)], g.timecode, all[k], s)
  {
    var all := g.frames + [f];
    hide MayWait, Ends, Tick;
    SameFound(g.frames, [f], c.lead, k, s);
    if k < |g.frames| {
      assert all[..Found(g.frames, c.lead, k, s)] == g.frames[..Found(g.frames, c.lead, k, s)];
      assert all[k] == g.frames[k] && k <= c.tail;
    } else {
      FoundBehind(g.frames, c, k, s);
      assert all[..c.tail + 1] == g.frames[..c.tail + 1];
    }
  }

  /** The last cluster goes on with the queue and a frame that does not end it. */
  lemma GoesOn(g: Group, c: Cut, queue: seq<MuxFrame>, f: MuxFrame, s: Settings)
    requires s.style.scale > 0 && Lain(g, c, s) && c.tail == |g.frames| - 1
    requires (forall i :: 0 <= i < |queue| ==> MayWait(queue[i], s)) && !MayWait(f, s)
    requires !Ends(g.frames, g.timecode, f, s)
    ensures Lain(Grown(Grown(g, queue), [f]), Cut(c.lead, |g.frames| + |queue|), s)
  {
    hide MayWait, Ends, Lain;
    GrownLain(g, c, queue, s);
    assert (g.frames + queue)[..c.tail + 1] == g.frames;
    OneMoreLain(Grown(g, queue), c, f, s);
  }

  /** A new cluster begins with what is left of the queue, for this frame. */
  lemma NewLain(rest: seq<MuxFrame>, f: MuxFrame, s: Settings)
    requires s.style.scale > 0 && forall i :: 0 <= i < |rest| ==> MayWait(rest[i], s)
    ensures Lain(Group(rest + [f], TimecodeFor(rest, f.timestamp, s.style.scale)), Cut(|rest|, |rest|), s)
  {
    hide MayWait, Ends;
  }

  /** What `Due` and `Waits` say, in these terms. */
  lemma DueIs(p: Plan, f: MuxFrame, s: Settings)
    requires s.style.scale > 0 && !p.force && !Waits(p, f, s)
    requires p.open.Some? ==> p.open.value.frames != []
    ensures p.open.None? ==> Due(p, f.track, f.timestamp, f.key, s) && !MayWait(f, s)
    ensures p.open.Some? ==>
              var g := p.open.value;
              && (Due(p, f.track, f.timestamp, f.key, s) <==> Ends(g.frames, g.timecode, f, s))
              && (MayWait(f, s) ==> !WithinReach(g.timecode, f, s))
  {
    hide ClusterBody;
  }

  /** A reference changes nothing of what counts. */
  lemma ReferenceIgnored(frames: seq<MuxFrame>, timecode: nat, f: MuxFrame, lastOf: map<nat, nat>, s: Settings)
    requires s.style.scale > 0
    ensures var g := Referenced(f, lastOf);
            && g.track == f.track && g.timestamp == f.timestamp && g.key == f.key
            && Ends(frames, timecode, g, s) == Ends(frames, timecode, f, s) && MayWait(g, s) == MayWait(f, s)
            && WithinReach(timecode, g, s) == WithinReach(timecode, f, s)
  {
    hide ClusterBody;
  }

  /** One more frame of the recording. */
  lemma Step(p: Plan, cuts: seq<Cut>, f: MuxFrame, s: Settings) returns (after: seq<Cut>)
    requires s.style.scale > 0 && Follows(p, cuts, s)
    ensures Follows(After(p, f, s), after, s)
  {
    if Waits(p, f, s) {
      after := cuts;
      assert MayWait(f, s);
    } else if Due(p, f.track, f.timestamp, f.key, s) {
      after := NewStep(p, cuts, f, s);
    } else {
      after := OldStep(p, cuts, f, s);
    }
  }

  /** The plan once a cluster has begun for a frame. */
  lemma AfterNew(p: Plan, f: MuxFrame, s: Settings) returns (h: MuxFrame)
    requires s.style.scale > 0 && !Waits(p, f, s) && Due(p, f.track, f.timestamp, f.key, s)
    ensures h == Referenced(f, Prepared(p, f, s).lastOf)
    ensures var q, n := After(p, f, s), Moves(p, f.timestamp);
            && !q.force && q.queue == []
            && q.closed == (if p.open.None? then p.closed else p.closed + [Grown(p.open.value, p.queue[..n])])
            && q.open == Some(Group(p.queue[n..] + [h], TimecodeFor(p.queue[n..], f.timestamp, s.style.scale)))
  {
    hide Waits, Due, LastAfter, LastOfAfter, Referenced, TimecodeFor, Early;
    h := Referenced(f, Prepared(p, f, s).lastOf);
    var n := Moves(p, f.timestamp);
    var tc := TimecodeFor(p.queue[n..], f.timestamp, s.style.scale);
    assert Grown(Grown(Group([], tc), p.queue[n..]), [h]).frames == p.queue[n..] + [h];
  }

  lemma NewStep(p: Plan, cuts: seq<Cut>, f: MuxFrame, s: Settings) returns (after: seq<Cut>)
    requires s.style.scale > 0 && Follows(p, cuts, s) && !Waits(p, f, s) && Due(p, f.track, f.timestamp, f.key, s)
    ensures Follows(After(p, f, s), after, s)
  {
    hide *;
    var h := AfterNew(p, f, s);
    var n, q := Moves(p, f.timestamp), After(p, f, s);
    var rest, next, d := p.queue[n..], q.open.value, Cut(|p.queue| - n, |p.queue| - n);
    ReferenceIgnored([], 0, f, Prepared(p, f, s).lastOf, s);
    QueueWaits(p, cuts, s);
    NewLain(rest, h, s);
    after := cuts + [d];
    if p.open.Some? {
      LastFollows(p, cuts, s);
      EndsBefore(p, cuts, f, h, next, n, s);
      GrownIs(p.open.value, p.queue[..n]);
      OneMoreGroup(p.closed, p.open.value, Grown(p.open.value, p.queue[..n]), next, cuts, d, s);
    } else {
      DueIs(p, f, s);
      FirstGroup(next, d, s);
      assert cuts + [d] == [d] && p.closed + [next] == [next];
    }
    NewFollows(q, after, s);
  }

  lemma GrownIs(g: Group, more: seq<MuxFrame>)
    ensures g.frames <= Grown(g, more).frames && Grown(g, more).timecode == g.timecode
  {
  }

  lemma QueueWaits(p: Plan, cuts: seq<Cut>, s: Settings)
    requires s.style.scale > 0 && Follows(p, cuts, s)
    ensures !p.force && (forall i :: 0 <= i < |p.queue| ==> MayWait(p.queue[i], s))
    ensures p.open.None? ==> p.closed == [] && cuts == []
    ensures p.open.Some? ==> p.open.value.frames != []
  {
    if p.open.Some? { LastFollows(p, cuts, s); }
    hide Lain, Turned, MayWait;
  }

  /** The last cluster so far. */
  lemma LastFollows(p: Plan, cuts: seq<Cut>, s: Settings)
    requires s.style.scale > 0 && Follows(p, cuts, s) && p.open.Some?
    ensures |cuts| == |p.closed| + 1 && Lain(p.open.value, cuts[|cuts| - 1], s)
    ensures cuts[|cuts| - 1].tail == |p.open.value.frames| - 1 && Divided(p.closed + [p.open.value], cuts, s)
  {
    hide Lain, Turned, MayWait;
    assert Lain(Whole(p)[|p.closed|], cuts[|p.closed|], s);
  }

  /** The frame that is due ends the last cluster, which gets the early part of the queue before it is complete. */
  lemma EndsBefore(p: Plan, cuts: seq<Cut>, f: MuxFrame, h: MuxFrame, next: Group, n: nat, s: Settings)
    requires s.style.scale > 0 && Follows(p, cuts, s) && !Waits(p, f, s) && Due(p, f.track, f.timestamp, f.key, s)
    requires p.open.Some? && n <= |p.queue| && next.frames == p.queue[n..] + [h]
    requires h.track == f.track && h.timestamp == f.timestamp && h.key == f.key
    ensures var full, c, d := Grown(p.open.value, p.queue[..n]), cuts[|cuts| - 1], Cut(|p.queue| - n, |p.queue| - n);
            Lain(full, c, s) && Turned(full, c, next, d, s)
  {
    hide Waits, Due, Lain;
    LastFollows(p, cuts, s);
    DueIs(p, f, s);
    var g, c := p.open.value, cuts[|cuts| - 1];
    NotEmpty(g, c, s);
    GrownLain(g, c, p.queue[..n], s);
    assert (g.frames + p.queue[..n])[..c.tail + 1] == g.frames;
    assert next.frames[|p.queue| - n] == h;
    hide ClusterBody, TimecodeFor;
  }

  lemma NotEmpty(g: Group, c: Cut, s: Settings)
    requires s.style.scale > 0 && Lain(g, c, s)
    ensures c.lead <= c.tail < |g.frames|
  {
  }

  lemma FirstGroup(g: Group, d: Cut, s: Settings)
    requires s.style.scale > 0 && Lain(g, d, s) && d.lead < |g.frames| && !MayWait(g.frames[d.lead], s)
    ensures Divided([g], [d], s)
  {
    hide Lain;
  }

  lemma NewFollows(q: Plan, after: seq<Cut>, s: Settings)
    requires s.style.scale > 0 && !q.force && q.queue == [] && q.open.Some? &&
             Divided(q.closed + [q.open.value], after, s)
    requires after[|after| - 1].tail == |q.open.value.frames| - 1
    ensures Follows(q, after, s)
  {
  }

  /** The last group takes more and another one follows. */
  lemma OneMoreGroup(closed: seq<Group>, g: Group, full: Group, begun: Group, cuts: seq<Cut>, d: Cut, s: Settings)
    requires s.style.scale > 0 && Divided(closed + [g], cuts, s) && g.frames <= full.frames &&
             full.timecode == g.timecode
    requires Lain(full, cuts[|cuts| - 1], s) && Lain(begun, d, s) && Turned(full, cuts[|cuts| - 1], begun, d, s)
    ensures Divided(closed + [full] + [begun], cuts + [d], s)
  {
    hide *;
    LastGrown(closed, g, full, cuts, s);
    SameLength(closed + [g], cuts, s);
    DividedMore(closed + [full], cuts, begun, d, s);
  }

  lemma SameLength(groups: seq<Group>, cuts: seq<Cut>, s: Settings)
    requires s.style.scale > 0 && Divided(groups, cuts, s)
    ensures |cuts| == |groups|
  {
  }

  lemma DividedMore(groups: seq<Group>, cuts: seq<Cut>, next: Group, d: Cut, s: Settings)
    requires s.style.scale > 0 && Divided(groups, cuts, s) && groups != [] && |cuts| == |groups|
    requires Lain(next, d, s) && Turned(groups[|groups| - 1], cuts[|cuts| - 1], next, d, s)
    ensures Divided(groups + [next], cuts + [d], s)
  {
    hide Lain, Turned, MayWait;
    var more, now := groups + [next], cuts + [d];
    forall j | 0 <= j < |more| ensures Lain(more[j], now[j], s) {
      if j < |groups| { assert Lain(groups[j], cuts[j], s); }
    }
    forall j | 0 < j < |more| ensures Turned(more[j - 1], now[j - 1], more[j], now[j], s) {
      if j < |groups| { assert Turned(groups[j - 1], cuts[j - 1], groups[j], cuts[j], s); }
    }
    assert more[0] == groups[0] && now[0] == cuts[0];
  }

  lemma LastGrown(closed: seq<Group>, g: Group, full: Group, cuts: seq<Cut>, s: Settings)
    requires s.style.scale > 0 && Divided(closed + [g], cuts, s) && g.frames <= full.frames &&
             full.timecode == g.timecode
    requires Lain(full, cuts[|cuts| - 1], s)
    ensures Divided(closed + [full], cuts, s)
  {
    hide Lain, Turned, MayWait;
    LastMoved(closed, g, full, cuts, cuts[|cuts| - 1], s);
    assert cuts[|cuts| - 1 := cuts[|cuts| - 1]] == cuts;
  }

  lemma OldStep(p: Plan, cuts: seq<Cut>, f: MuxFrame, s: Settings) returns (after: seq<Cut>)
    requires s.style.scale > 0 && Follows(p, cuts, s) && !Waits(p, f, s) && !Due(p, f.track, f.timestamp, f.key, s)
    ensures Follows(After(p, f, s), after, s)
  {
    hide Waits, Due, LastAfter, LastOfAfter, MayWait, Referenced, Ends, WithinReach, Lain;
    DueIs(p, f, s);
    var g, c := p.open.value, cuts[|cuts| - 1];
    var q := Prepared(p, f, s);
    ReferenceIgnored(g.frames, g.timecode, f, q.lastOf, s);
    assert !MayWait(f, s) by { OnlyBeyond(g, f, s); }
    var h := Referenced(f, q.lastOf);
    GoesOn(g, c, p.queue, h, s);
    var d := Cut(c.lead, |g.frames| + |p.queue|);
    var full := Grown(Grown(g, p.queue), [h]);
    after := cuts[|cuts| - 1 := d];
    LastMoved(p.closed, g, full, cuts, d, s);
    assert Whole(After(p, f, s)) == p.closed + [full];
  }

  lemma OnlyBeyond(g: Group, f: MuxFrame, s: Settings)
    requires s.style.scale > 0 && !Ends(g.frames, g.timecode, f, s)
    ensures WithinReach(g.timecode, f, s)
  {
  }

  lemma LastMoved(closed: seq<Group>, g: Group, full: Group, cuts: seq<Cut>, d: Cut, s: Settings)
    requires s.style.scale > 0 && Divided(closed + [g], cuts, s) && g.frames <= full.frames &&
             full.timecode == g.timecode
    requires Lain(full, d, s) && d.lead == cuts[|cuts| - 1].lead
    ensures Divided(closed + [full], cuts[|cuts| - 1 := d], s)
  {
    var n := |closed|;
    var groups, more, now := closed + [g], closed + [full], cuts[|cuts| - 1 := d];
    assert Lain(groups[n], cuts[n], s);
    NotEmpty(g, cuts[n], s);
    hide Lain, MayWait, Turned;
    forall j | 0 <= j < |more| ensures Lain(more[j], now[j], s) {
      if j < n { assert Lain(groups[j], cuts[j], s); }
    }
    forall j | 0 < j < |more| ensures Turned(more[j - 1], now[j - 1], more[j], now[j], s) {
      assert Turned(groups[j - 1], cuts[j - 1], groups[j], cuts[j], s);
      if j == n { TurnedSame(groups[n - 1], cuts[n - 1], g, cuts[n], full, d, s); }
    }
    assert full.frames[d.lead] == g.frames[d.lead];
  }

  lemma TurnedSame(g: Group, c: Cut, next: Group, d: Cut, full: Group, e: Cut, s: Settings)
    requires s.style.scale > 0 && Turned(g, c, next, d, s) && next.frames <= full.frames && e.lead == d.lead
    ensures Turned(g, c, full, e, s)
  {
    hide Ends, MayWait, WithinReach;
    assert full.frames[d.lead] == next.frames[d.lead];
  }

  lemma {:induction false} RunFollows(input: seq<MuxFrame>, s: Settings) returns (cuts: seq<Cut>)
    requires s.style.scale > 0
    ensures Follows(RunOf(EMPTY, input, s), cuts, s)
  {
    hide Follows, After;
    if |input| == 0 {
      cuts := [];
      NothingYet(s);
    } else {
      cuts := RunFollows(input[..|input| - 1], s);
      cuts := Step(RunOf(EMPTY, input[..|input| - 1], s), cuts, input[|input| - 1], s);
    }
  }

  lemma NothingYet(s: Settings)
    requires s.style.scale > 0
    ensures Follows(EMPTY, [], s)
  {
  }

  /** The clusters of every recording begin where a frame would have ended the one before, and nowhere else. */
  lemma ClustersDivided(input: seq<MuxFrame>, s: Settings) returns (cuts: seq<Cut>)
    requires s.style.scale > 0
    ensures Divided(Completed(RunOf(EMPTY, input, s)), cuts, s)
  {
    cuts := RunFollows(input, s);
    var p := RunOf(EMPTY, input, s);
    hide RunOf, MayWait, Lain, Turned;
    if p.open.Some? {
      assert Lain(Whole(p)[|p.closed|], cuts[|p.closed|], s);
      GrownLain(p.open.value, cuts[|cuts| - 1], p.queue, s);
      LastGrown(p.closed, p.open.value, Grown(p.open.value, p.queue), cuts, s);
    }
  }

  // ----- the frames in the clusters

  function Flat(groups: seq<Group>): seq<MuxFrame> {
    if |groups| == 0 then [] else Flat(groups[..|groups| - 1]) + groups[|groups| - 1].frames
  }

  lemma FlatMore(groups: seq<Group>, g: Group)
    ensures Flat(groups + [g]) == Flat(groups) + g.frames
  {
    assert (groups + [g])[..|groups|] == groups;
  }

  predicate Strict(frames: seq<MuxFrame>) {
    forall i, j :: 0 <= i < j < |frames| ==> frames[i].timestamp < frames[j].timestamp
  }

  /** The time of an earlier frame of the track, or 0. */
  predicate SomeTime(frames: seq<MuxFrame>, i: nat, t: nat, time: int)
    requires i <= |frames|
  {
    time == 0 || exists j :: 0 <= j < i && frames[j].track == t && frames[j].timestamp == time
  }

  /** Frame `i` is the one that came, but for a reference that a group needs when it is no key frame: that is the time
      of
      the frame before it in its track.  Only a frame that may have waited need not be given one, or may be given an
      older
      one, and that only when the times of the frames do not strictly increase. */
  ghost predicate Kept(frames: seq<MuxFrame>, i: nat, f: MuxFrame, s: Settings)
    requires i < |frames|
  {
    var g := frames[i];
    if (f.additional.None? && f.discardPadding == 0 && f.duration == 0) || f.key || f.reference.Some? then g == f
    else if MayWait(f, s) && g == f then true
    else
      && g.reference.Some? && g == f.(reference := g.reference)
      && (if MayWait(f, s) && !Strict(frames[..i]) then SomeTime(frames, i, f.track, g.reference.value)
          else LatestBefore(frames, i, f.track, g.reference.value))
  }

  ghost predicate AllKept(frames: seq<MuxFrame>, input: seq<MuxFrame>, s: Settings) {
    |frames| == |input| && forall i :: 0 <= i < |input| ==> Kept(frames, i, input[i], s)
  }

  function TimeIn(lastOf: map<nat, nat>, t: nat): nat {
    if t in lastOf then lastOf[t] else 0
  }

  predicate AudioTrack(t: nat, s: Settings) {
    s.hasVideo && t in s.tracks && s.tracks[t] == Audio
  }

  /** What is remembered of the frames that have been written. */
  ghost predicate Remembers(written: seq<MuxFrame>, last: nat, lastOf: map<nat, nat>, s: Settings) {
    && (forall t: nat :: SomeTime(written, |written|, t, TimeIn(lastOf, t)))
    && (forall t: nat :: !AudioTrack(t, s) || Strict(written) ==>
          LatestBefore(written, |written|, t, TimeIn(lastOf, t)))
    && (Strict(written) ==> last == Latest(written))
  }

  lemma LatestMore(written: seq<MuxFrame>, f: MuxFrame, t: nat, time: int)
    requires LatestBefore(written, |written|, t, time)
    ensures LatestBefore(written + [f], |written| + 1, t, if f.track == t then f.timestamp else time)
  {
    var more := written + [f];
    assert forall j :: 0 <= j < |written| ==> more[j] == written[j];
    assert more[|written|] == f;
  }

  lemma SomeMore(written: seq<MuxFrame>, f: MuxFrame, t: nat, time: int)
    requires SomeTime(written, |written|, t, time) || (f.track == t && time == f.timestamp)
    ensures SomeTime(written + [f], |written| + 1, t, time)
  {
    var more := written + [f];
    assert forall j :: 0 <= j < |written| ==> more[j] == written[j];
    assert more[|written|] == f;
  }

  lemma StrictMore(written: seq<MuxFrame>, f: MuxFrame)
    requires Strict(written + [f])
    ensures Strict(written) && (written != [] ==> Latest(written) < f.timestamp)
  {
    var more := written + [f];
    assert more[|written|] == f;
    forall i | 0 <= i < |written| ensures more[i] == written[i] { }
  }

  /** The time of a frame that has been written is remembered. */
  lemma NewRemembered(written: seq<MuxFrame>, last: nat, lastOf: map<nat, nat>, f: MuxFrame, s: Settings)
    requires Remembers(written, last, lastOf, s)
    ensures Remembers(written + [f], f.timestamp, lastOf[f.track := f.timestamp], s)
  {
    var more, now := written + [f], lastOf[f.track := f.timestamp];
    hide LatestBefore, SomeTime, AudioTrack;
    forall t: nat ensures SomeTime(more, |more|, t, TimeIn(now, t)) {
      assert t != f.track ==> TimeIn(now, t) == TimeIn(lastOf, t);
      SomeMore(written, f, t, TimeIn(now, t));
    }
    if Strict(more) { StrictMore(written, f); }
    forall t: nat | !AudioTrack(t, s) || Strict(more) ensures LatestBefore(more, |more|, t, TimeIn(now, t)) {
      LatestMore(written, f, t, TimeIn(lastOf, t));
    }
  }

  /** One more frame that had waited has been written. */
  lemma WaitedWritten(written: seq<MuxFrame>, last: nat, lastOf: map<nat, nat>, f: MuxFrame, s: Settings)
    requires Remembers(written, last, lastOf, s) && MayWait(f, s)
    ensures if f.timestamp > last then Remembers(written + [f], f.timestamp, lastOf[f.track := f.timestamp], s)
            else Remembers(written + [f], last, lastOf, s)
  {
    NewRemembered(written, last, lastOf, f, s);
    if f.timestamp <= last { OldRemembered(written, last, lastOf, f, s); }
  }

  lemma OldRemembered(written: seq<MuxFrame>, last: nat, lastOf: map<nat, nat>, f: MuxFrame, s: Settings)
    requires Remembers(written, last, lastOf, s) && MayWait(f, s) && f.timestamp <= last
    ensures Remembers(written + [f], last, lastOf, s)
  {
    var more := written + [f];
    if Strict(more) {
      StrictMore(written, f);
      NothingBefore(lastOf, s, written);
    }
    assert AudioTrack(f.track, s);
    hide LatestBefore, SomeTime, AudioTrack;
    forall t: nat ensures SomeTime(more, |more|, t, TimeIn(lastOf, t)) {
      SomeMore(written, f, t, TimeIn(lastOf, t));
    }
    forall t: nat | !AudioTrack(t, s) || Strict(more) ensures LatestBefore(more, |more|, t, TimeIn(lastOf, t)) {
      LatestMore(written, f, t, TimeIn(lastOf, t));
    }
  }

  lemma NothingBefore(lastOf: map<nat, nat>, s: Settings, written: seq<MuxFrame>)
    requires forall t: nat :: SomeTime(written, |written|, t, TimeIn(lastOf, t))
    ensures written == [] ==> forall t: nat :: TimeIn(lastOf, t) == 0
  {
  }

  /** And a whole part of the queue. */
  lemma {:induction false} QueueWritten(written: seq<MuxFrame>, last: nat, lastOf: map<nat, nat>, queue: seq<MuxFrame>,
                                        s: Settings)
    requires Remembers(written, last, lastOf, s) && forall i :: 0 <= i < |queue| ==> MayWait(queue[i], s)
    ensures Remembers(written + queue, LastAfter(last, queue), LastOfAfter(last, lastOf, queue), s)
  {
    if |queue| == 0 {
      assert written + queue == written;
    } else {
      var rest, f := queue[..|queue| - 1], queue[|queue| - 1];
      hide Remembers, MayWait;
      QueueWritten(written, last, lastOf, rest, s);
      WaitedWritten(written + rest, LastAfter(last, rest), LastOfAfter(last, lastOf, rest), f, s);
      assert written + queue == written + rest + [f];
    }
  }

  /** What holds of the frames of a plan all the time: written or waiting, they are those that came, in their order, and
      the last one written is the one whose time is remembered. */
  ghost predicate Keeps(p: Plan, input: seq<MuxFrame>, s: Settings) {
    var written := Flat(Whole(p));
    && AllKept(written + p.queue, input, s) && Remembers(written, p.last, p.lastOf, s) && p.last == Latest(written)
    && !p.force && forall i :: 0 <= i < |p.queue| ==> MayWait(p.queue[i], s)
  }

  lemma KeptMore(frames: seq<MuxFrame>, more: seq<MuxFrame>, i: nat, f: MuxFrame, s: Settings)
    requires i < |frames| && Kept(frames, i, f, s)
    ensures Kept(frames + more, i, f, s)
  {
    var all := frames + more;
    assert all[..i] == frames[..i];
    assert forall j :: 0 <= j <= i ==> all[j] == frames[j];
  }

  lemma AllKeptMore(frames: seq<MuxFrame>, input: seq<MuxFrame>, g: MuxFrame, f: MuxFrame, s: Settings)
    requires AllKept(frames, input, s) && Kept(frames + [g], |frames|, f, s)
    ensures AllKept(frames + [g], input + [f], s)
  {
    hide Kept;
    forall i | 0 <= i < |input| ensures Kept(frames + [g], i, input[i], s) { KeptMore(frames, [g], i, input[i], s); }
  }

  /** A frame that has been given its reference, if it needs one. */
  lemma ReferencedKept(frames: seq<MuxFrame>, last: nat, lastOf: map<nat, nat>, f: MuxFrame, s: Settings)
    requires Remembers(frames, last, lastOf, s)
    ensures Kept(frames + [Referenced(f, lastOf)], |frames|, f, s)
  {
    var g, time := Referenced(f, lastOf), TimeIn(lastOf, f.track);
    var all := frames + [g];
    assert all[|frames|] == g && all[..|frames|] == frames;
    assert SomeTime(frames, |frames|, f.track, time);
    assert forall j :: 0 <= j < |frames| ==> all[j] == frames[j];
    assert MayWait(f, s) <==> AudioTrack(f.track, s);
  }

  lemma FlatGrown(closed: seq<Group>, g: Group, more: seq<MuxFrame>)
    ensures Flat(closed + [Grown(g, more)]) == Flat(closed + [g]) + more
  {
    FlatMore(closed, g);
    FlatMore(closed, Grown(g, more));
    hide Flat;
    Then(Flat(closed), g.frames, more);
  }

  /** What a plan is before a frame is written, by whether a cluster begins. */
  lemma PreparedShape(p: Plan, f: MuxFrame, s: Settings)
    requires s.style.scale > 0
    ensures Prepared(p, f, s).queue == []
    ensures var q := Prepared(p, f, s);
            !Due(p, f.track, f.timestamp, f.key, s) ==>
              && q.closed == p.closed && (p.open.Some? ==> q.open == Some(Grown(p.open.value, p.queue)))
              && q.last == LastAfter(p.last, p.queue) && q.lastOf == LastOfAfter(p.last, p.lastOf, p.queue)
    ensures var q, n := Prepared(p, f, s), Moves(p, f.timestamp);
            var a, b := p.queue[..n], p.queue[n..];
            Due(p, f.track, f.timestamp, f.key, s) ==>
              && q.closed == (if p.open.None? then p.closed else p.closed + [Grown(p.open.value, a)])
              && q.open == Some(Grown(Group([], TimecodeFor(b, f.timestamp, s.style.scale)), b))
              && q.last == LastAfter(LastAfter(p.last, a), b)
              && q.lastOf == LastOfAfter(LastAfter(p.last, a), LastOfAfter(p.last, p.lastOf, a), b)
  {
    hide Due, LastAfter, LastOfAfter, TimecodeFor, Early;
  }

  /** Before a frame is written the whole queue is. */
  lemma PreparedKeeps(p: Plan, input: seq<MuxFrame>, f: MuxFrame, s: Settings)
    requires s.style.scale > 0 && Keeps(p, input, s) && (p.open.None? ==> Due(p, f.track, f.timestamp, f.key, s))
    ensures var q, frames := Prepared(p, f, s), Flat(Whole(p)) + p.queue;
            Flat(Whole(q)) == frames && q.queue == [] && q.open.Some? && Remembers(frames, q.last, q.lastOf, s)
  {
    hide *;
    var q, written, n := Prepared(p, f, s), Flat(Whole(p)), Moves(p, f.timestamp);
    KeepsIs(p, input, s);
    PreparedShape(p, f, s);
    WholeIs(p);
    WholeIs(q);
    if Due(p, f.track, f.timestamp, f.key, s) {
      var a, b := p.queue[..n], p.queue[n..];
      QueueWritten(written, p.last, p.lastOf, a, s);
      QueueWritten(written + a, LastAfter(p.last, a), LastOfAfter(p.last, p.lastOf, a), b, s);
      Then(written, a, b);
      assert a + b == p.queue;
      var empty := Group([], TimecodeFor(b, f.timestamp, s.style.scale));
      if p.open.Some? { FlatGrown(p.closed, p.open.value, a); } else { NoneMoved(p, f.timestamp); }
      assert written + [] == written;
      NoMoreFlat(q.closed, empty);
      FlatGrown(q.closed, empty, b);
    } else {
      QueueWritten(written, p.last, p.lastOf, p.queue, s);
      FlatGrown(p.closed, p.open.value, p.queue);
    }
  }

  lemma KeepsIs(p: Plan, input: seq<MuxFrame>, s: Settings)
    requires Keeps(p, input, s)
    ensures AllKept(Flat(Whole(p)) + p.queue, input, s) && Remembers(Flat(Whole(p)), p.last, p.lastOf, s)
    ensures forall i :: 0 <= i < |p.queue| ==> MayWait(p.queue[i], s)
  {
  }

  lemma WholeIs(p: Plan)
    ensures Whole(p) == if p.open.None? then p.closed else p.closed + [p.open.value]
  {
  }

  lemma NoneMoved(p: Plan, time: nat)
    requires p.open.None?
    ensures Moves(p, time) == 0
  {
  }

  lemma NoMoreFlat(groups: seq<Group>, g: Group)
    requires g.frames == []
    ensures Flat(groups + [g]) == Flat(groups)
  {
    FlatMore(groups, g);
  }

  lemma StepKeeps(p: Plan, input: seq<MuxFrame>, f: MuxFrame, s: Settings)
    requires s.style.scale > 0 && Keeps(p, input, s)
    ensures Keeps(After(p, f, s), input + [f], s)
  {
    var frames := Flat(Whole(p)) + p.queue;
    if Waits(p, f, s) {
      assert MayWait(f, s);
      WaitingKept(frames, f, s);
      AllKeptMore(frames, input, f, f, s);
      assert Flat(Whole(p)) + (p.queue + [f]) == frames + [f];
    } else {
      DueFirst(p, f, s);
      PreparedKeeps(p, input, f, s);
      WriteKeeps(p, input, f, s);
    }
  }

  lemma DueFirst(p: Plan, f: MuxFrame, s: Settings)
    requires s.style.scale > 0
    ensures p.open.None? ==> Due(p, f.track, f.timestamp, f.key, s)
  {
  }

  lemma WaitingKept(frames: seq<MuxFrame>, f: MuxFrame, s: Settings)
    requires MayWait(f, s)
    ensures Kept(frames + [f], |frames|, f, s)
  {
  }

  lemma WriteKeeps(p: Plan, input: seq<MuxFrame>, f: MuxFrame, s: Settings)
    requires s.style.scale > 0 && !Waits(p, f, s) && AllKept(Flat(Whole(p)) + p.queue, input, s)
    requires var q, frames := Prepared(p, f, s), Flat(Whole(p)) + p.queue;
             Flat(Whole(q)) == frames && q.queue == [] && q.open.Some? && Remembers(frames, q.last, q.lastOf, s)
    ensures Keeps(After(p, f, s), input + [f], s)
  {
    hide *;
    var q, frames, r := Prepared(p, f, s), Flat(Whole(p)) + p.queue, After(p, f, s);
    var g := Referenced(f, q.lastOf);
    ReferencedKept(frames, q.last, q.lastOf, f, s);
    AllKeptMore(frames, input, g, f, s);
    NewRemembered(frames, q.last, q.lastOf, g, s);
    WrittenShape(p, f, s);
    WholeIs(q);
    WholeIs(r);
    FlatGrown(q.closed, q.open.value, [g]);
    NowKeeps(r, frames + [g], input + [f], g, s);
  }

  lemma WrittenShape(p: Plan, f: MuxFrame, s: Settings)
    requires s.style.scale > 0 && !Waits(p, f, s) && Prepared(p, f, s).open.Some?
    ensures var q, r := Prepared(p, f, s), After(p, f, s);
            var g := Referenced(f, q.lastOf);
            && r.closed == q.closed && r.open == Some(Grown(q.open.value, [g])) && r.queue == [] && !r.force
            && r.last == g.timestamp && r.lastOf == q.lastOf[g.track := g.timestamp]
  {
    hide Waits, Prepared, Referenced;
  }

  lemma NowKeeps(r: Plan, written: seq<MuxFrame>, input: seq<MuxFrame>, g: MuxFrame, s: Settings)
    requires written == Flat(Whole(r)) && r.queue == [] && !r.force && r.last == g.timestamp
    requires AllKept(written, input, s) && Remembers(written, r.last, r.lastOf, s)
    requires written != [] && written[|written| - 1] == g
    ensures Keeps(r, input, s)
  {
    hide AllKept, Remembers, Flat;
    assert written + r.queue == written;
  }

  lemma {:induction false} RunKeeps(input: seq<MuxFrame>, s: Settings)
    requires s.style.scale > 0
    ensures Keeps(RunOf(EMPTY, input, s), input, s)
  {
    hide Keeps, After;
    if |input| == 0 {
      NothingKept(s);
      assert input == [];
    } else {
      var before, f := input[..|input| - 1], input[|input| - 1];
      RunKeeps(before, s);
      StepKeeps(RunOf(EMPTY, before, s), before, f, s);
      assert before + [f] == input;
    }
  }

  lemma NothingKept(s: Settings)
    ensures Keeps(EMPTY, [], s)
  {
  }

  /** The clusters have the frames that came, in their order, each with the reference it needs. */
  lemma FramesKept(input: seq<MuxFrame>, s: Settings)
    requires s.style.scale > 0 && (RunOf(EMPTY, input, s).open.None? ==> RunOf(EMPTY, input, s).queue == [])
    ensures AllKept(Flat(Completed(RunOf(EMPTY, input, s))), input, s)
  {
    hide *;
    var p := RunOf(EMPTY, input, s);
    RunKeeps(input, s);
    KeepsIs(p, input, s);
    WholeIs(p);
    CompletedIs(p);
    if p.open.Some? { FlatGrown(p.closed, p.open.value, p.queue); }
        else { assert Flat(p.closed) + [] == Flat(p.closed); }
  }

  lemma CompletedIs(p: Plan)
    ensures Completed(p) == if p.open.None? then p.closed else p.closed + [Grown(p.open.value, p.queue)]
  {
  }

  /** A frame is refused for its time exactly when it is earlier than the last one that has been written. */
  lemma NotBack(input: seq<MuxFrame>, f: MuxFrame, s: Settings)
    requires s.style.scale > 0
    ensures var p := RunOf(EMPTY, input, s);
            var last := Latest(Flat(Whole(p)));
            && (Takes(p, f, s) ==> f.timestamp >= last)
            && (f.timestamp >= last && f.track in s.tracks && Waits(p, f, s) ==> Takes(p, f, s))
  {
    RunKeeps(input, s);
    hide RunOf, Waits, CanPrepare, Fits, Prepared, AllKept, Remembers, MayWait, Flat;
  }

  // ----- recordings in which nothing waits

  /** The frame is out of reach of a cluster with these frames, or one of the limits has been reached. */
  predicate AtLimit(frames: seq<MuxFrame>, timecode: nat, f: MuxFrame, s: Settings)
    requires s.style.scale > 0
  {
    || !WithinReach(timecode, f, s)
    || (s.maxDuration > 0 && Since(timecode, f, s) * s.style.scale >= s.maxDuration)
    || (s.maxSize > 0 && |ClusterBody(frames, timecode, s.style.fixedSize, s.style.scale)| >= s.maxSize)
  }

  /** A cluster begins with its timecode, and none of its later frames is a key frame of a video track or at a limit. */
  predicate PlainOne(g: Group, s: Settings)
    requires s.style.scale > 0
  {
    && g.frames != [] && g.timecode == Tick(g.frames[0], s)
    && forall k :: 0 < k < |g.frames| ==>
         !(g.frames[k].key && OnVideo(g.frames[k], s)) && !AtLimit(g.frames[..k], g.timecode, g.frames[k], s)
  }

  /** The next one begins with such a frame. */
  predicate PlainNext(g: Group, next: Group, s: Settings)
    requires s.style.scale > 0
  {
    && next.frames != []
    && var f := next.frames[0];
       (f.key && OnVideo(f, s)) || AtLimit(g.frames, g.timecode, f, s)
  }

  /** Clusters that begin with a key frame of a video track or at a limit, and nowhere else. */
  predicate Plain(groups: seq<Group>, s: Settings)
    requires s.style.scale > 0
  {
    && (forall j :: 0 <= j < |groups| ==> PlainOne(groups[j], s))
    && forall j :: 0 < j < |groups| ==> PlainNext(groups[j - 1], groups[j], s)
  }

  predicate NoneWaits(frames: seq<MuxFrame>, s: Settings) {
    forall i :: 0 <= i < |frames| ==> !MayWait(frames[i], s)
  }

  lemma {:induction false} InFlat(groups: seq<Group>, j: nat, k: nat)
    requires j < |groups| && k < |groups[j].frames|
    ensures |Flat(groups[..j])| + k < |Flat(groups)|
    ensures Flat(groups)[|Flat(groups[..j])| + k] == groups[j].frames[k]
  {
    var n := |groups| - 1;
    if j < n {
      InFlat(groups[..n], j, k);
      assert groups[..n][..j] == groups[..j];
    }
  }

  lemma NoneWaitsIn(groups: seq<Group>, j: nat, s: Settings)
    requires NoneWaits(Flat(groups), s) && j < |groups|
    ensures NoneWaits(groups[j].frames, s)
  {
    hide MayWait;
    forall k | 0 <= k < |groups[j].frames| ensures !MayWait(groups[j].frames[k], s) { InFlat(groups, j, k); }
  }

  /** Where nothing waits a cluster begins with a key frame of a video track, with a frame out of reach or too long
      after
      the timecode of the one before, with one that finds too many bytes there, and with no other. */
  lemma PlainClusters(input: seq<MuxFrame>, s: Settings)
    requires s.style.scale > 0 && NoneWaits(input, s)
    ensures var groups := Completed(RunOf(EMPTY, input, s));
            Plain(groups, s) && AllKept(Flat(groups), input, s) && NoneWaits(Flat(groups), s)
  {
    hide *;
    var groups := Completed(RunOf(EMPTY, input, s));
    NothingQueued(input, s);
    FramesKept(input, s);
    KeptTracks(Flat(groups), input, s);
    var cuts := ClustersDivided(input, s);
    DividedPlain(groups, cuts, s);
  }

  lemma DividedPlain(groups: seq<Group>, cuts: seq<Cut>, s: Settings)
    requires s.style.scale > 0 && Divided(groups, cuts, s) && NoneWaits(Flat(groups), s)
    ensures Plain(groups, s)
  {
    hide MayWait, Lain, Turned, PlainOne, PlainNext, NoneWaits, Flat;
    forall j | 0 <= j < |groups|
      ensures PlainOne(groups[j], s) && groups[j].frames != [] && cuts[j] == Cut(0, |groups[j].frames| - 1) {
      NoneWaitsIn(groups, j, s);
      PlainGroup(groups[j], cuts[j], s);
    }
    forall j | 0 < j < |groups| ensures PlainNext(groups[j - 1], groups[j], s) {
      assert Turned(groups[j - 1], cuts[j - 1], groups[j], cuts[j], s);
      PlainTurn(groups[j - 1], groups[j], s);
    }
  }

  lemma PlainGroup(g: Group, c: Cut, s: Settings)
    requires s.style.scale > 0 && Lain(g, c, s) && NoneWaits(g.frames, s)
    ensures PlainOne(g, s) && g.frames != [] && c == Cut(0, |g.frames| - 1)
  {
    hide MayWait, OnVideo, ClusterBody, WithinReach, Tick;
    var first, last := g.frames[0], g.frames[|g.frames| - 1];
    assert c.lead == 0 && c.tail == |g.frames| - 1;
    forall k | 0 < k < |g.frames|
      ensures !(g.frames[k].key && OnVideo(g.frames[k], s)) && !AtLimit(g.frames[..k], g.timecode, g.frames[k], s) {
      assert Found(g.frames, 0, k, s) == k;
    }
  }

  lemma PlainTurn(g: Group, next: Group, s: Settings)
    requires s.style.scale > 0 && PlainOne(g, s) && PlainOne(next, s)
    requires Turned(g, Cut(0, |g.frames| - 1), next, Cut(0, |next.frames| - 1), s)
    ensures PlainNext(g, next, s)
  {
    hide MayWait, OnVideo, ClusterBody, WithinReach;
    assert g.frames[..|g.frames|] == g.frames;
  }

  lemma KeptTracks(frames: seq<MuxFrame>, input: seq<MuxFrame>, s: Settings)
    requires AllKept(frames, input, s)
    ensures |frames| == |input|
    ensures forall i :: 0 <= i < |input| ==>
              frames[i].track == input[i].track && frames[i].timestamp == input[i].timestamp
              && frames[i].key == input[i].key
    ensures NoneWaits(input, s) ==> NoneWaits(frames, s)
  {
    hide LatestBefore, SomeTime, Strict;
    forall i | 0 <= i < |input|
      ensures frames[i].track == input[i].track && frames[i].timestamp == input[i].timestamp
              && frames[i].key == input[i].key {
      assert Kept(frames, i, input[i], s);
    }
  }

  lemma {:induction false} NothingQueued(input: seq<MuxFrame>, s: Settings)
    requires s.style.scale > 0 && NoneWaits(input, s)
    ensures RunOf(EMPTY, input, s).queue == []
  {
    if |input| > 0 {
      var before, f := input[..|input| - 1], input[|input| - 1];
      NothingQueued(before, s);
      NotQueued(RunOf(EMPTY, before, s), f, s);
    }
  }

  lemma NotQueued(p: Plan, f: MuxFrame, s: Settings)
    requires s.style.scale > 0 && p.queue == [] && !MayWait(f, s)
    ensures After(p, f, s).queue == []
  {
    hide Due, LastAfter, LastOfAfter, Referenced, TimecodeFor;
  }

  /** The frame is near enough to its key frame, with those between them, for no limit to be reached. */
  predicate BelowLimits(frames: seq<MuxFrame>, s: Settings)
    requires s.style.scale > 0
  {
    forall b, i :: 0 <= b < i < |frames| && frames[b].key && (forall k :: b < k <= i ==> !frames[k].key) ==>
                     !AtLimit(frames[b..i], Tick(frames[b], s), frames[i], s)
  }

  /** A recording of video that begins with a key frame and keeps below the limits: its clusters begin exactly with the
      key frames. */
  lemma KeyFramesBegin(input: seq<MuxFrame>, s: Settings)
    requires s.style.scale > 0 && input != [] && input[0].key
    requires forall i :: 0 <= i < |input| ==> OnVideo(input[i], s)
    requires BelowLimits(Flat(Completed(RunOf(EMPTY, input, s))), s)
    ensures var groups := Completed(RunOf(EMPTY, input, s));
            && AllKept(Flat(groups), input, s)
            && forall j, k :: 0 <= j < |groups| && 0 <= k < |groups[j].frames| ==>
                 (groups[j].frames[k].key <==> k == 0)
  {
    hide *;
    var groups := Completed(RunOf(EMPTY, input, s));
    VideoNotWaiting(input, s);
    PlainClusters(input, s);
    KeptTracks(Flat(groups), input, s);
    SameTracksOnVideo(Flat(groups), input, s);
    KeysFirst(groups, s);
  }

  lemma VideoNotWaiting(input: seq<MuxFrame>, s: Settings)
    requires forall i :: 0 <= i < |input| ==> OnVideo(input[i], s)
    ensures NoneWaits(input, s)
  {
  }

  lemma SameTracksOnVideo(frames: seq<MuxFrame>, input: seq<MuxFrame>, s: Settings)
    requires |frames| == |input| && forall i :: 0 <= i < |input| ==> frames[i].track == input[i].track
    requires forall i :: 0 <= i < |input| ==> OnVideo(input[i], s)
    ensures forall i :: 0 <= i < |frames| ==> OnVideo(frames[i], s)
  {
  }

  lemma KeysFirst(groups: seq<Group>, s: Settings)
    requires s.style.scale > 0 && Plain(groups, s) && BelowLimits(Flat(groups), s)
    requires forall i :: 0 <= i < |Flat(groups)| ==> OnVideo(Flat(groups)[i], s)
    requires Flat(groups) != [] && Flat(groups)[0].key
    ensures forall j, k :: 0 <= j < |groups| && 0 <= k < |groups[j].frames| ==> (groups[j].frames[k].key <==> k == 0)
  {
    hide *;
    forall j, k | 0 <= j < |groups| && 0 <= k < |groups[j].frames| ensures groups[j].frames[k].key <==> k == 0 {
      if k == 0 { BeginsWithKey(groups, j, s); } else { VideoInGroup(groups, j, k, s); }
    }
  }

  lemma VideoInGroup(groups: seq<Group>, j: nat, k: nat, s: Settings)
    requires s.style.scale > 0 && Plain(groups, s) && j < |groups| && k < |groups[j].frames|
    requires forall i :: 0 <= i < |Flat(groups)| ==> OnVideo(Flat(groups)[i], s)
    ensures k > 0 ==> !groups[j].frames[k].key
  {
    hide AtLimit;
    InFlat(groups, j, k);
  }

  lemma {:induction false} BeginsWithKey(groups: seq<Group>, j: nat, s: Settings)
    requires s.style.scale > 0 && Plain(groups, s) && j < |groups| && BelowLimits(Flat(groups), s)
    requires forall i :: 0 <= i < |Flat(groups)| ==> OnVideo(Flat(groups)[i], s)
    requires Flat(groups) != [] && Flat(groups)[0].key
    ensures groups[j].frames != [] && groups[j].frames[0].key
  {
    hide AtLimit, OnVideo, BelowLimits, Flat;
    var all := Flat(groups);
    InFlat(groups, j, 0);
    if j == 0 {
      NoneFlat(groups);
    } else {
      BeginsWithKey(groups, j - 1, s);
      KeyNext(groups, j, s);
    }
  }

  lemma NoneFlat(groups: seq<Group>)
    ensures Flat(groups[..0]) == []
  {
  }

  lemma KeyNext(groups: seq<Group>, j: nat, s: Settings)
    requires s.style.scale > 0 && Plain(groups, s) && 0 < j < |groups| && BelowLimits(Flat(groups), s)
    requires forall i :: 0 <= i < |Flat(groups)| ==> OnVideo(Flat(groups)[i], s)
    requires groups[j - 1].frames != [] && groups[j - 1].frames[0].key && groups[j].frames != []
    ensures groups[j].frames[0].key
  {
    hide AtLimit, OnVideo, Flat, BelowLimits, Tick;
    var all, g, b := Flat(groups), groups[j - 1].frames, |Flat(groups[..j - 1])|;
    var i := b + |g|;
    assert groups[..j] == groups[..j - 1] + [groups[j - 1]];
    FlatMore(groups[..j - 1], groups[j - 1]);
    InFlat(groups, j, 0);
    forall k | 0 <= k < |g| ensures all[b + k] == g[k] && (k > 0 ==> !g[k].key) {
      InFlat(groups, j - 1, k);
      VideoInGroup(groups, j - 1, k, s);
    }
    assert PlainNext(groups[j - 1], groups[j], s) && PlainOne(groups[j - 1], s);
    hide Plain, PlainNext, PlainOne;
    assert all[b..i] == g;
    if !groups[j].frames[0].key {
      assert forall k :: b < k < i ==> all[k] == g[k - b];
      NotAtLimit(all, b, i, s);
    }
  }

  lemma NotAtLimit(all: seq<MuxFrame>, b: nat, i: nat, s: Settings)
    requires s.style.scale > 0 && BelowLimits(all, s) && b < i < |all| && all[b].key
    requires forall k :: b < k <= i ==> !all[k].key
    ensures !AtLimit(all[b..i], Tick(all[b], s), all[i], s)
  {
    hide AtLimit;
  }
}
