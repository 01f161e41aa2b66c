/** The recorder's timeline (libxmf/XmfWebM.cpp): images arrive at any time, the clock may stall or run
    backwards, the encoder may fail or hold packets back and put any time on them. */
module Timeline {
  import opened Bytes

  /** One image handed to the encoder with success: its place on the timeline, and the clock it was given
      its end by, which is the clock's reading number `at`, or none (-1) for a token millisecond. */
  datatype Call = Call(image: int, start: int, duration: nat, time: nat, at: int, forced: bool, keyFrame: bool)

  datatype Packet = Packet(isFrame: bool, pts: int)

  datatype Image = NoImage | Picture(id: int)

  /** One call of the encoder, as the encoder has seen it: refused ones and those that only drain it too. */
  datatype Request = Request(image: Image, start: int, duration: nat, keyFrame: bool, ok: bool, packets: seq<Packet>)

  // ----- what a log of calls must look like

  function End(calls: seq<Call>): int {
    if |calls| == 0 then 0 else calls[|calls| - 1].start + calls[|calls| - 1].duration
  }

  /** Each image starts where the one before it ends. */
  predicate Tiled(calls: seq<Call>) {
    forall i :: 0 <= i < |calls| ==> calls[i].start == End(calls[..i])
  }

  /** The length of a frame at the nominal rate, in milliseconds. */
  function Nominal(rate: nat): nat
    requires rate > 0
  {
    1000 / rate
  }

  /** Every fifteen times rate images the encoder is told to make a key frame. */
  predicate KeyDue(i: nat, rate: nat)
    requires rate > 0
  {
    i % (15 * rate) == 0
  }

  /** The first image lasts one frame of the nominal rate; every other one lasts as long as the clock has run
      since the one before, and at least a nominal frame unless it was forced out. */
  predicate Paced(calls: seq<Call>, rate: nat)
    requires rate > 0
  {
    && (|calls| > 0 ==> calls[0].duration == Nominal(rate))
    && forall i :: 1 <= i < |calls| ==>
         && calls[i].duration == calls[i].time - calls[i - 1].time > 0
         && (!calls[i].forced ==> calls[i].duration >= Nominal(rate))
  }

  predicate Keyed(calls: seq<Call>, rate: nat)
    requires rate > 0
  {
    forall i :: 0 <= i < |calls| ==> (calls[i].keyFrame <==> KeyDue(i, rate))
  }

  predicate Increasing(stamps: seq<int>) {
    forall i, j :: 0 <= i < j < |stamps| ==> stamps[i] < stamps[j]
  }

  function TotalDuration(calls: seq<Call>): nat {
    if |calls| == 0 then 0 else TotalDuration(calls[..|calls| - 1]) + calls[|calls| - 1].duration
  }

  /** The images cover the timeline without gap or overlap: it is as long as their durations together. */
  lemma {:induction false} DurationsAddUp(calls: seq<Call>)
    requires Tiled(calls)
    ensures End(calls) == TotalDuration(calls)
  {
    if |calls| > 0 {
      var rest := calls[..|calls| - 1];
      forall i | 0 <= i < |rest| ensures rest[i].start == End(rest[..i]) {
        assert rest[..i] == calls[..i];
      }
      DurationsAddUp(rest);
    }
  }

  /** The timeline keeps to the clock: it ends one nominal frame after the time since the first image. */
  lemma {:induction false} EndFollowsClock(calls: seq<Call>, rate: nat)
    requires rate > 0 && Tiled(calls) && Paced(calls, rate) && |calls| > 0
    ensures End(calls) == Nominal(rate) + (calls[|calls| - 1].time - calls[0].time)
  {
    hide *;
    if |calls| > 1 {
      FirstCalls(calls, rate);
      EndFollowsClock(calls[..|calls| - 1], rate);
      EndOfLast(calls);
    } else {
      OnlyCall(calls, rate);
    }
  }

  lemma FirstCalls(calls: seq<Call>, rate: nat)
    requires rate > 0 && Tiled(calls) && Paced(calls, rate) && |calls| > 1
    ensures var rest, last := calls[..|calls| - 1], calls[|calls| - 1];
            && Tiled(rest) && Paced(rest, rate) && rest[0] == calls[0]
            && last.duration == last.time - rest[|rest| - 1].time
  {
    hide End, Nominal;
    var rest := calls[..|calls| - 1];
    forall i | 0 <= i < |rest| ensures rest[i].start == End(rest[..i]) {
      assert rest[..i] == calls[..i];
    }
  }

  lemma OnlyCall(calls: seq<Call>, rate: nat)
    requires rate > 0 && Tiled(calls) && Paced(calls, rate) && |calls| == 1
    ensures End(calls) == Nominal(rate)
  {
    assert calls[..0] == [];
  }

  lemma EndOfLast(calls: seq<Call>)
    requires Tiled(calls) && |calls| > 0
    ensures End(calls) == End(calls[..|calls| - 1]) + calls[|calls| - 1].duration
  {
  }

  /** Every image has a positive duration, and each starts later than the one before, exactly when the
      nominal rate is at most a thousand frames a second (or there are too few images to tell). */
  lemma StartsIncrease(calls: seq<Call>, rate: nat)
    requires rate > 0 && Tiled(calls) && Paced(calls, rate)
    ensures (forall i :: 0 <= i < |calls| ==> calls[i].duration > 0) <==> (|calls| == 0 || rate <= 1000)
    ensures (forall i, j :: 0 <= i < j < |calls| ==> calls[i].start < calls[j].start) <==> (|calls| < 2 || rate <= 1000)
  {
    NominalFrame(rate);
    if |calls| > 0 { assert calls[0].duration > 0 <==> rate <= 1000; }
    if |calls| > 1 && rate > 1000 {
      NextStart(calls, 1);
    }
    if rate <= 1000 {
      forall i, j | 0 <= i < j < |calls| ensures calls[i].start < calls[j].start {
        Later(calls, rate, i, j);
      }
    }
  }

  /** The nominal length is the longest that `rate` frames can all have within a second. */
  lemma NominalIs(rate: nat, time: nat)
    requires rate > 0
    ensures time <= Nominal(rate) <==> time * rate <= 1000
  {
    var q := 1000 / rate;
    assert 1000 == q * rate + 1000 % rate;
    if time <= q { Monotone(time, q, rate); } else { Monotone(q + 1, time, rate); }
  }

  lemma Monotone(a: nat, b: nat, p: nat)
    requires a <= b
    ensures a * p <= b * p
  {
  }

  /** The first image is to be a key frame and then every image that is fifteen seconds of the nominal rate behind one;
      two key frames are never nearer than that. */
  lemma KeysSpaced(calls: seq<Call>, rate: nat)
    requires rate > 0 && Keyed(calls, rate)
    ensures |calls| > 0 ==> calls[0].keyFrame
    ensures forall i :: 0 <= i < |calls| - 15 * rate && calls[i].keyFrame ==> calls[i + 15 * rate].keyFrame
    ensures forall i, j :: 0 <= i < j < |calls| && calls[i].keyFrame && calls[j].keyFrame ==> j - i >= 15 * rate
  {
    var every := 15 * rate;
    forall i | 0 <= i < |calls| - every && calls[i].keyFrame ensures calls[i + every].keyFrame {
      NextMultiple(i, every);
      assert KeyDue(i + every, rate);
    }
    forall i, j | 0 <= i < j < |calls| && calls[i].keyFrame && calls[j].keyFrame ensures j - i >= every {
      assert KeyDue(i, rate) && KeyDue(j, rate);
      Apart(i, j, every);
    }
  }

  lemma NextMultiple(i: nat, d: nat)
    requires d > 0 && i % d == 0
    ensures (i + d) % d == 0
  {
    var q, r := (i + d) / d, (i + d) % d;
    assert i == i / d * d && i + d == q * d + r;
    assert (i / d + 1 - q) * d == i / d * d + d - q * d;
    OnlyZero(i / d + 1 - q, d, r);
  }

  lemma OnlyZero(k: int, d: nat, r: int)
    requires k * d == r && 0 <= r < d
    ensures r == 0
  {
    if k > 0 { Larger(k, d); }
    if k < 0 { Larger(-k, d); }
  }

  lemma Larger(k: nat, d: nat)
    requires k > 0
    ensures k * d >= d
  {
  }

  lemma Apart(i: nat, j: nat, d: nat)
    requires d > 0 && i < j && i % d == 0 && j % d == 0
    ensures j - i >= d
  {
    assert i == i / d * d && j == j / d * d;
    assert (j / d - i / d) * d == j / d * d - i / d * d;
    if j - i < d { OnlyZero(j / d - i / d, d, j - i); }
  }

  lemma NominalFrame(rate: nat)
    requires rate > 0
    ensures Nominal(rate) > 0 <==> rate <= 1000
    ensures rate > 1000 ==> Nominal(rate) == 0
  {
    assert 1000 == 1000 / rate * rate + 1000 % rate;
  }

  lemma NextStart(calls: seq<Call>, i: nat)
    requires Tiled(calls) && 0 < i < |calls|
    ensures calls[i].start == calls[i - 1].start + calls[i - 1].duration
  {
    assert calls[..i][i - 1] == calls[i - 1];
  }

  lemma {:induction false} Later(calls: seq<Call>, rate: nat, i: nat, j: nat)
    requires 0 < rate <= 1000 && Tiled(calls) && Paced(calls, rate) && i < j < |calls|
    ensures calls[i].start < calls[j].start
  {
    NominalFrame(rate);
    NextStart(calls, j);
    if i < j - 1 { Later(calls, rate, i, j - 1); }
  }

  /** The times that the images were given their ends by are readings of the clock, in order; only the last image
      may have a token millisecond instead. */
  predicate Clocked(calls: seq<Call>, readings: seq<nat>) {
    && (forall i :: 0 <= i < |calls| ==>
          if calls[i].at < 0 then 0 < i == |calls| - 1 && calls[i].duration == 1 && calls[i].forced
          else calls[i].at < |readings| && calls[i].time == readings[calls[i].at])
    && forall i, j :: 0 <= i < j < |calls| && calls[j].at >= 0 ==> calls[i].at < calls[j].at
  }

  predicate NoToken(calls: seq<Call>) {
    forall i :: 0 <= i < |calls| ==> calls[i].at >= 0
  }

  /** All that is said of the images granted. */
  predicate Logged(calls: seq<Call>, rate: nat, readings: seq<nat>)
    requires rate > 0
  {
    Tiled(calls) && Paced(calls, rate) && Keyed(calls, rate) && Clocked(calls, readings)
  }

  lemma StillLogged(calls: seq<Call>, rate: nat, readings: seq<nat>, now: nat)
    requires rate > 0 && Logged(calls, rate, readings)
    ensures Logged(calls, rate, readings + [now])
  {
    hide Tiled, Paced, Keyed;
  }

  /** An image that may come next: at the end of the timeline, with the duration it has to have, by the last reading
      of the clock or with a token millisecond. */
  predicate Follows(calls: seq<Call>, call: Call, rate: nat, readings: seq<nat>)
    requires rate > 0
  {
    && call.start == End(calls) && (call.keyFrame <==> KeyDue(|calls|, rate))
    && (if |calls| == 0 then call.duration == Nominal(rate)
        else && call.duration == call.time - calls[|calls| - 1].time > 0
             && (!call.forced ==> call.duration >= Nominal(rate)))
    && if call.at < 0 then |calls| > 0 && call.duration == 1 && call.forced && NoToken(calls)
       else && call.at < |readings| && call.time == readings[call.at]
            && forall i :: 0 <= i < |calls| ==> 0 <= calls[i].at < call.at
  }

  /** A reading just taken is later than all that have been used. */
  lemma ReadingFollows(calls: seq<Call>, call: Call, rate: nat, readings: seq<nat>, now: nat)
    requires rate > 0 && Logged(calls, rate, readings) && NoToken(calls)
    requires call.at == |readings| && call.time == now
    requires call.start == End(calls) && (call.keyFrame <==> KeyDue(|calls|, rate))
    requires if |calls| == 0 then call.duration == Nominal(rate)
             else && call.duration == call.time - calls[|calls| - 1].time > 0
                  && (!call.forced ==> call.duration >= Nominal(rate))
    ensures Logged(calls, rate, readings + [now]) && Follows(calls, call, rate, readings + [now])
  {
    hide Nominal, KeyDue, Tiled, Paced, Keyed, End;
  }

  lemma TokenFollows(calls: seq<Call>, call: Call, rate: nat, readings: seq<nat>)
    requires rate > 0 && |calls| > 0 && NoToken(calls) && call.start == End(calls) &&
             (call.keyFrame <==> KeyDue(|calls|, rate))
    requires call.at == -1 && call.duration == 1 && call.forced && call.time == calls[|calls| - 1].time + 1
    ensures Follows(calls, call, rate, readings)
  {
  }

  /** What may come next is what the encoder may be asked for next. */
  lemma FollowsAsked(before: seq<Request>, calls: seq<Call>, call: Call, r: Request, rate: nat, readings: seq<nat>)
    requires rate > 0 && Follows(calls, call, rate, readings) && AsksFor(r, call, r.ok)
    requires Granted(before) == |calls| && Length(before) == End(calls)
    ensures AskedAfter(before, r, rate)
  {
  }

  /** One more image at the end. */
  lemma Appended(calls: seq<Call>, call: Call, rate: nat, readings: seq<nat>)
    requires rate > 0 && Logged(calls, rate, readings) && Follows(calls, call, rate, readings)
    ensures Logged(calls + [call], rate, readings)
    ensures End(calls + [call]) == call.start + call.duration
  {
    AppendTiled(calls, call);
    AppendPaced(calls, call, rate);
    AppendKeyed(calls, call, rate);
    AppendClocked(calls, call, readings);
    hide Nominal, KeyDue, Tiled, Paced, Keyed, Clocked;
  }

  lemma AppendClocked(calls: seq<Call>, call: Call, readings: seq<nat>)
    requires Clocked(calls, readings)
    requires if call.at < 0 then |calls| > 0 && call.duration == 1 && call.forced && NoToken(calls)
             else && call.at < |readings| && call.time == readings[call.at]
                  && forall i :: 0 <= i < |calls| ==> 0 <= calls[i].at < call.at
    ensures Clocked(calls + [call], readings)
  {
  }

  lemma AppendTiled(calls: seq<Call>, call: Call)
    requires Tiled(calls) && call.start == End(calls)
    ensures Tiled(calls + [call])
  {
    var more := calls + [call];
    forall i | 0 <= i < |more| ensures more[i].start == End(more[..i]) {
      assert more[..i] == if i < |calls| then calls[..i] else calls;
    }
  }

  lemma AppendPaced(calls: seq<Call>, call: Call, rate: nat)
    requires rate > 0 && Paced(calls, rate)
    requires if |calls| == 0 then call.duration == Nominal(rate)
             else && call.duration == call.time - calls[|calls| - 1].time > 0
                  && (!call.forced ==> call.duration >= Nominal(rate))
    ensures Paced(calls + [call], rate)
  {
    hide Nominal;
  }

  lemma AppendKeyed(calls: seq<Call>, call: Call, rate: nat)
    requires rate > 0 && Keyed(calls, rate) && (call.keyFrame <==> KeyDue(|calls|, rate))
    ensures Keyed(calls + [call], rate)
  {
    hide KeyDue;
  }

  // ----- what the encoder and the muxer are given

  /** The number of calls that the encoder has granted, and the sum of their durations. */
  function Granted(requests: seq<Request>): nat {
    if |requests| == 0 then 0
    else Granted(requests[..|requests| - 1]) + if requests[|requests| - 1].ok then 1 else 0
  }

  function Length(requests: seq<Request>): nat {
    if |requests| == 0 then 0
    else Length(requests[..|requests| - 1]) + if requests[|requests| - 1].ok then requests[|requests| - 1].duration
        else 0
  }

  /** The images it has granted. */
  function ImagesOf(requests: seq<Request>): seq<Request> {
    if |requests| == 0 then []
    else
      var last := requests[|requests| - 1];
      ImagesOf(requests[..|requests| - 1]) + if last.ok && last.image.Picture? then [last] else []
  }

  /** A call after these: the key frame is asked for by the number of those granted; an image starts where they
      end and has a positive duration, the first one a nominal frame; without an image a token millisecond is
      asked for. */
  predicate AskedAfter(before: seq<Request>, r: Request, rate: nat)
    requires rate > 0
  {
    && (r.keyFrame <==> KeyDue(Granted(before), rate))
    && match r.image
       case NoImage => r.start == -1 && r.duration == 1
       case Picture(_) =>
         r.start == Length(before) && if Granted(before) == 0 then r.duration == Nominal(rate) else r.duration > 0
  }

  /** All calls, granted or refused, are made as they should be. */
  predicate Asked(requests: seq<Request>, rate: nat)
    requires rate > 0
  {
    forall i :: 0 <= i < |requests| ==> AskedAfter(requests[..i], requests[i], rate)
  }

  lemma OneMoreRequest(requests: seq<Request>, r: Request)
    ensures Granted(requests + [r]) == Granted(requests) + if r.ok then 1 else 0
    ensures Length(requests + [r]) == Length(requests) + if r.ok then r.duration else 0
    ensures FrameTimes(requests + [r]) == if r.ok then FrameTimes(requests) + TimesOf(r.packets)
            else FrameTimes(requests)
  {
    assert (requests + [r])[..|requests|] == requests;
  }

  lemma AskedMore(requests: seq<Request>, r: Request, rate: nat)
    requires rate > 0 && Asked(requests, rate) && AskedAfter(requests, r, rate)
    ensures Asked(requests + [r], rate)
    ensures ImagesOf(requests + [r]) == if r.ok &&
            r.image.Picture? then ImagesOf(requests) + [r] else ImagesOf(requests)
  {
    hide AskedAfter;
    var more := requests + [r];
    assert more[..|requests|] == requests;
    forall i | 0 <= i < |more| ensures AskedAfter(more[..i], more[i], rate) {
      assert more[..i] == if i < |requests| then requests[..i] else requests;
    }
  }

  /** Every image that was asked for, granted or not, has a positive duration, exactly when the nominal rate is at
      most a thousand frames a second (or there was no attempt at a first image). */
  lemma AllPositive(requests: seq<Request>, rate: nat)
    requires rate > 0 && Asked(requests, rate)
    ensures (forall r :: r in requests && r.image.Picture? ==> r.duration > 0) <==>
            (rate <= 1000 || forall i :: 0 <= i < |requests| && requests[i].image.Picture? ==>
             Granted(requests[..i]) > 0)
  {
    NominalFrame(rate);
    hide Nominal, KeyDue;
    forall i | 0 <= i < |requests| && requests[i].image.Picture?
      ensures requests[i].duration > 0 <==> rate <= 1000 || Granted(requests[..i]) > 0 {
      assert AskedAfter(requests[..i], requests[i], rate);
    }
  }

  lemma DrainAsked(before: seq<Request>, r: Request, rate: nat)
    requires rate > 0 && r.image == NoImage && r.start == -1 && r.duration == 1 &&
             (r.keyFrame <==> KeyDue(Granted(before), rate))
    ensures AskedAfter(before, r, rate)
  {
  }

  /** The recorder's log of images is what the encoder has been given and has granted. */
  predicate Matches(calls: seq<Call>, images: seq<Request>) {
    |calls| == |images|
    && forall i :: 0 <= i < |calls| ==>
         && images[i].image == Picture(calls[i].image) && images[i].start == calls[i].start
         && images[i].duration == calls[i].duration && images[i].keyFrame == calls[i].keyFrame
  }

  /** Every image granted has a positive duration, and starts later than those before it, exactly when the nominal
      rate is at most a thousand frames a second (or there are too few of them to tell). */
  lemma ImagesIncrease(calls: seq<Call>, images: seq<Request>, rate: nat)
    requires rate > 0 && Tiled(calls) && Paced(calls, rate) && Matches(calls, images)
    ensures (forall i :: 0 <= i < |images| ==> images[i].duration > 0) <==> (|images| == 0 || rate <= 1000)
    ensures (forall i, j :: 0 <= i < j < |images| ==> images[i].start < images[j].start) <==>
            (|images| < 2 || rate <= 1000)
  {
    StartsIncrease(calls, rate);
    hide Tiled, Paced;
    assert forall i :: 0 <= i < |calls| ==>
                         images[i].duration == calls[i].duration && images[i].start == calls[i].start;
    assert forall i :: 0 <= i < |calls| ==>
                         calls[i].duration == images[i].duration && calls[i].start == images[i].start;
  }

  lemma MatchesMore(calls: seq<Call>, images: seq<Request>, call: Call, r: Request)
    requires Matches(calls, images) && AsksFor(r, call, true)
    ensures Matches(calls + [call], images + [r])
  {
  }

  /** A call of the encoder for this image. */
  predicate AsksFor(r: Request, call: Call, granted: bool) {
    r == Request(Picture(call.image), call.start, call.duration, call.keyFrame, granted, r.packets)
  }

  /** The times on the frames among some packets. */
  function TimesOf(packets: seq<Packet>): seq<int> {
    if |packets| == 0 then []
    else
      var last := packets[|packets| - 1];
      TimesOf(packets[..|packets| - 1]) + if last.isFrame then [last.pts] else []
  }

  lemma TimesMore(packets: seq<Packet>, i: nat, before: seq<int>)
    requires i < |packets|
    ensures before + TimesOf(packets[..i + 1])
         == if packets[i].isFrame then before + TimesOf(packets[..i]) + [packets[i].pts]
             else before + TimesOf(packets[..i])
  {
    assert packets[..i + 1][..i] == packets[..i];
  }

  lemma NoTimes(packets: seq<Packet>, times: seq<int>)
    ensures times + TimesOf(packets[..0]) == times
  {
  }

  /** The times on all frames the encoder has handed out, in order. */
  function FrameTimes(requests: seq<Request>): seq<int> {
    if |requests| == 0 then []
    else
      var last := requests[|requests| - 1];
      FrameTimes(requests[..|requests| - 1]) + if last.ok then TimesOf(last.packets) else []
  }

  /** The time of a block: that of its packet, or a millisecond after the block before it. */
  function StampAfter(last: int, pts: int): int {
    if pts * 1000000 > last then pts * 1000000 else last + 1000000
  }

  function LastStamp(times: seq<int>): int {
    if |times| == 0 then 0 else StampAfter(LastStamp(times[..|times| - 1]), times[|times| - 1])
  }

  /** One block for every frame, in order. */
  function Stamps(times: seq<int>): (stamps: seq<int>)
    ensures |stamps| == |times|
  {
    if |times| == 0 then [] else Stamps(times[..|times| - 1]) + [LastStamp(times)]
  }

  lemma StampsMore(times: seq<int>, pts: int)
    ensures Stamps(times + [pts]) == Stamps(times) + [StampAfter(LastStamp(times), pts)]
    ensures LastStamp(times + [pts]) == StampAfter(LastStamp(times), pts)
  {
    assert (times + [pts])[..|times|] == times;
  }

  /** Whatever times the encoder puts on its packets, the times of the blocks strictly increase. */
  lemma {:induction false} StampsIncrease(times: seq<int>)
    ensures Increasing(Stamps(times)) && LastStamp(times) >= 0
    ensures forall i :: 0 <= i < |times| ==> 0 < Stamps(times)[i] <= LastStamp(times)
  {
    if |times| > 0 { StampsIncrease(times[..|times| - 1]); }
  }

  /** A block is never earlier than its packet, and a later one stands a millisecond after the block before it. */
  predicate StampFits(stamp: int, before: int, pts: int) {
    stamp >= pts * 1000000 && (stamp != pts * 1000000 ==> stamp == before + 1000000)
  }

  function StampBefore(stamps: seq<int>, i: nat): int
    requires i <= |stamps|
  {
    if i == 0 then 0 else stamps[i - 1]
  }

  /** What the muxer's times are to those of the packets; positive ones in strict order are kept. */
  predicate OnTime(times: seq<int>, stamps: seq<int>) {
    && |stamps| == |times|
    && (forall i :: 0 <= i < |times| ==> StampFits(stamps[i], StampBefore(stamps, i), times[i]))
    && (AllPositiveTimes(times) && Increasing(times) ==>
          forall i :: 0 <= i < |times| ==> stamps[i] == times[i] * 1000000)
  }

  predicate AllPositiveTimes(times: seq<int>) {
    forall i :: 0 <= i < |times| ==> times[i] > 0
  }

  lemma {:induction false} StampsOnTime(times: seq<int>)
    ensures OnTime(times, Stamps(times))
    ensures LastStamp(times) == if times == [] then 0 else Stamps(times)[|times| - 1]
  {
    if |times| > 0 {
      var n := |times| - 1;
      StampsOnTime(times[..n]);
      assert Stamps(times) == Stamps(times[..n]) + [LastStamp(times)];
      assert LastStamp(times) == StampAfter(LastStamp(times[..n]), times[n]);
      hide Stamps, LastStamp;
      OneMoreOnTime(times[..n], Stamps(times[..n]), LastStamp(times[..n]), times[n]);
      assert times == times[..n] + [times[n]];
    }
  }

  lemma OneMoreOnTime(times: seq<int>, stamps: seq<int>, last: int, pts: int)
    requires OnTime(times, stamps) && last == if times == [] then 0 else stamps[|times| - 1]
    ensures OnTime(times + [pts], stamps + [StampAfter(last, pts)])
  {
    var more, now, stamp := times + [pts], stamps + [StampAfter(last, pts)], StampAfter(last, pts);
    NextFits(last, pts);
    if AllPositiveTimes(more) && Increasing(more) {
      FirstTimes(times, pts);
      assert pts * 1000000 > last by {
        if times != [] { assert stamps[|times| - 1] == times[|times| - 1] * 1000000; }
      }
      forall i | 0 <= i < |more| ensures now[i] == more[i] * 1000000 {
        if i < |times| { assert now[i] == stamps[i] && more[i] == times[i]; }
      }
    }
    hide StampAfter;
    forall i | 0 <= i < |more| ensures StampFits(now[i], StampBefore(now, i), more[i]) {
      if i < |times| {
        assert StampFits(stamps[i], StampBefore(stamps, i), times[i]);
      } else {
        assert StampFits(stamp, last, pts);
      }
    }
  }

  lemma NextFits(last: int, pts: int)
    ensures StampFits(StampAfter(last, pts), last, pts)
    ensures pts * 1000000 > last ==> StampAfter(last, pts) == pts * 1000000
  {
  }

  lemma FirstTimes(times: seq<int>, pts: int)
    requires AllPositiveTimes(times + [pts]) && Increasing(times + [pts])
    ensures AllPositiveTimes(times) && Increasing(times) && pts > 0 && (times != [] ==> times[|times| - 1] < pts)
  {
    var more := times + [pts];
    assert more[|times|] == pts;
    forall i | 0 <= i < |times| ensures times[i] == more[i] { }
  }

  /** Where a packet is: the request that brought it, and its number among those. */
  datatype Place = Place(request: nat, packet: nat)

  predicate IsFrameAt(requests: seq<Request>, p: Place) {
    && p.request < |requests| && requests[p.request].ok && p.packet < |requests[p.request].packets|
    && requests[p.request].packets[p.packet].isFrame
  }

  predicate Before(p: Place, q: Place) {
    p.request < q.request || (p.request == q.request && p.packet < q.packet)
  }

  /** The times are those of the frames handed out before `end`, each once and in order. */
  ghost predicate TimesFrom(requests: seq<Request>, end: Place, times: seq<int>, places: seq<Place>) {
    && |places| == |times|
    && (forall i :: 0 <= i < |places| ==>
          && IsFrameAt(requests, places[i]) && Before(places[i], end)
          && times[i] == requests[places[i].request].packets[places[i].packet].pts)
    && (forall i, j :: 0 <= i < j < |places| ==> Before(places[i], places[j]))
    && forall p :: IsFrameAt(requests, p) && Before(p, end) ==> p in places
  }

  lemma {:induction false} FramesUpTo(requests: seq<Request>, n: nat, k: nat) returns (places: seq<Place>)
    requires n <= |requests| && (k > 0 ==> n < |requests| && requests[n].ok && k <= |requests[n].packets|)
    ensures TimesFrom(requests, Place(n, k), TimesUpTo(requests, n, k), places)
    decreases n, k
  {
    hide TimesFrom, FrameTimes, TimesOf;
    if k > 0 {
      places := FramesUpTo(requests, n, k - 1);
      var packets, times := requests[n].packets, TimesUpTo(requests, n, k - 1);
      NoTimes(packets, FrameTimes(requests[..n]));
      TimesMore(packets, k - 1, FrameTimes(requests[..n]));
      NextFrame(requests, n, k - 1, times, places);
      if packets[k - 1].isFrame { places := places + [Place(n, k - 1)]; }
    } else if n == 0 {
      NothingFrom(requests);
      places := [];
    } else {
      var last := requests[n - 1];
      OneMoreRequest(requests[..n - 1], last);
      assert requests[..n] == requests[..n - 1] + [last];
      assert last.packets[..|last.packets|] == last.packets;
      NoTimes(last.packets, FrameTimes(requests[..n - 1]));
      places := FramesUpTo(requests, n - 1, if last.ok then |last.packets| else 0);
      NextRequest(requests, n, TimesUpTo(requests, n, 0), places);
    }
  }

  function TimesUpTo(requests: seq<Request>, n: nat, k: nat): seq<int>
    requires n <= |requests| && (k > 0 ==> n < |requests| && k <= |requests[n].packets|)
  {
    if k == 0 then FrameTimes(requests[..n]) else FrameTimes(requests[..n]) + TimesOf(requests[n].packets[..k])
  }

  lemma NothingFrom(requests: seq<Request>)
    ensures TimesFrom(requests, Place(0, 0), TimesUpTo(requests, 0, 0), [])
  {
  }

  lemma NextFrame(requests: seq<Request>, n: nat, k: nat, times: seq<int>, places: seq<Place>)
    requires n < |requests| && requests[n].ok && k < |requests[n].packets|
    requires TimesFrom(requests, Place(n, k), times, places)
    ensures var p := requests[n].packets[k];
            TimesFrom(requests, Place(n, k + 1), if p.isFrame then times + [p.pts] else times,
                      if p.isFrame then places + [Place(n, k)] else places)
  {
    if requests[n].packets[k].isFrame { assert (places + [Place(n, k)])[|places|] == Place(n, k); }
    forall p | IsFrameAt(requests, p) && Before(p, Place(n, k + 1)) ensures p == Place(n, k) || p in places {
      assert p == Place(n, k) || Before(p, Place(n, k));
    }
  }

  lemma NextRequest(requests: seq<Request>, n: nat, times: seq<int>, places: seq<Place>)
    requires 0 < n <= |requests|
    requires TimesFrom(requests, Place(n - 1, if requests[n - 1].ok then |requests[n - 1].packets| else 0), times,
                       places)
    ensures TimesFrom(requests, Place(n, 0), times, places)
  {
    var end := Place(n - 1, if requests[n - 1].ok then |requests[n - 1].packets| else 0);
    forall p | IsFrameAt(requests, p) && Before(p, Place(n, 0)) ensures p in places { assert Before(p, end); }
  }

  /** One time for every frame that the encoder has handed out with success, in their order. */
  lemma FrameTimesAre(requests: seq<Request>) returns (places: seq<Place>)
    ensures TimesFrom(requests, Place(|requests|, 0), FrameTimes(requests), places)
    ensures forall p :: IsFrameAt(requests, p) ==> p in places
  {
    places := FramesUpTo(requests, |requests|, 0);
    assert requests[..|requests|] == requests;
    forall p | IsFrameAt(requests, p) ensures p in places { assert Before(p, Place(|requests|, 0)); }
  }

  // ----- from the pictures given to the images asked for

  /** The pictures there are, in order. */
  function Present(pictures: seq<(int, bool)>): seq<int> {
    if |pictures| == 0 then []
    else
      var last := pictures[|pictures| - 1];
      Present(pictures[..|pictures| - 1]) + if last.1 then [last.0] else []
  }

  /** Every image asked for is one of the pictures given, the one numbered `from`; they are asked for in the order they
      came, and one that has been granted never again. */
  predicate Shown(given: seq<int>, asked: seq<Request>, from: seq<nat>) {
    && |from| == |asked|
    && (forall i :: 0 <= i < |asked| && asked[i].image.Picture? ==>
          from[i] < |given| && asked[i].image == Picture(given[from[i]]))
    && forall i, j :: 0 <= i < j < |asked| && asked[i].image.Picture? && asked[j].image.Picture? ==>
         from[i] <= from[j] && (asked[i].ok ==> from[i] < from[j])
  }

  /** The picture numbered `n` has been asked for. */
  predicate AskedFor(asked: seq<Request>, from: seq<nat>, n: nat) {
    |from| == |asked| && exists i :: 0 <= i < |asked| && asked[i].image.Picture? && from[i] == n
  }

  /** The last picture waits and has not been granted, or it has been asked for. */
  predicate InHand(given: seq<int>, asked: seq<Request>, from: seq<nat>, pending: bool, img: int) {
    && Shown(given, asked, from)
    && (pending ==>
          && given != [] && img == given[|given| - 1]
          && forall i :: 0 <= i < |asked| && asked[i].image.Picture? && asked[i].ok ==> from[i] < |given| - 1)
    && (!pending && given != [] ==> AskedFor(asked, from, |given| - 1))
  }

  /** The picture that waits is asked for. */
  lemma WaitingAsked(given: seq<int>, asked: seq<Request>, from: seq<nat>, img: int, r: Request)
    requires InHand(given, asked, from, true, img) && r.image == Picture(img)
    ensures given != [] && InHand(given, asked + [r], from + [|given| - 1], !r.ok, img)
    ensures AskedFor(asked + [r], from + [|given| - 1], |given| - 1)
  {
    var more, now := asked + [r], from + [|given| - 1];
    assert more[|asked|] == r && now[|asked|] == |given| - 1;
  }

  /** Another picture comes and takes the place of one that waits. */
  lemma PictureComes(given: seq<int>, asked: seq<Request>, from: seq<nat>, pending: bool, img: int, picture: int)
    requires InHand(given, asked, from, pending, img)
    ensures InHand(given + [picture], asked, from, true, picture)
  {
  }

  lemma Laid(given: seq<int>, asked: seq<Request>, from: seq<nat>, pending: bool, img: int)
    requires InHand(given, asked, from, pending, img)
    ensures Shown(given, asked, from) && (!pending && given != [] ==> AskedFor(asked, from, |given| - 1))
  {
  }

  /** A picture that has been asked for need not wait. */
  lemma NotWaiting(given: seq<int>, asked: seq<Request>, from: seq<nat>, pending: bool, img: int)
    requires InHand(given, asked, from, pending, img) && given != [] && AskedFor(asked, from, |given| - 1)
    ensures InHand(given, asked, from, false, img)
  {
  }

  lemma OneMorePicture(pictures: seq<(int, bool)>, i: nat)
    requires i < |pictures|
    ensures Present(pictures[..i + 1]) == Present(pictures[..i]) + if pictures[i].1 then [pictures[i].0] else []
  {
    assert pictures[..i + 1][..i] == pictures[..i];
  }

  lemma NoneAsked(given: seq<int>, asked: seq<Request>, from: seq<nat>, n: nat, more: seq<Request>)
    requires Shown(given, asked, from) && forall i :: 0 <= i < |more| ==> more[i].image == NoImage
    ensures Shown(given, asked + more, from + seq(|more|, _ => 0))
    ensures AskedFor(asked, from, n) ==> AskedFor(asked + more, from + seq(|more|, _ => 0), n)
  {
    var all, now := asked + more, from + seq(|more|, _ => 0);
    assert forall i :: 0 <= i < |asked| ==> all[i] == asked[i] && now[i] == from[i];
    if AskedFor(asked, from, n) {
      var i :| 0 <= i < |asked| && asked[i].image.Picture? && from[i] == n;
      assert all[i].image.Picture? && now[i] == n;
    }
  }

  // ----- the encoder, the clock and the muxer

  /** An encoder that may fail, and that may hold packets back for a while. */
  class Codec {
    var delayed: nat
    /** Every call it has been given. */
    ghost var requests: seq<Request>

    constructor ()
      ensures requests == []
    {
      delayed, requests := 0, [];
    }

    /** Without an image it hands out what it still holds, until there is nothing left. */
    method Encode(image: Image, start: int, duration: nat, keyFrame: bool) returns (ok: bool, packets: seq<Packet>)
      modifies this
      ensures requests == old(requests) + [Request(image, start, duration, keyFrame, ok, packets)]
      ensures image.NoImage? && ok && |packets| > 0 ==> delayed < old(delayed)
    {
      ok, packets := *, *;
      if image.Picture? {
        delayed := *;
      } else if delayed == 0 {
        packets := [];
      } else {
        delayed := delayed - 1;
      }
      requests := requests + [Request(image, start, duration, keyFrame, ok, packets)];
    }
  }

  /** A clock that may stand still or run backwards. */
  class TimeSource {
    ghost var readings: seq<nat>

    constructor ()
      ensures readings == []
    {
      readings := [];
    }

    method Get() returns (now: nat)
      modifies this
      ensures readings == old(readings) + [now]
    {
      now := *;
      readings := readings + [now];
    }
  }

  /** The muxer's ordering check; a frame it lets pass may still fail for other reasons. */
  class Segment {
    var lastTimestamp: int
    /** Every time it has been given, and whether one of them failed the check. */
    ghost var stamps: seq<int>
    ghost var misordered: bool

    constructor ()
      ensures lastTimestamp == 0 && stamps == [] && !misordered
    {
      lastTimestamp, stamps, misordered := 0, [], false;
    }

    method AddFrame(timestamp: int) returns (ok: bool)
      modifies this
      ensures stamps == old(stamps) + [timestamp]
      ensures misordered == (old(misordered) || timestamp < old(lastTimestamp))
      ensures timestamp < old(lastTimestamp) ==> !ok
      ensures lastTimestamp == if ok then timestamp else old(lastTimestamp)
    {
      stamps := stamps + [timestamp];
      if timestamp < lastTimestamp {
        misordered := true;
        return false;
      }
      ok := *;
      if ok { lastTimestamp := timestamp; }
    }
  }

  // ----- the recorder

  class Recorder {
    const frameRate: nat
    const codec: Codec
    const clock: TimeSource
    const segment: Segment
    var frameCount: nat
    var firstEncodeTime: nat
    var lastEncodeTime: nat
    var pts: int
    var lastPtsNs: int
    var pendingFrame: bool
    /** The picture in the image buffer: the one that came last. */
    var img: int
    /** The images granted so far, each with the clock it was given its end by. */
    ghost var calls: seq<Call>

    constructor (frameRate: nat)
      requires frameRate > 0
      ensures Valid() && Timed() && fresh(codec) && fresh(clock) && fresh(segment)
      ensures codec.requests == [] && segment.stamps == [] && calls == []
    {
      this.frameRate := frameRate;
      codec := new Codec();
      clock := new TimeSource();
      segment := new Segment();
      frameCount, firstEncodeTime, lastEncodeTime, pts, lastPtsNs := 0, 0, 0, 0, 0;
      pendingFrame, img := false, 0;
      calls := [];
    }

    /** The counters agree with the calls granted, and the muxer has been given one block for every frame the
        encoder handed out, none of them out of order. */
    ghost predicate Steady()
      reads this, codec, segment
    {
      && frameRate > 0
      && frameCount == Granted(codec.requests) && pts == Length(codec.requests)
      && Stamping(FrameTimes(codec.requests))
    }

    /** The muxer has been given the blocks of these frames. */
    ghost predicate Stamping(times: seq<int>)
      reads `lastPtsNs, segment
    {
      && segment.stamps == Stamps(times) && lastPtsNs == LastStamp(times)
      && 0 <= segment.lastTimestamp <= lastPtsNs && !segment.misordered
    }

    /** Holds all the time: the encoder has been called as it should, and the images it has granted are logged. */
    ghost predicate Valid()
      reads this, codec, segment
    {
      Steady() && Asked(codec.requests, frameRate) && Matches(calls, ImagesOf(codec.requests))
    }

    /** Holds until the encoder is drained: the images granted keep time with the clock. */
    ghost predicate Timed()
      reads this, clock
    {
      && frameRate > 0
      && Logged(calls, frameRate, clock.readings)
      && frameCount == |calls| && pts == End(calls)
      && (|calls| == 0 ==> !pendingFrame)
      && (|calls| > 0 ==>
            && firstEncodeTime == calls[0].time && lastEncodeTime == calls[|calls| - 1].time
            && (!pendingFrame ==> calls[|calls| - 1].image == img))
      && NoToken(calls)
    }

    /** The clock keeps time with the images: what the counters alone say. */
    lemma PtsFollowsClock()
      requires Timed() && frameCount > 0
      ensures pts == Nominal(frameRate) + (lastEncodeTime - firstEncodeTime)
    {
      EndFollowsClock(calls, frameRate);
    }

    /** Whatever time the packet carries, its block comes after the one before, but not before the packet. */
    method WriteBlock(pkt: Packet, ghost times: seq<int>)
      requires Stamping(times)
      modifies this`lastPtsNs, segment
      ensures Stamping(times + [pkt.pts])
      ensures segment.stamps == old(segment.stamps) + [lastPtsNs]
      ensures lastPtsNs == if pkt.pts * 1000000 > old(lastPtsNs) then pkt.pts * 1000000 else old(lastPtsNs) + 1000000
    {
      StampsMore(times, pkt.pts);
      var ptsNs := pkt.pts * 1000000;
      if ptsNs <= lastPtsNs {
        ptsNs := lastPtsNs + 1000000;
      }
      lastPtsNs := ptsNs;
      var _ := segment.AddFrame(ptsNs);
    }

    /** Puts an image to the encoder, or drains it, and writes the packets there are.  Answers -1 when the
        encoder fails, and otherwise whether there were packets. */
    method EncodeImage(image: Image, start: int, duration: nat) returns (got: int, ghost r: Request)
      requires Steady()
      modifies this`pts, this`frameCount, this`lastPtsNs, codec, segment
      ensures Steady() && codec.requests == old(codec.requests) + [r]
      ensures r == Request(image, start, duration, KeyDue(old(frameCount), frameRate), got >= 0, r.packets)
      ensures got == if !r.ok then -1 else if r.packets == [] then 0 else 1
      ensures pts == old(pts) + (if r.ok then duration else 0) && frameCount == old(frameCount) + if r.ok then 1 else 0
      ensures image.NoImage? && got == 1 ==> codec.delayed < old(codec.delayed)
    {
      hide Nominal, Stamps, LastStamp, TimesOf, FrameTimes, Granted, Length;
      ghost var before := codec.requests;
      var keyFrameEvery := 15 * frameRate;
      var forceKey := frameCount % keyFrameEvery == 0;
      var ok, packets := codec.Encode(image, start, duration, forceKey);
      r := Request(image, start, duration, forceKey, ok, packets);
      OneMoreRequest(before, r);
      if !ok { return -1, r; }
      got := 0;
      NoTimes(packets, FrameTimes(before));
      for i := 0 to |packets|
        modifies this`lastPtsNs, segment
        invariant Stamping(FrameTimes(before) + TimesOf(packets[..i])) && got == if i == 0 then 0 else 1
      {
        got := 1;
        TimesMore(packets, i, FrameTimes(before));
        if packets[i].isFrame {
          WriteBlock(packets[i], FrameTimes(before) + TimesOf(packets[..i]));
        }
      }
      assert packets[..|packets|] == packets;
      pts := pts + duration;
      frameCount := frameCount + 1;
    }

    /** A flush at a clock reading does nothing: no time has passed, or not enough for one that is not forced. */
    ghost predicate NotDue(now: nat, force: bool)
      requires frameRate > 0
      reads this
    {
      now <= lastEncodeTime || (!force && now - lastEncodeTime < Nominal(frameRate))
    }

    /** In numbers: with a frame a millisecond longer than the time that has passed, `frameRate` frames still fit a
        second. */
    lemma NotDueIs(now: nat, force: bool)
      requires frameRate > 0
      ensures NotDue(now, force) <==>
              now <= lastEncodeTime || (!force && (now - lastEncodeTime + 1) * frameRate <= 1000)
    {
      if now > lastEncodeTime { NominalIs(frameRate, now - lastEncodeTime + 1); }
      hide Nominal;
    }

    /** What a flush at that reading encodes: the pending image, for the time since the one before it. */
    ghost function FlushCall(now: nat, at: nat, force: bool): Call
      requires frameRate > 0 && !NotDue(now, force)
      reads this
    {
      Call(img, pts, now - lastEncodeTime, now, at, force, KeyDue(frameCount, frameRate))
    }

    /** The first image lasts a nominal frame. */
    ghost function FirstCall(image: int, now: nat, at: nat): Call
      requires frameRate > 0
      reads this
    {
      Call(image, pts, Nominal(frameRate), now, at, false, KeyDue(frameCount, frameRate))
    }

    /** The last image lasts a token millisecond when the clock has not moved. */
    ghost function TokenCall(): Call
      requires frameRate > 0
      reads this
    {
      Call(img, pts, 1, lastEncodeTime + 1, -1, true, KeyDue(frameCount, frameRate))
    }

    /** What is encoded at the end when an image is pending. */
    ghost function LastCall(now: nat, at: nat): Call
      requires frameRate > 0
      reads this
    {
      if NotDue(now, true) then TokenCall() else FlushCall(now, at, true)
    }

    /** The encoder has been asked once for this image, and the image is logged when it was granted. */
    twostate predicate Tried(call: Call, granted: bool)
      reads this, codec
    {
      && |codec.requests| == |old(codec.requests)| + 1 && codec.requests[..|old(codec.requests)|] == old(codec.requests)
      && AsksFor(codec.requests[|old(codec.requests)|], call, granted)
      && calls == if granted then old(calls) + [call] else old(calls)
    }

    twostate predicate NotTried()
      reads this, codec
    {
      codec.requests == old(codec.requests) && calls == old(calls)
    }

    /** Encodes an image and logs it. */
    method Try(ghost call: Call, duration: nat) returns (got: int)
      requires Valid() && NoToken(calls) && frameCount == |calls| && pts == End(calls) &&
               Logged(calls, frameRate, clock.readings)
      requires call.image == img && call.start == pts && call.duration == duration &&
               (call.keyFrame <==> KeyDue(frameCount, frameRate))
      requires Follows(calls, call, frameRate, clock.readings)
      modifies this`pts, this`frameCount, this`lastPtsNs, this`calls, codec, segment
      ensures Valid() && Tried(call, got >= 0)
      ensures Logged(calls, frameRate, clock.readings) && frameCount == |calls| && pts == End(calls)
    {
      hide Nominal, KeyDue, Tiled, Paced, Keyed, Clocked, End, Asked, Granted, Length, ImagesOf, FrameTimes, Stamps,
           LastStamp, Matches, Follows;
      ghost var before, logged := codec.requests, calls;
      ghost var r;
      got, r := EncodeImage(Picture(img), pts, duration);
      FollowsAsked(before, calls, call, r, frameRate, clock.readings);
      AskedMore(before, r, frameRate);
      if got >= 0 {
        MatchesMore(calls, ImagesOf(before), call, r);
        Appended(calls, call, frameRate, clock.readings);
        calls := calls + [call];
      }
    }

    /** Gives the pending image its duration and encodes it, if the clock has moved far enough. */
    method EncodePendingFrame(force: bool) returns (result: int, ghost reading: nat)
      requires Valid() && Timed() && pendingFrame
      modifies this`pts, this`frameCount, this`lastPtsNs, this`calls, this`lastEncodeTime, this`pendingFrame, codec,
               clock, segment
      ensures Valid() && Timed() && img == old(img)
      ensures -1 <= result <= 1 && (result == 1 <==> !pendingFrame)
      ensures clock.readings == old(clock.readings) + [reading]
      ensures result == 0 <==> old(NotDue(reading, force))
      ensures result == 0 <==>
              reading <= old(lastEncodeTime) || (!force && (reading - old(lastEncodeTime) + 1) * frameRate <= 1000)
      ensures if result == 0 then NotTried() else Tried(old(FlushCall(reading, |clock.readings|, force)), result == 1)
    {
      hide Nominal, KeyDue, Logged, End, Asked, Granted, Length, ImagesOf, FrameTimes, Stamps, LastStamp, Matches,
           Follows, Stamping;
      var msPerFrame := Nominal(frameRate);
      var now := clock.Get();
      reading := now;
      StillLogged(calls, frameRate, old(clock.readings), now);
      NotDueIs(now, force);
      if now <= lastEncodeTime { return 0, now; }
      var since := now - lastEncodeTime;
      if !force && since < msPerFrame { return 0, now; }
      ghost var call := Call(img, pts, since, now, |old(clock.readings)|, force, KeyDue(frameCount, frameRate));
      ReadingFollows(calls, call, frameRate, old(clock.readings), now);
      var got := Try(call, since);
      if got < 0 { return -1, now; }
      lastEncodeTime := now;
      pendingFrame := false;
      result := 1;
    }

    /** Takes the next picture, or only flushes the pending one when there is none.  `flushed` is what the flush
        answers, and `tried` whether the very first picture was put to the encoder and granted. */
    method Encode(picture: int, present: bool) returns (result: int, ghost flushed: int, ghost reading: nat)
      requires Valid() && Timed()
      modifies this, codec, clock, segment
      ensures Valid() && Timed() && old(calls) <= calls && old(codec.requests) <= codec.requests
      ensures present ==> img == picture && result == 1
      ensures !present ==> img == old(img) && result == 0
      ensures present ==> (pendingFrame <==> |old(calls)| > 0)
      ensures !present ==> (pendingFrame <==> old(pendingFrame) && flushed != 1)
      ensures old(pendingFrame) ==>
                && |clock.readings| == |old(clock.readings)| + 1 && clock.readings[|old(clock.readings)|] == reading
                && (flushed == 0 <==> old(NotDue(reading, !present)))
                && (flushed == 0 <==> reading <= old(lastEncodeTime)
                                      || (present && (reading - old(lastEncodeTime) + 1) * frameRate <= 1000))
                && (if flushed == 0 then NotTried()
                    else Tried(old(FlushCall(reading, |clock.readings|, !present)), flushed == 1))
      ensures !old(pendingFrame) && (|old(calls)| > 0 || !present) ==> NotTried()
      ensures |old(calls)| == 0 && present ==> Tried(old(FirstCall(picture, reading, |clock.readings|)), |calls| == 1)
    {
      hide Nominal, KeyDue, Logged, End, Asked, Granted, Length, ImagesOf, FrameTimes, Stamps, LastStamp, Matches,
           Follows, Stamping;
      flushed, reading := 0, 0;
      ghost var first := |calls| == 0;
      if pendingFrame {
        var done;
        done, reading := EncodePendingFrame(!present);
        flushed := done;
      }
      if !present { return 0, flushed, reading; }
      ghost var now := Take(picture);
      if first { reading := now; }
      return 1, flushed, reading;
    }

    /** Puts a picture into the image buffer, where it waits, unless it is the first: that is encoded at
        once, and lost when the encoder fails. */
    method Take(picture: int) returns (ghost reading: nat)
      requires Valid() && Timed()
      modifies this, codec, clock, segment
      ensures Valid() && Timed() && img == picture
      ensures |old(calls)| > 0 ==> pendingFrame && NotTried() && clock.readings == old(clock.readings)
      ensures |old(calls)| == 0 ==> Tried(old(FirstCall(picture, reading, |clock.readings|)), |calls| == 1)
      ensures |old(calls)| == 0 ==> |calls| <= 1 && !pendingFrame
    {
      hide Nominal, KeyDue, Logged, End, Asked, Granted, Length, ImagesOf, FrameTimes, Stamps, LastStamp, Matches,
           Follows, Stamping;
      img := picture;
      reading := 0;
      if frameCount == 0 {
        var now := clock.Get();
        reading := now;
        ghost var call := Call(img, pts, Nominal(frameRate), now, |old(clock.readings)|, false,
                               KeyDue(frameCount, frameRate));
        ReadingFollows(calls, call, frameRate, old(clock.readings), now);
        var got := Try(call, Nominal(frameRate));
        if got >= 0 {
          firstEncodeTime := now;
          lastEncodeTime := now;
        }
        pendingFrame := false;
      } else {
        pendingFrame := true;
      }
    }

    /** What the encoder and the muxer have been given over a whole recording. */
    ghost predicate Finished()
      reads this, codec, clock, segment
    {
      Valid() && Logged(calls, frameRate, clock.readings)
    }

    /** Encodes the last image, with a token millisecond when the clock has not moved, and drains the
        encoder. */
    method Finalize() returns (ghost reading: nat)
      requires Valid() && Timed()
      modifies this, codec, clock, segment
      ensures Finished() && old(codec.requests) <= codec.requests
      ensures old(pendingFrame) ==>
                && clock.readings == old(clock.readings) + [reading] && |codec.requests| > |old(codec.requests)|
                && var call := old(LastCall(reading, |clock.readings|));
                   && AsksFor(codec.requests[|old(codec.requests)|], call, !pendingFrame)
                   && calls == if pendingFrame then old(calls) else old(calls) + [call]
      ensures !old(pendingFrame) ==> calls == old(calls)
      ensures forall i :: |old(codec.requests)| + (if old(pendingFrame) then 1 else 0) <= i < |codec.requests| ==>
                codec.requests[i].image == NoImage
      ensures |calls| > 0 && !pendingFrame ==> calls[|calls| - 1].image == img == old(img)
    {
      hide Nominal, KeyDue, Logged, End, Asked, Granted, Length, ImagesOf, FrameTimes, Stamps, LastStamp, Matches,
           Follows, Stamping;
      reading := 0;
      if pendingFrame {
        var flushed;
        flushed, reading := EncodePendingFrame(true);
        if flushed == 0 {
          ghost var call := Call(img, pts, 1, lastEncodeTime + 1, -1, true, KeyDue(frameCount, frameRate));
          TokenFollows(calls, call, frameRate, clock.readings);
          var got := Try(call, 1);
          if got >= 0 {
            lastEncodeTime := lastEncodeTime + 1;
            pendingFrame := false;
          }
        }
      }
      Drain();
    }

    /** Asks the encoder for what it still holds until there is nothing more. */
    method Drain()
      requires Valid()
      modifies this`pts, this`frameCount, this`lastPtsNs, codec, segment
      ensures Valid() && old(codec.requests) <= codec.requests
      ensures forall i :: |old(codec.requests)| <= i < |codec.requests| ==> codec.requests[i].image == NoImage
      ensures |codec.requests| > |old(codec.requests)|
      ensures var last := codec.requests[|codec.requests| - 1];
              !last.ok || last.packets == []
    {
      hide Nominal, KeyDue, Asked, Granted, Length, ImagesOf, FrameTimes, Stamps, LastStamp, Matches;
      while true
        invariant Valid() && old(codec.requests) <= codec.requests
        invariant forall i :: |old(codec.requests)| <= i < |codec.requests| ==> codec.requests[i].image == NoImage
        decreases codec.delayed
      {
        ghost var before := codec.requests;
        ghost var r;
        var got;
        got, r := EncodeImage(NoImage, -1, 1);
        DrainAsked(before, r, frameRate);
        AskedMore(before, r, frameRate);
        if got != 1 { break; }
      }
    }

    /** The picture that waits, if there is one. */
    ghost function Waiting(): seq<int>
      reads this
    {
      if pendingFrame then [img] else []
    }

    lemma NothingAsked(pictures: seq<(int, bool)>)
      ensures InHand(Waiting() + Present(pictures[..0]), codec.requests[|codec.requests|..], [], pendingFrame, img)
    {
    }

    /** The next picture, or none; `given` are the pictures that came before, and `from` says which of them have been
        asked for since `base`. */
    method Feed(picture: int, present: bool, ghost base: seq<Request>, ghost given: seq<int>, ghost before: seq<nat>)
        returns (ghost from: seq<nat>)
      requires Valid() && Timed() && base <= codec.requests
      requires InHand(given, codec.requests[|base|..], before, pendingFrame, img)
      modifies this, codec, clock, segment
      ensures Valid() && Timed() && old(calls) <= calls && |calls| <= |old(calls)| + 1
      ensures old(codec.requests) <= codec.requests && base <= codec.requests
      ensures InHand(given + if present then [picture] else [], codec.requests[|base|..], from, pendingFrame, img)
    {
      hide Nominal, KeyDue, Logged, End, Asked, Granted, Length, ImagesOf, FrameTimes, Stamps, LastStamp, Matches,
           Follows, Stamping, InHand, Shown, AskedFor;
      ghost var was, asked, waited, shown := codec.requests, codec.requests[|base|..], pendingFrame, img;
      FirstNotPending();
      var _, flushed, _ := Encode(picture, present);
      from := before;
      assert given + [] == given;
      if codec.requests == was {
        if present { PictureComes(given, asked, from, waited, shown, picture); }
      } else {
        ghost var r := codec.requests[|was|];
        assert codec.requests[|base|..] == asked + [r];
        if waited {
          WaitingAsked(given, asked, from, shown, r);
          from := from + [|given| - 1];
          if present { PictureComes(given, asked + [r], from, !r.ok, shown, picture); }
        } else {
          PictureComes(given, asked, from, waited, shown, picture);
          WaitingAsked(given + [picture], asked, from, picture, r);
          from := from + [|given|];
          NotWaiting(given + [picture], asked + [r], from, !r.ok, picture);
        }
      }
    }

    lemma FirstNotPending()
      requires Timed()
      ensures |calls| == 0 ==> !pendingFrame
    {
    }

    /** The end: the picture that waits is asked for, and the encoder is drained. */
    method Finish(ghost base: seq<Request>, ghost given: seq<int>, ghost before: seq<nat>)
        returns (ghost from: seq<nat>)
      requires Valid() && Timed() && base <= codec.requests
      requires InHand(given, codec.requests[|base|..], before, pendingFrame, img)
      modifies this, codec, clock, segment
      ensures Finished() && old(codec.requests) <= codec.requests && base <= codec.requests
      ensures old(calls) <= calls && |calls| <= |old(calls)| + 1
      ensures Shown(given, codec.requests[|base|..], from)
      ensures given != [] ==> AskedFor(codec.requests[|base|..], from, |given| - 1)
    {
      hide Nominal, KeyDue, Logged, End, Asked, Granted, Length, ImagesOf, FrameTimes, Stamps, LastStamp, Matches,
           Follows, Stamping, InHand, Shown, AskedFor;
      ghost var was, asked, waited, shown := codec.requests, codec.requests[|base|..], pendingFrame, img;
      var _ := Finalize();
      from := before;
      Laid(given, asked, from, waited, shown);
      if waited {
        ghost var r := codec.requests[|was|];
        WaitingAsked(given, asked, from, shown, r);
        asked, from := asked + [r], from + [|given| - 1];
        Laid(given, asked, from, !r.ok, shown);
        was := was + [r];
      }
      ghost var more := codec.requests[|was|..];
      assert codec.requests[|base|..] == asked + more;
      NoneAsked(given, asked, from, if given == [] then 0 else |given| - 1, more);
      from := from + seq(|more|, _ => 0);
    }

    /** A whole recording: any pictures (or none) in any order, and then the end.  `from` says which of the pictures, a
        picture that waits already being the first, each image is that the encoder is asked for; the last one always
        is. */
    method Record(pictures: seq<(int, bool)>) returns (ghost from: seq<nat>)
      requires Valid() && Timed()
      modifies this, codec, clock, segment
      ensures Finished() && old(calls) <= calls && old(codec.requests) <= codec.requests
      ensures |calls| <= |old(calls)| + |pictures| + 1
      ensures var given, asked := old(Waiting()) + Present(pictures), codec.requests[|old(codec.requests)|..];
              && Shown(given, asked, from) && (given != [] ==> AskedFor(asked, from, |given| - 1))
      ensures Increasing(segment.stamps) && !segment.misordered && OnTime(FrameTimes(codec.requests), segment.stamps)
      ensures frameRate <= 1000 ==> forall r :: r in codec.requests && r.image.Picture? ==> r.duration > 0
      ensures frameRate <= 1000 ==>
                forall i, j :: 0 <= i < j < |ImagesOf(codec.requests)| ==>
                    ImagesOf(codec.requests)[i].start < ImagesOf(codec.requests)[j].start
    {
      hide Nominal, KeyDue, Tiled, Paced, Keyed, Clocked, End, Asked, Granted, Length, ImagesOf, FrameTimes, Stamps,
           LastStamp, Matches, Increasing, OnTime, InHand, Shown, AskedFor, Present, Follows;
      ghost var base, first := codec.requests, Waiting();
      from := [];
      NothingAsked(pictures);
      for i := 0 to |pictures|
        invariant Valid() && Timed() && base <= codec.requests && old(calls) <= calls && |calls| <= |old(calls)| + i
        invariant InHand(first + Present(pictures[..i]), codec.requests[|base|..], from, pendingFrame, img)
      {
        OneMorePicture(pictures, i);
        Then(first, Present(pictures[..i]), if pictures[i].1 then [pictures[i].0] else []);
        from := Feed(pictures[i].0, pictures[i].1, base, first + Present(pictures[..i]), from);
      }
      assert pictures[..|pictures|] == pictures;
      from := Finish(base, first + Present(pictures), from);
      StampsIncrease(FrameTimes(codec.requests));
      StampsOnTime(FrameTimes(codec.requests));
      AllPositive(codec.requests, frameRate);
      ImagesIncrease(calls, ImagesOf(codec.requests), frameRate);
    }
  }
}
