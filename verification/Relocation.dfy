/** Moving the Cues element in front of the clusters (libwebm/mkvmuxer/mkvmuxer.cc).  Every position in
    it grows by the size of the element, and the element grows with its positions. */
module Relocation {
  import opened Bytes
  import opened Ebml
  import opened EbmlWriter
  import opened Cues
  import opened SeekHeads

  // ----- the fixpoint

  /** `after` is `before` with the cue at `index` moved by `diff` and then every cue moved by `growth`. */
  ghost predicate Moved(before: seq<Cue>, after: seq<Cue>, index: int, diff: nat, growth: nat) {
    && |after| == |before|
    && forall j :: 0 <= j < |before| ==> after[j] == Move(before[j], growth + if j == index then diff else 0)
  }

  /** The cues before `done` moved by `diff` and then every cue moved by `growth`. */
  ghost predicate MovedUpTo(before: seq<Cue>, after: seq<Cue>, done: nat, diff: nat, growth: nat) {
    && |after| == |before|
    && forall j :: 0 <= j < |before| ==> after[j] == Move(before[j], growth + if j < done then diff else 0)
  }

  /** No cue, with what is still due to the cue at `index`, has moved further from its place in `origin`
      than the present size of the element. */
  ghost predicate Lagging(origin: seq<Cue>, now: seq<Cue>, index: int, due: nat) {
    && |now| == |origin|
    && forall j :: 0 <= j < |origin| ==>
         && now[j].clusterPos >= origin[j].clusterPos
         && now[j] == Move(origin[j], now[j].clusterPos - origin[j].clusterPos)
         && now[j].clusterPos + (if j == index then due else 0) <= origin[j].clusterPos + CuesSize(now)
  }

  ghost predicate AllLagging(origin: seq<Cue>, now: seq<Cue>, due: nat) {
    forall i :: Lagging(origin, now, i, due)
  }

  lemma LaggingKept(origin: seq<Cue>, v0: seq<Cue>, now: seq<Cue>, done: nat, diff: nat)
    requires done < |v0| && AllLagging(origin, v0, diff)
    requires CuesSize(now) >= CuesSize(v0) && MovedUpTo(v0, now, done, diff, CuesSize(now) - CuesSize(v0))
    ensures Lagging(origin, now, done, diff)
  {
    assert Lagging(origin, v0, 0, diff);
    forall j | 0 <= j < |origin|
      ensures v0[j].clusterPos + diff <= origin[j].clusterPos + CuesSize(v0)
    {
      assert Lagging(origin, v0, j, diff);
    }
  }

  lemma MovedNext(v0: seq<Cue>, now: seq<Cue>, next: seq<Cue>, done: nat, diff: nat, g: nat, h: nat)
    requires MovedUpTo(v0, now, done, diff, g) && Moved(now, next, done, diff, h)
    ensures MovedUpTo(v0, next, done + 1, diff, g + h)
  {
    forall j | 0 <= j < |v0| ensures next[j] == Move(v0[j], g + h + if j < done + 1 then diff else 0) {
      assert now[j] == Move(v0[j], g + if j < done then diff else 0);
    }
  }

  /** The cue at `index` has moved, and then, if the element has grown for it, every cue. */
  lemma MovedAfter(v0: seq<Cue>, v1: seq<Cue>, v2: seq<Cue>, index: nat, diff: nat, next: nat, h: nat)
    requires index < |v0| && v1 == v0[index := Move(v0[index], diff)] && MovedUpTo(v1, v2, |v1|, next, h)
    ensures Moved(v0, v2, index, diff, next + h)
  {
    forall j | 0 <= j < |v0| ensures v2[j] == Move(v0[j], next + h + if j == index then diff else 0) {
      assert v2[j] == Move(v1[j], next + h);
    }
  }

  lemma NothingMoved(v0: seq<Cue>, diff: nat)
    ensures MovedUpTo(v0, v0, 0, diff, 0)
    ensures diff == 0 ==> MovedUpTo(v0, v0, |v0|, 0, 0)
  {
  }

  lemma BeyondEnd(v0: seq<Cue>, index: int, diff: nat)
    requires index >= |v0|
    ensures Moved(v0, v0, index, diff, 0)
  {
  }

  /** Once the cue at `index` has moved by what was due to it, what is due to all is what the element has grown. */
  lemma StillLagging(origin: seq<Cue>, v0: seq<Cue>, v1: seq<Cue>, index: nat, diff: nat, next: nat)
    requires Lagging(origin, v0, index, diff) && index < |v0| && v1 == v0[index := Move(v0[index], diff)]
    requires next == CuesSize(v1) - CuesSize(v0)
    ensures AllLagging(origin, v1, next)
  {
    hide CuesSize;
  }

  /** The size reached is still within every distance that would have been enough for `origin`. */
  ghost predicate Minimal(origin: seq<Cue>, now: seq<Cue>) {
    forall enough: nat :: Enough(origin, enough) ==> CuesSize(now) <= enough
  }

  /** Moving the cue at `index` by what is due to it keeps the size within every sufficient distance. */
  lemma StepStaysMinimal(origin: seq<Cue>, now: seq<Cue>, next: seq<Cue>, index: int, due: nat)
    requires Lagging(origin, now, index, due) && Minimal(origin, now) && 0 <= index < |now|
    requires next == now[index := Move(now[index], due)]
    ensures Minimal(origin, next)
  {
    hide CuesSize, Lagging;
    forall enough: nat | Enough(origin, enough) ensures CuesSize(next) <= enough {
      StepWithin(origin, now, next, index, due, enough);
      SizeMonotone(next, MoveAll(origin, enough));
    }
  }

  lemma StepWithin(origin: seq<Cue>, now: seq<Cue>, next: seq<Cue>, index: int, due: nat, enough: nat)
    requires Lagging(origin, now, index, due) && CuesSize(now) <= enough && 0 <= index < |now|
    requires next == now[index := Move(now[index], due)]
    ensures NotBeyond(next, MoveAll(origin, enough))
  {
    hide CuesSize;
    var far := MoveAll(origin, enough);
    forall j | 0 <= j < |next| ensures next[j].clusterPos <= far[j].clusterPos &&
        Move(next[j], far[j].clusterPos - next[j].clusterPos) == far[j] {
    }
  }

  method MoveCuesBeforeClustersHelper(cues: CueList, diff: nat, index: int, cuesSize: nat, ghost origin: seq<Cue>)
      returns (newSize: nat)
    requires cues.Valid() && index >= 0
    requires cuesSize == SumSizes(Values(cues.entries))
    requires Lagging(origin, Values(cues.entries), index, diff) && Minimal(origin, Values(cues.entries))
    modifies cues.entries`clusterPos
    ensures newSize == SumSizes(Values(cues.entries)) >= cuesSize
    ensures CuesSize(Values(cues.entries)) >= old(CuesSize(Values(cues.entries)))
    ensures Moved(old(Values(cues.entries)), Values(cues.entries), index, diff,
                  CuesSize(Values(cues.entries)) - old(CuesSize(Values(cues.entries))))
    ensures Minimal(origin, Values(cues.entries))
    decreases MaxSum(|cues.entries|) - cuesSize, 0
  {
    hide CueSize, ElementSize, SumSizes, EncodeAll, Moved, MovedUpTo, Minimal, Lagging;
    newSize := cuesSize;
    if index >= |cues.entries| {
      BeyondEnd(Values(cues.entries), index, diff);
      return;
    }
    var cuePoint := cues.entries[index];
    ghost var v0 := Values(cues.entries);
    SumBound(v0);
    var oldCuePointSize := CueSize(cuePoint.Value());
    cuePoint.clusterPos := cuePoint.clusterPos + diff;
    ghost var v1 := Values(cues.entries);
    assert v1 == v0[index := Move(v0[index], diff)];
    GrowthOfStep(v0, index, diff);
    StepStaysMinimal(origin, v0, v1, index, diff);

    var cuePointSizeDiff := CueSize(cuePoint.Value()) - oldCuePointSize;
    var cueSizeDiff := GetCodedUIntSize(newSize + cuePointSizeDiff) - GetCodedUIntSize(newSize);
    newSize := newSize + cuePointSizeDiff;
    var next := cueSizeDiff + cuePointSizeDiff;
    assert next == CuesSize(v1) - CuesSize(v0);
    NothingMoved(v1, next);
    if next > 0 {
      StillLagging(origin, v0, v1, index, diff, next);
      newSize := MoveEach(cues, next, newSize, origin);
    }
    MovedAfter(v0, v1, Values(cues.entries), index, diff, next, CuesSize(Values(cues.entries)) - CuesSize(v1));
  }

  method MoveEach(cues: CueList, diff: nat, cuesSize: nat, ghost origin: seq<Cue>) returns (newSize: nat)
    requires cues.Valid()
    requires cuesSize == SumSizes(Values(cues.entries))
    requires Minimal(origin, Values(cues.entries))
    requires AllLagging(origin, Values(cues.entries), diff)
    modifies cues.entries`clusterPos
    ensures newSize == SumSizes(Values(cues.entries)) >= cuesSize
    ensures CuesSize(Values(cues.entries)) >= old(CuesSize(Values(cues.entries)))
    ensures MovedUpTo(old(Values(cues.entries)), Values(cues.entries), |cues.entries|, diff,
                      CuesSize(Values(cues.entries)) - old(CuesSize(Values(cues.entries))))
    ensures Minimal(origin, Values(cues.entries))
    decreases MaxSum(|cues.entries|) - cuesSize, 1
  {
    hide *;
    newSize := cuesSize;
    ghost var v0 := Values(cues.entries);
    NothingMoved(v0, diff);
    for i := 0 to |cues.entries|
      invariant newSize == SumSizes(Values(cues.entries)) >= cuesSize
      invariant CuesSize(Values(cues.entries)) >= CuesSize(v0)
      invariant MovedUpTo(v0, Values(cues.entries), i, diff, CuesSize(Values(cues.entries)) - CuesSize(v0))
      invariant Minimal(origin, Values(cues.entries))
    {
      ghost var now := Values(cues.entries);
      SumBound(now);
      LaggingKept(origin, v0, now, i, diff);
      newSize := MoveCuesBeforeClustersHelper(cues, diff, i, newSize, origin);
      ghost var next := Values(cues.entries);
      MovedNext(v0, now, next, i, diff, CuesSize(now) - CuesSize(v0), CuesSize(next) - CuesSize(now));
    }
  }

  /** Moving one cue point makes it and the element grow by amounts that go together. */
  lemma GrowthOfStep(v0: seq<Cue>, index: int, diff: nat)
    requires 0 <= index < |v0|
    ensures var v1 := v0[index := Move(v0[index], diff)];
            var b := CueSize(v1[index]) - CueSize(v0[index]);
            && b >= 0 && SumSizes(v1) == SumSizes(v0) + b
            && CuesSize(v1) - CuesSize(v0)
               == GetCodedUIntSize(SumSizes(v0) + b) - GetCodedUIntSize(SumSizes(v0)) + b
            && CuesSize(v1) >= CuesSize(v0)
            && (CuesSize(v1) > CuesSize(v0) ==> b > 0)
  {
    hide SumSizes, CueSize;
    SumUpdate(v0, index, Move(v0[index], diff));
    CueMonotone(v0[index], diff);
  }

  /** Before anything has moved, the element is within every sufficient distance and all is still due. */
  lemma Start(origin: seq<Cue>)
    ensures Minimal(origin, origin)
    ensures AllLagging(origin, origin, CuesSize(origin))
  {
    forall enough: nat | Enough(origin, enough) ensures CuesSize(origin) <= enough {
      SizeMonotone(origin, MoveAll(origin, enough));
    }
  }

  /** Once every cue has had the initial size and all growth, each has moved by the final size. */
  lemma AllMoved(origin: seq<Cue>, now: seq<Cue>)
    requires Minimal(origin, now) && CuesSize(now) >= CuesSize(origin)
    requires MovedUpTo(origin, now, |origin|, CuesSize(origin), CuesSize(now) - CuesSize(origin))
    ensures now == MoveAll(origin, CuesSize(now)) && IsRelocation(origin, CuesSize(now))
  {
    hide CuesSize;
    assert now == MoveAll(origin, CuesSize(now));
  }

  /** The index of the last entry with the given ID, or 0. */
  function LastIndex(es: seq<Entry>, id: nat): (index: nat)
    ensures index == 0 || (index < |es| && es[index].id == id)
    ensures forall i :: index < i < |es| ==> es[i].id != id
  {
    if es == [] then 0
    else if es[|es| - 1].id == id then |es| - 1
    else LastIndex(es[..|es| - 1], id)
  }

  /** The seek entries once the Cues stand where the first cluster was and the clusters behind them. */
  function MoveEntries(es: seq<Entry>, cuesSize: nat): (moved: seq<Entry>)
    requires es != []
    ensures |moved| == |es|
  {
    var cluster, cues := LastIndex(es, ID_CLUSTER), LastIndex(es, ID_CUES);
    var es1 := es[cues := Entry(ID_CUES, es[cluster].pos)];
    es1[cluster := Entry(ID_CLUSTER, cuesSize + es1[cues].pos)]
  }

  /** With one entry of each kind, the Cues take over the position of the first cluster, the cluster's
      moves by the size of the Cues, and the other entries stay as they are. */
  lemma MovedEntries(es: seq<Entry>, cuesSize: nat, cluster: nat, cues: nat)
    requires cluster < |es| && cues < |es|
    requires forall i :: 0 <= i < |es| ==>
               (es[i].id == ID_CLUSTER <==> i == cluster) && (es[i].id == ID_CUES <==> i == cues)
    ensures MoveEntries(es, cuesSize)
            == es[cues := Entry(ID_CUES, es[cluster].pos)][cluster := Entry(ID_CLUSTER, es[cluster].pos + cuesSize)]
  {
    assert es[cluster].id == ID_CLUSTER && es[cues].id == ID_CUES;
    assert es[LastIndex(es, ID_CLUSTER)].id == ID_CLUSTER && es[LastIndex(es, ID_CUES)].id == ID_CUES;
  }

  // ----- the copy

  /** How many pieces of at most 2048 bytes a copy takes. */
  function Pieces(size: int): nat {
    if size <= 0 then 0 else (size + 2047) / 2048
  }

  /** Where the first `k` pieces end. */
  function PiecesEnd(start: nat, size: nat, k: nat): nat {
    if 2048 * k <= size then start + 2048 * k else start + size
  }

  /** The bytes that a writer has taken of the first pieces: those of the pieces it has answered with 0. */
  function Copied(src: seq<Byte>, start: nat, size: nat, answers: seq<int>): (bs: seq<Byte>)
    requires answers != [] ==> PiecesEnd(start, size, |answers|) <= |src|
    ensures answers == [] ==> bs == []
  {
    if |answers| == 0 then []
    else
      var k := |answers| - 1;
      Copied(src, start, size, answers[..k])
      + if answers[k] == 0 then src[PiecesEnd(start, size, k)..PiecesEnd(start, size, k + 1)] else []
  }

  /** Every piece has been taken. */
  predicate Intact(answers: seq<int>) {
    forall i :: 0 <= i < |answers| ==> answers[i] == 0
  }

  /** The copy is complete exactly when every piece has been taken: what is refused is missing. */
  lemma {:induction false} CopiedExactly(src: seq<Byte>, start: nat, size: nat, answers: seq<int>)
    requires PiecesEnd(start, size, |answers|) <= |src| && |answers| <= Pieces(size)
    ensures var bs, end := Copied(src, start, size, answers), PiecesEnd(start, size, |answers|);
            (bs == src[start..end] <==> Intact(answers)) && (!Intact(answers) ==> |bs| < end - start)
  {
    if answers != [] {
      var k := |answers| - 1;
      CopiedExactly(src, start, size, answers[..k]);
      assert Intact(answers) <==> Intact(answers[..k]) && answers[k] == 0;
      var mid, end := PiecesEnd(start, size, k), PiecesEnd(start, size, k + 1);
      assert src[start..mid] + src[mid..end] == src[start..end];
    }
  }

  lemma NoneRefused()
    ensures Intact([])
  {
  }

  /** Once all pieces have been put to the writer, it has the whole range or less. */
  lemma AllCopied(src: seq<Byte>, start: nat, size: nat, answers: seq<int>)
    requires start + size <= |src| && |answers| == Pieces(size)
    ensures PiecesEnd(start, size, |answers|) == start + size && |Copied(src, start, size, answers)| <= size
    ensures Copied(src, start, size, answers) == src[start..start + size] <==> Intact(answers)
    ensures |Copied(src, start, size, answers)| == size <==> Intact(answers)
  {
    CopiedExactly(src, start, size, answers);
  }

  /** Copies `src[start..start + size]` in pieces of at most 2048 bytes.  What the writer answers is not looked at:
      the copy succeeds as soon as every piece can be read. */
  method ChunkedCopy(src: seq<Byte>, w: Writer, start: nat, size: int) returns (ok: bool, ghost log: seq<int>)
    requires w.Valid()
    modifies w
    ensures w.Valid() && w.answers == old(w.answers) + log
    ensures ok <==> size <= 0 || start + size <= |src|
    ensures |log| == if ok then Pieces(size) else if start <= |src| then (|src| - start) / 2048 else 0
    ensures log != [] ==> size > 0 && PiecesEnd(start, size, |log|) <= |src|
    ensures w.Appended(if log == [] then [] else Copied(src, start, size, log))
    ensures ok && size > 0 ==> (w.Appended(src[start..start + size]) <==> Intact(log))
    ensures w.reliable ==> Intact(log)
  {
    hide Copied, Pieces, PiecesEnd, Intact;
    ok, log := true, [];
    NothingCopied(src, start, size);
    if size <= 0 { return; }
    var offset, left := start, size;
    ghost var before := w.pending;
    while left > 0
      invariant w.Valid() && w.answers == old(w.answers) + log && |log| <= Pieces(size)
      invariant offset == PiecesEnd(start, size, |log|) && left == start + size - offset && 0 <= left
      invariant log != [] ==> offset <= |src|
      invariant w.Appended(Copied(src, start, size, log))
      invariant w.reliable ==> Intact(log)
    {
      NextPiece(src, start, size, |log|);
      var readLen := if left > 2048 then 2048 else left;
      if offset + readLen > |src| { return false, log; }
      var status := w.Write(src[offset..offset + readLen]);
      Then(before, Copied(src, start, size, log), if status == 0 then src[offset..offset + readLen] else []);
      OnePiece(src, start, size, log, status);
      log := log + [status];
      offset := offset + readLen;
      left := left - readLen;
    }
    AllPieces(start, size, |log|);
    CopiedExactly(src, start, size, log);
  }

  lemma NothingCopied(src: seq<Byte>, start: nat, size: int)
    ensures Intact([]) && Pieces(size) >= 0 && (size <= 0 ==> Pieces(size) == 0)
    ensures size > 0 ==> PiecesEnd(start, size, 0) == start && Copied(src, start, size, []) == []
  {
  }

  /** The next piece is of 2048 bytes or the last one. */
  lemma NextPiece(src: seq<Byte>, start: nat, size: nat, k: nat)
    requires k <= Pieces(size) && PiecesEnd(start, size, k) < start + size
    ensures k < Pieces(size) && PiecesEnd(start, size, k) == start + 2048 * k
    ensures var left := start + size - PiecesEnd(start, size, k);
            && PiecesEnd(start, size, k + 1) == PiecesEnd(start, size, k) + (if left > 2048 then 2048 else left)
            && ((k == 0 || start + 2048 * k <= |src|) && PiecesEnd(start, size, k + 1) > |src| ==>
                  start + size > |src| && k == if start <= |src| then (|src| - start) / 2048 else 0)
  {
  }

  lemma OnePiece(src: seq<Byte>, start: nat, size: nat, log: seq<int>, status: int)
    requires PiecesEnd(start, size, |log|) <= PiecesEnd(start, size, |log| + 1) <= |src|
    ensures Copied(src, start, size, log + [status])
            == Copied(src, start, size, log)
               + if status == 0 then src[PiecesEnd(start, size, |log|)..PiecesEnd(start, size, |log| + 1)] else []
    ensures Intact(log + [status]) <==> Intact(log) && status == 0
  {
    assert (log + [status])[..|log|] == log;
    if Intact(log + [status]) { assert (log + [status])[|log|] == status && forall i :: 0 <= i < |log| ==>
                               (log + [status])[i] == log[i]; }
  }

  lemma AllPieces(start: nat, size: nat, k: nat)
    requires k <= Pieces(size) && PiecesEnd(start, size, k) == start + size && size > 0
    ensures k == Pieces(size)
  {
  }

  /** A writer that refuses the first of two pieces: the copy answers true, and only the last byte is there. */
  lemma RefusedPiece(src: seq<Byte>)
    requires |src| == 2049
    ensures Copied(src, 0, 2049, [-1, 0]) == [src[2048]] != src[0..2049]
  {
    assert Copied(src, 0, 2049, [-1]) == [] by { assert [-1][..0] == []; }
    assert [-1, 0][..1] == [-1];
  }

  /** The file after the copy: the headers with the filled hole, the Cues, the clusters, and the new
      size of the segment. */
  ghost function Relocated(src: seq<Byte>, clusters: nat, end: nat, cues: seq<Byte>, hole: nat, filled: seq<Byte>,
                           sizeAt: nat, size: seq<Byte>): seq<Byte>
    requires hole <= clusters <= end <= |src| && sizeAt <= clusters
  {
    Splice(Splice(src[..clusters] + cues, hole, filled) + src[clusters..end], sizeAt, size)
  }

  /** The file as it is assembled from what the writer has taken of the headers and of the clusters: the Cues behind the
      former, the hole filled, the latter written from the end of the Cues on, and the size of it all. */
  ghost function Assembled(head: seq<Byte>, cues: seq<Byte>, hole: nat, filled: seq<Byte>, tail: seq<Byte>,
                           sizeAt: nat): seq<Byte>
    requires sizeAt <= hole <= |head| + |cues|
  {
    var front := head + cues;
    Splice(Splice(Splice(front, hole, filled), |front|, tail), sizeAt, EncodeSized(|front| + |tail| - hole, 8))
  }

  /** A file assembled from the bytes `head` of the headers and from what has been taken of the clusters. */
  ghost predicate Built(data: seq<Byte>, src: seq<Byte>, head: seq<Byte>, more: seq<int>, clusters: nat, end: nat,
                        cues: seq<Byte>, hole: nat, es: seq<Entry>, sizeAt: nat)
    requires clusters <= end && sizeAt <= hole
  {
    PiecesReach(clusters, end - clusters);
    && end <= |src| && Spare(es) >= 2 && VoidFits(Spare(es)) && |more| == Pieces(end - clusters)
    && hole <= |head| + |cues|
    && data == Assembled(head, cues, hole, Filled(es), Copied(src, clusters, end - clusters, more), sizeAt)
  }

  /** It is the file that is wanted when nothing is missing. */
  lemma AssembledWhole(src: seq<Byte>, clusters: nat, end: nat, cues: seq<Byte>, hole: nat, filled: seq<Byte>,
                       sizeAt: nat)
    requires sizeAt <= hole && hole + |filled| <= clusters <= end <= |src|
    ensures Assembled(src[..clusters], cues, hole, filled, src[clusters..end], sizeAt)
            == Relocated(src, clusters, end, cues, hole, filled, sizeAt, EncodeSized(end + |cues| - hole, 8))
  {
    hide EncodeSized, Splice;
    var front, tail := src[..clusters] + cues, src[clusters..end];
    AppendAtEnd(Splice(front, hole, filled), tail);
  }

  /** And shorter when something is. */
  lemma AssembledShorter(head: seq<Byte>, cues: seq<Byte>, hole: nat, filled: seq<Byte>, tail: seq<Byte>, sizeAt: nat,
                         clusters: nat, size: nat)
    requires sizeAt + 8 == hole <= |head| + |cues| && hole + |filled| <= clusters && cues != []
    requires |head| <= clusters && |tail| <= size && (|head| < clusters || |tail| < size)
    ensures |Assembled(head, cues, hole, filled, tail, sizeAt)| < clusters + |cues| + size
  {
    EightBytes(|head| + |cues| + |tail| - hole);
    hide EncodeSized, Splice;
  }

  /** The wanted file comes out exactly when nothing has been refused. */
  lemma CopyExactly(src: seq<Byte>, clusters: nat, end: nat, log: seq<int>, more: seq<int>, cues: seq<Byte>, hole: nat,
                    filled: seq<Byte>, sizeAt: nat)
    requires sizeAt + 8 == hole && hole + |filled| <= clusters <= end <= |src| && cues != []
    requires |log| == Pieces(clusters) && |more| == Pieces(end - clusters)
    requires PiecesEnd(0, clusters, |log|) <= |src| && PiecesEnd(clusters, end - clusters, |more|) <= |src|
    requires hole <= |Copied(src, 0, clusters, log)| + |cues|
    ensures Assembled(Copied(src, 0, clusters, log), cues, hole, filled, Copied(src, clusters, end - clusters, more),
                      sizeAt)
            == Relocated(src, clusters, end, cues, hole, filled, sizeAt, EncodeSized(end + |cues| - hole, 8))
            <==> Intact(log) && Intact(more)
  {
    hide *;
    AllCopied(src, 0, clusters, log);
    AllCopied(src, clusters, end - clusters, more);
    AssembledWhole(src, clusters, end, cues, hole, filled, sizeAt);
    assert src[0..0 + clusters] == src[..clusters] && clusters + (end - clusters) == end;
    if !(Intact(log) && Intact(more)) {
      AssembledShorter(Copied(src, 0, clusters, log), cues, hole, filled, Copied(src, clusters, end - clusters, more),
                       sizeAt, clusters, end - clusters);
      EightBytes(end + |cues| - hole);
      RelocatedMeaning(src, clusters, end, cues, hole, filled, sizeAt, EncodeSized(end + |cues| - hole, 8));
    }
  }

  lemma EightBytes(n: nat)
    ensures |EncodeSized(n, 8)| == 8
  {
  }

  /** The file keeps its meaning: every byte of the clusters is found again, moved by the size of the
      Cues; the Cues stand in between; and of the headers only the hole and the size field are new. */
  lemma RelocatedMeaning(src: seq<Byte>, clusters: nat, end: nat, cues: seq<Byte>, hole: nat, filled: seq<Byte>,
                         sizeAt: nat, size: seq<Byte>)
    requires sizeAt + |size| <= hole && hole + |filled| <= clusters <= end <= |src|
    ensures var out := Relocated(src, clusters, end, cues, hole, filled, sizeAt, size);
            && |out| == end + |cues|
            && out[clusters + |cues|..] == src[clusters..end]
            && out[clusters..clusters + |cues|] == cues
            && out[hole..hole + |filled|] == filled
            && out[sizeAt..sizeAt + |size|] == size
            && (forall q :: 0 <= q < clusters && !(hole <= q < hole + |filled|) && !(sizeAt <= q < sizeAt + |size|) ==>
                  out[q] == src[q])
  {
    var head := src[..clusters] + cues;
    var h := Splice(head, hole, filled);
    SpliceInside(head, hole, filled);
    SpliceInside(h + src[clusters..end], sizeAt, size);
    assert h[clusters..] == cues;
    assert (h + src[clusters..end])[clusters + |cues|..] == src[clusters..end];
  }

  /** In the copy, what stands at and behind a cue's new cluster position is what stood at and behind its
      old one. */
  lemma CuesStillPoint(src: seq<Byte>, clusters: nat, end: nat, before: seq<Cue>, after: seq<Cue>, payloadPos: nat,
                       filled: seq<Byte>, sizeAt: nat, size: seq<Byte>, j: nat)
    requires sizeAt + |size| <= payloadPos && payloadPos + |filled| <= clusters <= end <= |src|
    requires after == MoveAll(before, CuesSize(after)) && j < |after|
    requires clusters <= payloadPos + before[j].clusterPos <= end
    ensures var out := Relocated(src, clusters, end, EncodeCues(after), payloadPos, filled, sizeAt, size);
            && payloadPos + after[j].clusterPos <= |out|
            && out[payloadPos + after[j].clusterPos..] == src[payloadPos + before[j].clusterPos..end]
  {
    hide CuesSize, EncodeCues, Relocated;
    RelocatedMeaning(src, clusters, end, EncodeCues(after), payloadPos, filled, sizeAt, size);
    var out := Relocated(src, clusters, end, EncodeCues(after), payloadPos, filled, sizeAt, size);
    var s, p := |EncodeCues(after)|, payloadPos + before[j].clusterPos;
    assert out[p + s..] == out[clusters + s..][p - clusters..] == src[clusters..end][p - clusters..];
  }

  lemma AppendAtEnd(data: seq<Byte>, bs: seq<Byte>)
    ensures Splice(data, |data|, bs) == data + bs
  {
  }

  lemma PiecesReach(start: nat, size: nat)
    ensures PiecesEnd(start, size, Pieces(size)) == start + size
  {
  }

  lemma NothingToCopy(src: seq<Byte>, start: nat)
    requires start <= |src|
    ensures Pieces(0) == 0 && PiecesEnd(start, 0, 0) == start && Copied(src, start, 0, []) == []
  {
  }

  lemma CuesLength(cues: seq<Cue>)
    ensures |EncodeCues(cues)| == CuesSize(cues) > 0
  {
  }

  class Segment {
    const cues: CueList
    const seekHead: SeekHead
    /** Where the segment's size field, its payload, its first cluster and the end of its clusters are. */
    const sizePosition: nat
    const payloadPos: nat
    const clusterOffset: nat
    const clusterEndOffset: nat
    const chunking: bool

    constructor (cues: CueList, seekHead: SeekHead, sizePosition: nat, payloadPos: nat, clusterOffset: nat,
                 clusterEndOffset: nat, chunking: bool)
      ensures this.cues == cues && this.seekHead == seekHead && this.sizePosition == sizePosition
      ensures this.payloadPos == payloadPos && this.clusterOffset == clusterOffset
      ensures this.clusterEndOffset == clusterEndOffset && this.chunking == chunking
    {
      this.cues, this.seekHead, this.sizePosition, this.payloadPos := cues, seekHead, sizePosition, payloadPos;
      this.clusterOffset, this.clusterEndOffset, this.chunking := clusterOffset, clusterEndOffset, chunking;
    }

    /** The size field, the hole for the SeekHead and the clusters follow one another. */
    ghost predicate Valid()
      reads this, cues, seekHead, seekHead.ids, seekHead.positions
    {
      && cues.Valid() && seekHead.Valid()
      && sizePosition + 8 == payloadPos == seekHead.startPos
      && payloadPos + RESERVED <= clusterOffset <= clusterEndOffset
    }

    /** Positions stay below 2^64 however far the clusters move. */
    ghost predicate Room()
      requires Valid()
      reads this, cues, seekHead, seekHead.ids, seekHead.positions
    {
      && (forall e :: e in seekHead.Entries() ==> e.pos + MaxSum(|cues.entries|) + 12 < UINT64_LIMIT)
      && clusterEndOffset + MaxSum(|cues.entries|) + 12 < UINT64_LIMIT
    }

    /** All that a writer which does not fail needs for the rest of the copy: every cue point names a track
        and a cluster, two bytes are left in the hole, and the sizes can be coded. */
    ghost predicate Complete()
      requires seekHead.Valid()
      reads this, cues, cues.entries, seekHead, seekHead.ids, seekHead.positions
    {
      && cues.AllSet() && Spare(seekHead.Entries()) >= 2
      && clusterEndOffset + CuesSize(CueValues()) <= MAX_CODED
    }

    ghost function CueValues(): seq<Cue>
      reads cues, cues.entries
    {
      Values(cues.entries)
    }

    /** The file that is wanted: the Cues and the filled hole in front of the clusters, and the size of it all. */
    ghost predicate CopyDone(src: seq<Byte>, w: Writer)
      requires Valid()
      reads this, w, cues, cues.entries, seekHead, seekHead.ids, seekHead.positions
    {
      && w.Valid() && clusterEndOffset <= |src| && Spare(seekHead.Entries()) >= 2 && VoidFits(Spare(seekHead.Entries()))
      && w.Data() == Relocated(src, clusterOffset, clusterEndOffset, EncodeCues(CueValues()), payloadPos,
                               Filled(seekHead.Entries()), sizePosition,
                               EncodeSized(clusterEndOffset + CuesSize(CueValues()) - payloadPos, 8))
    }

    /** Every cue's cluster position grows by the final size of the Cues element, which is the only
        consistent distance that is not larger than it has to be; the seek entries follow. */
    method MoveCuesBeforeClusters()
      requires Valid() && Room()
      modifies cues.entries`clusterPos, seekHead.ids, seekHead.positions
      ensures Valid()
      ensures CueValues() == MoveAll(old(CueValues()), CuesSize(CueValues()))
      ensures IsRelocation(old(CueValues()), CuesSize(CueValues()))
      ensures seekHead.Entries() == MoveEntries(old(seekHead.Entries()), CuesSize(CueValues()))
    {
      hide CuesSize, MoveAll, MoveEntries, IsRelocation;
      MovePositions();
      AdjustSeekEntries();
    }

    method MovePositions()
      requires Valid()
      modifies cues.entries`clusterPos
      ensures CueValues() == MoveAll(old(CueValues()), CuesSize(CueValues()))
      ensures IsRelocation(old(CueValues()), CuesSize(CueValues()))
    {
      hide CuesSize, SumSizes, AllLagging, Minimal, MovedUpTo, MoveAll, IsRelocation;
      ghost var origin := Values(cues.entries);
      assert |origin| == |cues.entries|;
      hide Values;
      Start(origin);
      var currentCueSize := cues.Size();
      var cueSize := cues.EntriesSize();
      cueSize := MoveEach(cues, currentCueSize, cueSize, origin);
      AllMoved(origin, Values(cues.entries));
    }

    method AdjustSeekEntries()
      requires Valid() && Room()
      modifies seekHead.ids, seekHead.positions
      ensures Valid()
      ensures seekHead.Entries() == MoveEntries(old(seekHead.Entries()), CuesSize(CueValues()))
    {
      hide SumSizes, CueSize, CuesSize, Values, LastIndex;
      ghost var es := seekHead.Entries();
      var clusterIndex, cuesIndex := FindEntries();
      var ok := seekHead.SetSeekEntry(cuesIndex, ID_CUES, seekHead.positions[clusterIndex]);
      ghost var es1 := seekHead.Entries();
      var size := cues.Size();
      SizeBound(CueValues());
      assert es1[cuesIndex].pos == es[clusterIndex].pos;
      ok := seekHead.SetSeekEntry(clusterIndex, ID_CLUSTER, size + seekHead.positions[cuesIndex]);
    }

    /** The file that comes out, `log` and `more` being what the writer has answered to the pieces of the headers and of
        the clusters. */
    ghost predicate CopyIs(src: seq<Byte>, w: Writer, log: seq<int>, more: seq<int>)
      requires Valid()
      reads this, w, cues, cues.entries, seekHead, seekHead.ids, seekHead.positions
    {
      && clusterOffset <= |src| && |log| == Pieces(clusterOffset)
      && CopyFrom(src, w, Copied(src, 0, clusterOffset, log), more)
    }

    ghost predicate CopyFrom(src: seq<Byte>, w: Writer, head: seq<Byte>, more: seq<int>)
      requires Valid()
      reads this, w, cues, cues.entries, seekHead, seekHead.ids, seekHead.positions
    {
      && w.Valid()
      && Built(w.Data(), src, head, more, clusterOffset, clusterEndOffset, EncodeCues(CueValues()), payloadPos,
               seekHead.Entries(), sizePosition)
    }

    /** Copies a finished file, moving its Cues in front of its clusters.  What the writer refuses of the pieces copied
        is missing; the file is the one that is wanted exactly when it refuses none. */
    method CopyAndMoveCuesBeforeClusters(src: seq<Byte>, w: Writer)
        returns (ok: bool, ghost log: seq<int>, ghost more: seq<int>)
      requires Valid() && Room() && w.Valid() && w.Data() == [] && w.Position() == 0
      modifies cues.entries`clusterPos, seekHead.ids, seekHead.positions, w
      ensures Valid() && (ok ==> w.seekable && !chunking && clusterEndOffset <= |src|)
      ensures w.seekable && !chunking && clusterOffset <= |src| ==>
                && CueValues() == MoveAll(old(CueValues()), CuesSize(CueValues()))
                && IsRelocation(old(CueValues()), CuesSize(CueValues()))
                && seekHead.Entries() == MoveEntries(old(seekHead.Entries()), CuesSize(CueValues()))
      ensures ok ==> Spare(seekHead.Entries()) >= 2 && VoidFits(Spare(seekHead.Entries()))
      ensures ok ==> SumSizes(CueValues()) <= MAX_CODED
      ensures ok ==> CopyIs(src, w, log, more) && (CopyDone(src, w) <==> Intact(log) && Intact(more))
      ensures w.reliable ==> Intact(log) && Intact(more)
      ensures w.reliable && w.seekable && !chunking && clusterEndOffset <= |src| && Complete() ==> ok
    {
      hide *;
      NoneRefused();
      Layout();
      log, more := [], [];
      if !w.seekable || chunking { return false, log, more; }
      ok, log := CopyPart(src, w, 0, clusterOffset);
      if !ok { return; }
      ghost var head := Copied(src, 0, clusterOffset, log);
      AllCopied(src, 0, clusterOffset, log);
      AppendAtEnd([], head);
      MoveCuesBeforeClusters();
      MovedNotEmpty(old(seekHead.Entries()), CuesSize(CueValues()));
      Layout();
      ok, more := WriteMoved(src, w, head);
      if ok { DoneExactly(src, w, log, more); }
    }

    /** The file behind its copied headers. */
    method WriteMoved(src: seq<Byte>, w: Writer, ghost head: seq<Byte>) returns (ok: bool, ghost more: seq<int>)
      requires Valid() && w.Valid() && w.seekable && clusterOffset <= |src|
      requires SeekPayloadSize(seekHead.Entries()) > 0
      requires w.Data() == head && w.Position() == |head| <= clusterOffset && (w.reliable ==> |head| == clusterOffset)
      requires clusterEndOffset + MaxSum(|cues.entries|) + 12 < UINT64_LIMIT
      modifies w
      ensures ok ==> clusterEndOffset <= |src| && Spare(seekHead.Entries()) >= 2 && VoidFits(Spare(seekHead.Entries()))
      ensures ok ==> CopyFrom(src, w, head, more) && SumSizes(CueValues()) <= MAX_CODED
      ensures w.reliable ==> Intact(more)
      ensures w.reliable && clusterEndOffset <= |src| && Complete() ==> ok
    {
      hide *;
      more := [];
      NoneRefused();
      SizeBound(CueValues());
      CuesLength(CueValues());
      Layout();
      AllThere();
      ok := WriteCuesAndSeekHead(w);
      if !ok { return false, more; }
      var n := clusterEndOffset - clusterOffset;
      ok, more := CopyPart(src, w, clusterOffset, n);
      if !ok { return; }
      AllCopied(src, clusterOffset, n, more);
      ok := PatchSize(w);
      if ok { CopyFromIs(src, w, head, more); }
    }

    lemma CopyFromIs(src: seq<Byte>, w: Writer, head: seq<Byte>, more: seq<int>)
      requires Valid() && w.Valid() && clusterEndOffset <= |src|
      requires Spare(seekHead.Entries()) >= 2 && VoidFits(Spare(seekHead.Entries()))
      requires |more| == Pieces(clusterEndOffset - clusterOffset) && payloadPos <= |head| + |EncodeCues(CueValues())|
      requires var front, n := head + EncodeCues(CueValues()), clusterEndOffset - clusterOffset;
               && PiecesEnd(clusterOffset, n, |more|) <= |src|
               && var tail := Copied(src, clusterOffset, n, more);
                  && sizePosition <= |Splice(Splice(front, payloadPos, Filled(seekHead.Entries())), |front|, tail)|
                  && |front| + |tail| >= payloadPos
                  && w.Data() == Splice(Splice(Splice(front, payloadPos, Filled(seekHead.Entries())), |front|, tail),
                                        sizePosition, EncodeSized(|front| + |tail| - payloadPos, 8))
      ensures CopyFrom(src, w, head, more)
    {
      hide EncodeCues, CueValues, Filled, Spare, VoidFits, EncodeSized, CuesSize, Splice, Copied, Pieces, PiecesEnd;
    }

    /** The file is the one that is wanted exactly when no piece has been refused. */
    lemma DoneExactly(src: seq<Byte>, w: Writer, log: seq<int>, more: seq<int>)
      requires Valid() && clusterOffset <= |src| && |log| == Pieces(clusterOffset)
      requires PiecesEnd(0, clusterOffset, |log|) <= |src|
      requires CopyFrom(src, w, Copied(src, 0, clusterOffset, log), more)
      ensures CopyIs(src, w, log, more) && (CopyDone(src, w) <==> Intact(log) && Intact(more))
    {
      hide Copied, Pieces, PiecesEnd, Intact, EncodeCues, CueValues, Filled, Spare, VoidFits, EncodeSized, CuesSize,
           Splice, Assembled, Relocated;
      CuesLength(CueValues());
      PiecesReach(clusterOffset, clusterEndOffset - clusterOffset);
      CopyExactly(src, clusterOffset, clusterEndOffset, log, more, EncodeCues(CueValues()), payloadPos,
                  Filled(seekHead.Entries()), sizePosition);
    }

    /** Where the parts of the file are. */
    lemma Layout()
      requires Valid()
      ensures cues.Valid() && seekHead.Valid() && |CueValues()| == |cues.entries| && seekHead.Entries() != []
      ensures sizePosition + 8 == payloadPos && payloadPos + RESERVED <= clusterOffset <= clusterEndOffset
      ensures Room() ==> clusterEndOffset + MaxSum(|cues.entries|) + 12 < UINT64_LIMIT
    {
    }

    lemma AllThere()
      requires Valid()
      ensures Complete() ==>
                cues.AllSet() && Spare(seekHead.Entries()) >= 2 && clusterEndOffset + CuesSize(CueValues()) <= MAX_CODED
    {
    }

    method CopyPart(src: seq<Byte>, w: Writer, start: nat, size: nat) returns (ok: bool, ghost log: seq<int>)
      requires w.Valid() && start <= |src|
      modifies w
      ensures w.Valid() && (ok <==> size == 0 || start + size <= |src|) && (w.reliable ==> Intact(log))
      ensures ok ==>
                && |log| == Pieces(size) && PiecesEnd(start, size, |log|) <= |src|
                && var bs := Copied(src, start, size, log);
                   && w.Data() == Splice(old(w.Data()), old(w.Position()), bs)
                   && w.Position() == old(w.Position()) + |bs|
    {
      hide Copied, Pieces, PiecesEnd, Intact, Splice;
      ok, log := ChunkedCopy(src, w, start, size);
      if ok {
        if size == 0 { NothingToCopy(src, start); }
        AllCopied(src, start, size, log);
        w.AppendedData(Copied(src, start, size, log));
      }
    }

    /** Puts the Cues at the end of the file and the SeekHead into its hole. */
    method WriteCuesAndSeekHead(w: Writer) returns (ok: bool)
      requires Valid() && w.Valid() && w.seekable && SeekPayloadSize(seekHead.Entries()) > 0
      modifies w
      ensures w.Valid()
      ensures ok ==> Spare(seekHead.Entries()) >= 2 && VoidFits(Spare(seekHead.Entries()))
      ensures ok ==> SumSizes(CueValues()) <= MAX_CODED && cues.AllSet()
      ensures w.reliable && cues.AllSet() && SumSizes(CueValues()) <= MAX_CODED && payloadPos <= old(|w.Data()|)
              && Spare(seekHead.Entries()) >= 2 ==>
                ok
      ensures ok && old(w.Position() == |w.Data()|) ==>
                && var front := old(w.Data()) + EncodeCues(CueValues());
                   && payloadPos <= |front| && w.Position() == |front|
                   && w.Data() == Splice(front, payloadPos, Filled(seekHead.Entries()))
    {
      hide EncodeCues, Filled, VoidFits, Spare, SeekPayloadSize, ValidEntry, Values, SumSizes;
      ok := cues.Write(w);
      if !ok { return false; }
      w.AppendedData(EncodeCues(CueValues()));
      AppendAtEnd(old(w.Data()), EncodeCues(CueValues()));
      ok := seekHead.Finalize(w);
    }

    /** Writes the size of the segment, up to the present position, into its size field. */
    method PatchSize(w: Writer) returns (ok: bool)
      requires Valid() && w.Valid()
      modifies w
      ensures w.Valid()
      ensures ok ==> w.Position() == old(w.Position())
      ensures ok && payloadPos <= old(w.Position()) < UINT64_LIMIT ==>
                && sizePosition <= |old(w.Data())|
                && old(w.Position()) - payloadPos <= MAX_CODED
                && w.Data() == Splice(old(w.Data()), sizePosition, EncodeSized(old(w.Position()) - payloadPos, 8))
      ensures w.reliable && w.seekable && sizePosition <= |old(w.Data())| && old(w.Position()) <= |old(w.Data())|
              && payloadPos <= old(w.Position()) <= MAX_CODED ==>
                ok
    {
      hide EncodeSized;
      LargestSize();
      var pos := w.Position();
      var segmentSize := w.Position() - payloadPos;
      var status := w.SetPosition(sizePosition);
      if status != 0 { return false; }
      label Patch:
      assert 0 <= segmentSize < UINT64_LIMIT ==> ToUInt64(segmentSize) == segmentSize;
      status := WriteUIntSize(w, ToUInt64(segmentSize), 8);
      if status != 0 { return false; }
      w.AppendedData@Patch(EncodeSized(ToUInt64(segmentSize), 8));
      status := w.SetPosition(pos);
      ok := status == 0;
    }

    method FindEntries() returns (clusterIndex: nat, cuesIndex: nat)
      requires Valid()
      ensures clusterIndex == LastIndex(seekHead.Entries(), ID_CLUSTER) < ENTRY_COUNT
      ensures cuesIndex == LastIndex(seekHead.Entries(), ID_CUES) < ENTRY_COUNT
    {
      ghost var es := seekHead.Entries();
      clusterIndex, cuesIndex := 0, 0;
      for i := 0 to ENTRY_COUNT
        invariant clusterIndex == LastIndex(es[..i], ID_CLUSTER) < ENTRY_COUNT
        invariant cuesIndex == LastIndex(es[..i], ID_CUES) < ENTRY_COUNT
      {
        assert es[..i + 1][..i] == es[..i];
        if seekHead.ids[i] == ID_CLUSTER { clusterIndex := i; }
        if seekHead.ids[i] == ID_CUES { cuesIndex := i; }
      }
      assert es[..ENTRY_COUNT] == es;
    }
  }

  /** After the move there is an entry for the Cues, so there is a SeekHead to write. */
  lemma MovedNotEmpty(es: seq<Entry>, cuesSize: nat)
    requires es != []
    ensures SeekPayloadSize(MoveEntries(es, cuesSize)) > 0
  {
    EntryCounts(MoveEntries(es, cuesSize), LastIndex(es, ID_CLUSTER));
  }

  lemma {:induction false} EntryCounts(es: seq<Entry>, i: nat)
    requires i < |es| && es[i].id != 0
    ensures SeekPayloadSize(es) > 0
  {
    if i < |es| - 1 { EntryCounts(es[..|es| - 1], i); }
  }

  lemma LargestSize()
    ensures Pow128(8) - 2 == MAX_CODED
  {
    SmallPowers(8);
  }

  lemma SizeBound(cues: seq<Cue>)
    ensures SumSizes(cues) <= CuesSize(cues) <= MaxSum(|cues|) + 12
  {
    SumBound(cues);
  }
}
