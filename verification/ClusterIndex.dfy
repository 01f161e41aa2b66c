/** The parser's array of clusters (libwebm/mkvparser/mkvparser.cc): loaded ones first, then those that are
    only known by their position, all of it searchable by position. */
module ClusterIndex {

  class Cluster {
    /** The slot of a loaded cluster; negative while it is only preloaded. */
    var index: int
    const pos: nat

    constructor (index: int, pos: nat)
      ensures this.index == index && this.pos == pos
    {
      this.index, this.pos := index, pos;
    }
  }

  /** `c` put in front of the element at `idx`. */
  function Inserted<T>(s: seq<T>, idx: nat, c: T): seq<T>
    requires idx <= |s|
  {
    s[..idx] + [c] + s[idx..]
  }

  ghost predicate Sorted(items: seq<Cluster?>) {
    && (forall i :: 0 <= i < |items| ==> items[i] != null)
    && forall i, j :: 0 <= i < j < |items| ==> items[i].pos < items[j].pos
  }

  ghost predicate Numbered(items: seq<Cluster?>, count: nat)
    reads items
  {
    && (forall i :: 0 <= i < |items| ==> items[i] != null)
    && (forall i :: 0 <= i < count && i < |items| ==> items[i].index == i)
    && (forall i :: count <= i < |items| ==> items[i].index < 0)
  }

  lemma AppendNumbered(items: seq<Cluster?>, count: nat, c: Cluster)
    requires Numbered(items, count) && count <= |items| && c.index == count
    ensures Numbered(Inserted(items, count, c), count + 1)
  {
  }

  lemma PreloadNumbered(items: seq<Cluster?>, count: nat, idx: nat, c: Cluster)
    requires Numbered(items, count) && count <= idx <= |items| && c.index < 0
    ensures Numbered(Inserted(items, idx, c), count)
  {
  }

  /** One more element moved up. */
  lemma ShiftedOne<T>(before: seq<T>, now: seq<T>, q: nat, to: nat)
    requires 0 < q <= to < |before| == |now| && now[..q] == before[..q] && now[q + 1..to + 1] == before[q..to]
    ensures var next := now[q := now[q - 1]];
            next[..q - 1] == before[..q - 1] && next[q..to + 1] == before[q - 1..to]
  {
    var next := now[q := now[q - 1]];
    assert now[..q][q - 1] == before[..q][q - 1];
    assert next[q..to + 1] == [next[q]] + now[q + 1..to + 1];
    assert before[q - 1..to] == [before[q - 1]] + before[q..to];
    assert next[..q - 1] == now[..q][..q - 1] && before[..q - 1] == before[..q][..q - 1];
  }

  lemma Preloaded(items: seq<Cluster?>, count: nat)
    requires Numbered(items, count)
    ensures forall i :: count <= i < |items| ==> items[i] != null && items[i].index < 0
  {
  }

  lemma Assembled<T>(items: seq<T>, after: seq<T>, idx: nat, c: T)
    requires idx <= |items| < |after|
    requires after[..idx] == items[..idx] && after[idx] == c && after[idx + 1..|items| + 1] == items[idx..]
    ensures after[..|items| + 1] == Inserted(items, idx, c)
  {
    assert after[..|items| + 1] == after[..idx] + [after[idx]] + after[idx + 1..|items| + 1];
  }

  /** A cluster put between those before its position and those behind it leaves the order intact. */
  lemma InsertedSorted(items: seq<Cluster?>, idx: nat, c: Cluster)
    requires Sorted(items) && idx <= |items|
    requires forall i :: 0 <= i < idx ==> items[i].pos < c.pos
    requires forall i :: idx <= i < |items| ==> c.pos < items[i].pos
    ensures Sorted(Inserted(items, idx, c))
  {
  }

  class Segment {
    var clusters: array<Cluster?>
    var count: nat
    var preloadCount: nat

    constructor ()
      ensures Valid() && fresh(clusters) && count == 0 && preloadCount == 0
    {
      clusters := new Cluster?[0];
      count, preloadCount := 0, 0;
    }

    /** The clusters in use: the loaded ones know their slot, the preloaded ones behind them have none. */
    ghost predicate Valid()
      reads this, clusters, clusters[..]
    {
      count + preloadCount <= clusters.Length && Numbered(Items(), count)
    }

    ghost function Items(): (items: seq<Cluster?>)
      requires count + preloadCount <= clusters.Length
      reads this, clusters
      ensures |items| == count + preloadCount
    {
      clusters[..count + preloadCount]
    }

    /** Room for one more cluster: 2048 at first, and doubled each time. */
    method Expand()
      requires count + preloadCount <= clusters.Length
      modifies this`clusters
      ensures count + preloadCount < clusters.Length && Items() == old(Items())
      ensures clusters == old(clusters) || fresh(clusters)
    {
      var total := count + preloadCount;
      if total >= clusters.Length {
        var n := if clusters.Length == 0 then 2048 else 2 * clusters.Length;
        var larger := new Cluster?[n];
        forall i | 0 <= i < total { larger[i] := clusters[i]; }
        clusters := larger;
      }
    }

    /** Moves `clusters[from..to]` up by one slot, last one first, as long as they are preloaded. */
    method ShiftUp(from: nat, to: nat) returns (ok: bool)
      requires from <= to < clusters.Length
      requires forall i :: from <= i < to ==> clusters[i] != null
      modifies clusters
      ensures ok <==> forall i :: from <= i < to ==> old(clusters[i]).index < 0
      ensures ok ==> clusters[from + 1..to + 1] == old(clusters[from..to]) && clusters[..from] == old(clusters[..from])
    {
      var q := to;
      ghost var before := clusters[..];
      while q > from
        invariant from <= q <= to
        invariant forall i :: q <= i < to ==> old(clusters[i]).index < 0
        invariant clusters[..q] == before[..q]
        invariant clusters[q + 1..to + 1] == before[q..to]
      {
        assert clusters[..q][q - 1] == before[..q][q - 1];
        if clusters[q - 1].index >= 0 { return false; }
        ShiftedOne(before, clusters[..], q, to);
        clusters[q] := clusters[q - 1];
        q := q - 1;
      }
      ok := true;
    }

    /** Shifts the preloaded clusters from slot `idx` on up and puts one more there. */
    method InsertAt(c: Cluster, idx: nat) returns (ok: bool)
      requires Valid() && count <= idx <= count + preloadCount < clusters.Length
      modifies clusters
      ensures ok && clusters[..count + preloadCount + 1] == Inserted(old(Items()), idx, c)
    {
      var total := count + preloadCount;
      ghost var items := Items();
      Preloaded(items, count);
      hide Numbered, Inserted;
      assert forall i :: idx <= i < total ==> clusters[i] == items[i];
      ok := ShiftUp(idx, total);
      clusters[idx] := c;
      Assembled(items, clusters[..], idx, c);
    }

    /** Inserts where there is room, among the preloaded clusters or in front of them. */
    method InsertPreloaded(c: Cluster, idx: nat) returns (ok: bool)
      requires Valid() && c.index < 0 && count <= idx <= count + preloadCount < clusters.Length
      modifies this`preloadCount, clusters
      ensures ok && Valid() && Items() == Inserted(old(Items()), idx, c) && preloadCount == old(preloadCount) + 1
    {
      hide Numbered, Inserted;
      ghost var items := Items();
      ok := InsertAt(c, idx);
      PreloadNumbered(items, count, idx, c);
      preloadCount := preloadCount + 1;
    }

    method InsertLoaded(c: Cluster) returns (ok: bool)
      requires Valid() && c.index == count && count + preloadCount < clusters.Length
      modifies this`count, clusters
      ensures ok && Valid() && Items() == Inserted(old(Items()), old(count), c) && count == old(count) + 1
    {
      hide Numbered, Inserted;
      ghost var items := Items();
      ok := InsertAt(c, count);
      AppendNumbered(items, count, c);
      count := count + 1;
    }

    /** Puts a loaded cluster behind the loaded ones. */
    method AppendCluster(c: Cluster) returns (ok: bool)
      requires Valid()
      modifies this, clusters
      ensures Valid() && (ok <==> c.index == old(count))
      ensures Items() == if ok then Inserted(old(Items()), old(count), c) else old(Items())
      ensures count == old(count) + (if ok then 1 else 0) && preloadCount == old(preloadCount)
      ensures clusters == old(clusters) || fresh(clusters)
    {
      if c.index < 0 { return false; }
      var idx := c.index;
      if idx != count { return false; }
      hide Numbered, Inserted;
      Expand();
      ok := InsertLoaded(c);
    }

    /** Puts a cluster that is only known by its position at slot `idx`, which must not be among the
        loaded ones. */
    method PreloadCluster(c: Cluster, idx: int) returns (ok: bool)
      requires Valid()
      modifies this, clusters
      ensures Valid() && (ok <==> c.index < 0 && old(count) <= idx <= old(count + preloadCount))
      ensures Items() == if ok then Inserted(old(Items()), idx, c) else old(Items())
      ensures count == old(count) && preloadCount == old(preloadCount) + (if ok then 1 else 0)
      ensures clusters == old(clusters) || fresh(clusters)
    {
      if c.index >= 0 || idx < count { return false; }
      hide Numbered, Inserted;
      Expand();
      if idx > count + preloadCount { return false; }
      ok := InsertPreloaded(c, idx);
    }

    /** The first preloaded cluster becomes the last loaded one. */
    method TakePreloaded(p: Cluster)
      requires Valid() && Sorted(Items()) && preloadCount > 0 && Items()[count] == p
      modifies this`count, this`preloadCount, p
      ensures Valid() && Items() == old(Items()) && count == old(count) + 1
    {
      ghost var items := Items();
      p.index := count;
      assert forall i :: 0 <= i < |items| && i != count ==> items[i] != p;
      count := count + 1;
      preloadCount := preloadCount - 1;
    }

    /** The next cluster in the file, found at `pos`: the first preloaded one when that is where it is,
        which then counts as loaded, and otherwise a new one behind the loaded ones. */
    method LoadCluster(pos: nat) returns (c: Cluster)
      requires Valid() && Sorted(Items())
      modifies this, clusters, Items()
      ensures Valid() && c.pos == pos && count == old(count) + 1 && Items()[old(count)] == c
      ensures if old(preloadCount) > 0 && old(Items()[count]).pos == pos then Items() == old(Items())
              else fresh(c) && Items() == Inserted(old(Items()), old(count), c)
      ensures old(AllBefore(Items()[..count], pos)) && old(NoneBefore(Items()[count..], pos)) ==> Sorted(Items())
    {
      hide Inserted, Numbered, Sorted, AllBefore, NoneBefore;
      if preloadCount > 0 {
        var p := clusters[count];
        Preloaded(Items(), count);
        assert Items()[count] == p;
        if p.pos == pos {
          TakePreloaded(p);
          return p;
        }
      }
      c := new Cluster(count, pos);
      ghost var items := Items();
      var ok := AppendCluster(c);
      InsertedAt(items, old(count), c);
      if AllBefore(items[..old(count)], pos) && NoneBefore(items[old(count)..], pos) {
        LoadedSorted(items, old(count), c);
      }
    }

    /** The cluster at a position: the one in the array, or a new preloaded one in its place.  There is
        none for a position between loaded clusters. */
    method FindOrPreloadCluster(requestedPos: int) returns (result: Cluster?)
      requires Valid() && Sorted(Items())
      modifies this, clusters
      ensures Valid() && Sorted(Items()) && count == old(count)
      ensures result != null <==>
                requestedPos >= 0 && (HasAt(old(Items()), requestedPos) ||
                                      AllBefore(old(Items()[..count]), requestedPos))
      ensures result != null ==> result.pos == requestedPos && result in Items()
      ensures clusters == old(clusters) || fresh(clusters)
      ensures result == null || HasAt(old(Items()), requestedPos) ==>
              Items() == old(Items()) && preloadCount == old(preloadCount)
      ensures result != null && !HasAt(old(Items()), requestedPos) ==>
                && fresh(result)
                && exists i :: old(count) <= i <= |old(Items())| && Items() == Inserted(old(Items()), i, result)
    {
      if requestedPos < 0 { return null; }
      hide Inserted, Numbered, Sorted, HasAt, AllBefore;
      ghost var items := Items();
      var slot;
      result, slot := Search(requestedPos);
      if result != null { return; }
      SlotMeaning(items, count, slot, requestedPos);
      var c := new Cluster(-1, requestedPos);
      InsertedSorted(items, slot, c);
      var ok := PreloadCluster(c, slot);
      if !ok { return null; }
      InsertedAt(items, slot, c);
      result := c;
    }

    /** Binary search by position. */
    method Search(requestedPos: nat) returns (found: Cluster?, slot: nat)
      requires Valid() && Sorted(Items())
      ensures found != null ==> found in Items() && found.pos == requestedPos && HasAt(Items(), requestedPos)
      ensures found == null ==>
                && slot <= |Items()| && !HasAt(Items(), requestedPos)
                && (forall k :: 0 <= k < slot ==> Items()[k].pos < requestedPos)
                && (forall k :: slot <= k < |Items()| ==> requestedPos < Items()[k].pos)
    {
      ghost var items := Items();
      var i, j := 0, count + preloadCount;
      while i < j
        invariant 0 <= i <= j <= |items|
        invariant forall k :: 0 <= k < i ==> items[k].pos < requestedPos
        invariant forall k :: j <= k < |items| ==> requestedPos < items[k].pos
      {
        var k := i + (j - i) / 2;
        var c := clusters[k];
        assert items[k] == c;
        if c.pos < requestedPos {
          i := k + 1;
        } else if c.pos > requestedPos {
          j := k;
        } else {
          return c, k;
        }
      }
      found, slot := null, i;
    }

    /** Asking again gives the same cluster. */
    method FindTwice(requestedPos: int) returns (first: Cluster?, second: Cluster?)
      requires Valid() && Sorted(Items())
      modifies this, clusters
      ensures Valid() && Sorted(Items())
      ensures first == second
    {
      hide Sorted, HasAt, AllBefore, Inserted, Numbered;
      first := FindOrPreloadCluster(requestedPos);
      ghost var items := Items();
      if first != null { Found(items, first); }
      second := FindOrPreloadCluster(requestedPos);
      if first != null { OneAt(items, first, second); }
    }
  }

  ghost predicate HasAt(items: seq<Cluster?>, pos: int) {
    exists i :: 0 <= i < |items| && items[i] != null && items[i].pos == pos
  }

  ghost predicate AllBefore(items: seq<Cluster?>, pos: int) {
    forall i :: 0 <= i < |items| && items[i] != null ==> items[i].pos < pos
  }

  ghost predicate NoneBefore(items: seq<Cluster?>, pos: int) {
    forall i :: 0 <= i < |items| && items[i] != null ==> pos <= items[i].pos
  }

  /** A slot behind the loaded clusters is one for a position behind them. */
  lemma SlotMeaning(items: seq<Cluster?>, count: nat, slot: nat, pos: nat)
    requires Sorted(items) && count <= |items| && slot <= |items|
    requires forall k :: 0 <= k < slot ==> items[k].pos < pos
    requires forall k :: slot <= k < |items| ==> pos < items[k].pos
    ensures AllBefore(items[..count], pos) <==> slot >= count
  {
    if slot < count { assert items[..count][slot].pos > pos; }
  }

  lemma Found(items: seq<Cluster?>, c: Cluster)
    requires c in items
    ensures HasAt(items, c.pos)
  {
  }

  lemma OneAt(items: seq<Cluster?>, c: Cluster, d: Cluster)
    requires Sorted(items) && c in items && d in items && c.pos == d.pos
    ensures c == d
  {
  }

  /** A cluster loaded in file order, which the first preloaded one was not, comes before all of those. */
  lemma LoadedSorted(items: seq<Cluster?>, count: nat, c: Cluster)
    requires Sorted(items) && count <= |items|
    requires AllBefore(items[..count], c.pos) && NoneBefore(items[count..], c.pos)
    requires count < |items| ==> items[count].pos != c.pos
    ensures Sorted(Inserted(items, count, c))
  {
    forall i | 0 <= i < count ensures items[i].pos < c.pos {
      assert items[..count][i] == items[i];
    }
    forall i | count <= i < |items| ensures c.pos < items[i].pos {
      assert items[count..][0] == items[count];
    }
    InsertedSorted(items, count, c);
  }

  lemma InsertedAt(items: seq<Cluster?>, idx: nat, c: Cluster)
    requires idx <= |items|
    ensures |Inserted(items, idx, c)| == |items| + 1 && Inserted(items, idx, c)[idx] == c
    ensures c in Inserted(items, idx, c)
  {
    assert Inserted(items, idx, c)[idx] == c;
  }
}
