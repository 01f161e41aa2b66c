/** The bip buffer (libxmf/XmfBipBuffer.c): a circular buffer kept in two blocks, so that what is read or
    written is always contiguous.  It behaves as a first-in-first-out queue. */
module BipBuffer {
  import opened Bytes

  const PAGE_SIZE: nat := 4096

  datatype Block = Block(index: nat, size: nat)

  function Min(a: nat, b: nat): nat { if a < b then a else b }

  /** The capacity that is asked for when `size` bytes are wanted: the remainder of the page is added,
      which does not round up to a page. */
  function Padded(size: nat): nat { size + size % PAGE_SIZE }

  /** Block B lies in front of block A, and only exists when A does. */
  predicate Layout(size: nat, a: Block, b: Block) {
    a.index + a.size <= size && b.index == 0 && (b.size > 0 ==> a.size > 0 && b.size <= a.index)
  }

  /** A reserved region is outside both blocks, and is where the next bytes of the queue belong: anywhere
      when there are none, behind block A, or behind block B and up to block A. */
  predicate Placed(size: nat, a: Block, b: Block, w: Block) {
    w.index + w.size <= size
    && (w.size > 0 && a.size > 0 ==>
          if b.size == 0 && w.index == a.index + a.size then true
          else w.index == b.size && w.index + w.size <= a.index)
    && (w.size > 0 && a.size == 0 ==> b.size == 0)
  }

  /** The queue: block A, then block B. */
  function Queued(bytes: seq<Byte>, a: Block, b: Block): (q: seq<Byte>)
    requires Layout(|bytes|, a, b)
    ensures |q| == a.size + b.size
  {
    bytes[a.index..a.index + a.size] + bytes[..b.size]
  }

  /** The longest run of free bytes that the next bytes of the queue may go to. */
  function FreeOf(size: nat, a: Block, b: Block): nat
    requires Layout(size, a, b)
  {
    if b.size > 0 then a.index - b.size
    else if size - (a.index + a.size) >= a.index then size - (a.index + a.size)
    else a.index
  }

  /** Where that run starts. */
  function NextOf(size: nat, a: Block, b: Block): nat
    requires Layout(size, a, b)
  {
    if b.size > 0 then b.size
    else if size - (a.index + a.size) >= a.index then a.index + a.size
    else 0
  }

  /** The bytes that can be queued without growing, by one write in at most two pieces: the whole buffer
      when the queue is empty, the gap between the blocks when there are two, and otherwise what is behind
      block A and then what is in front of it, or only the latter when that is longer. */
  function WritableOf(size: nat, a: Block, b: Block): nat
    requires Layout(size, a, b)
  {
    if a.size + b.size == 0 then size
    else if b.size > 0 then a.index - b.size
    else if size - (a.index + a.size) >= a.index then size - (a.index + a.size) + a.index
    else a.index
  }

  /** After the next free run has been filled, the one behind it is the rest of what is writable. */
  lemma FillRun(size: nat, a: Block, b: Block)
    requires Layout(size, a, b)
    ensures FreeOf(size, a, b) <= WritableOf(size, a, b) && (FreeOf(size, a, b) == 0 ==> WritableOf(size, a, b) == 0)
    ensures var w := Block(NextOf(size, a, b), FreeOf(size, a, b));
            var a', b' := CommitA(a, b, w, w.size), CommitB(a, b, w, w.size);
            w.size > 0 ==> Layout(size, a', b') && FreeOf(size, a', b') == WritableOf(size, a, b) - w.size
  {
  }

  // ----- where the blocks lie after an operation

  /** The size of the buffer and its blocks. */
  datatype Lay = Lay(size: nat, a: Block, b: Block)

  predicate Good(l: Lay) {
    Layout(l.size, l.a, l.b)
  }

  /** Growing, if it has to, moves the whole queue to the front. */
  function Grown(l: Lay, want: nat): Lay {
    if Padded(want) <= l.size then l else Lay(Padded(want), Block(0, l.a.size + l.b.size), Block(0, 0))
  }

  /** Reserving to write grows the buffer when the next free run is too short. */
  function Ready(l: Lay, want: nat): Lay
    requires Good(l)
  {
    if want == 0 || FreeOf(l.size, l.a, l.b) >= want then l else Grown(l, want)
  }

  /** A reservation of at most `want` bytes. */
  function Region(l: Lay, want: nat): Block
    requires Good(l)
  {
    Block(NextOf(l.size, l.a, l.b), Min(want, FreeOf(l.size, l.a, l.b)))
  }

  /** At most `n` bytes of a region are committed. */
  function Committed(l: Lay, w: Block, n: nat): Lay {
    var amount := Min(n, w.size);
    if n == 0 then l else Lay(l.size, CommitA(l.a, l.b, w, amount), CommitB(l.a, l.b, w, amount))
  }

  /** At most `n` bytes are copied into the next free run. */
  function PutOnce(l: Lay, n: nat): Lay
    requires Good(l)
  {
    Committed(l, Region(l, n), Region(l, n).size)
  }

  lemma PutOnceGood(l: Lay, n: nat)
    requires Good(l)
    ensures Good(PutOnce(l, n))
  {
  }

  lemma GrownGood(l: Lay, want: nat)
    requires Good(l)
    ensures Good(Grown(l, want)) && Good(Ready(l, want))
  {
    UsedFits(l);
  }

  /** A buffer that has grown has its free bytes behind block A, and there are some. */
  lemma GrownRun(l: Lay, want: nat)
    requires Good(l)
    ensures Good(Grown(l, want))
    ensures var g := Grown(l, want);
            Padded(want) > l.size ==>
              && FreeOf(g.size, g.a, g.b) == WritableOf(g.size, g.a, g.b) == Padded(want) - (l.a.size + l.b.size) > 0
  {
    UsedFits(l);
  }

  /** A write goes to at most two runs. */
  function Written(l: Lay, n: nat): (after: Lay)
    requires Good(l)
  {
    GrownGood(l, n);
    var ready := Ready(l, n);
    var once := Region(ready, n).size;
    PutOnceGood(ready, n);
    if once == n then PutOnce(ready, n) else PutOnce(PutOnce(ready, n), n - once)
  }

  /** At most `n` bytes of block A are dropped; block B takes its place when it is gone. */
  function Dropped(l: Lay, n: nat): Lay {
    if l.a.size == 0 then l
    else if n >= l.a.size then Lay(l.size, l.b, Block(0, 0))
    else Lay(l.size, Block(l.a.index + n, l.a.size - n), l.b)
  }

  /** At most `n` bytes are dropped, of both blocks if need be. */
  function Taken(l: Lay, n: nat): Lay {
    if n <= l.a.size then Dropped(l, n) else Dropped(Dropped(l, n), n - l.a.size)
  }

  /** Reserving to read grows the buffer when the queue has the bytes but block A does not; so does
      reserving none of a queue that is not empty, which fails all the same. */
  function Peeked(l: Lay, n: nat): Lay {
    if l.a.size + l.b.size < n || 0 < n <= l.a.size || l.a.size == 0 then l else Grown(l, l.size + 1)
  }

  /** What a write of `n` bytes finds room for, given that it first makes room for `n` in all. */
  function RoomOf(l: Lay, n: nat): nat
    requires Good(l)
  {
    UsedFits(l);
    if FreeOf(l.size, l.a, l.b) >= n || Padded(n) <= l.size then WritableOf(l.size, l.a, l.b)
    else Padded(n) - (l.a.size + l.b.size)
  }

  lemma UsedFits(l: Lay)
    requires Good(l)
    ensures l.a.size + l.b.size <= l.size
  {
  }

  /** Where the blocks are after `n` reserved bytes have been committed. */
  function CommitA(a: Block, b: Block, w: Block, n: nat): Block {
    if a.size == 0 && b.size == 0 then Block(w.index, n)
    else if w.index == a.size + a.index then Block(a.index, a.size + n)
    else a
  }

  function CommitB(a: Block, b: Block, w: Block, n: nat): Block {
    if (a.size == 0 && b.size == 0) || w.index == a.size + a.index then b else Block(b.index, b.size + n)
  }

  /** Committing appends the reserved bytes wherever the region was. */
  lemma CommitAppends(bytes: seq<Byte>, a: Block, b: Block, w: Block, n: nat)
    requires Layout(|bytes|, a, b) && Placed(|bytes|, a, b, w) && n <= w.size
    ensures Layout(|bytes|, CommitA(a, b, w, n), CommitB(a, b, w, n))
    ensures Placed(|bytes|, CommitA(a, b, w, n), CommitB(a, b, w, n), Block(0, 0))
    ensures Queued(bytes, CommitA(a, b, w, n), CommitB(a, b, w, n))
            == Queued(bytes, a, b) + bytes[w.index..w.index + w.size][..n]
  {
    CommitPlaced(|bytes|, a, b, w, n);
    Prefix(bytes, w.index, w.size, n);
    hide Layout, Placed, CommitA, CommitB, Queued;
    if n == 0 {
      CommitNothing(bytes, a, b, w);
    } else {
      CommitSome(bytes, a, b, w, n);
    }
  }

  lemma CommitPlaced(size: nat, a: Block, b: Block, w: Block, n: nat)
    requires Layout(size, a, b) && Placed(size, a, b, w) && n <= w.size
    ensures Layout(size, CommitA(a, b, w, n), CommitB(a, b, w, n))
    ensures Placed(size, CommitA(a, b, w, n), CommitB(a, b, w, n), Block(0, 0))
    ensures w.index + w.size <= size
  {
  }

  lemma Prefix(bytes: seq<Byte>, at: nat, size: nat, n: nat)
    requires at + size <= |bytes| && n <= size
    ensures bytes[at..at + size][..n] == bytes[at..at + n]
  {
  }

  lemma CommitNothing(bytes: seq<Byte>, a: Block, b: Block, w: Block)
    requires Layout(|bytes|, a, b) && Layout(|bytes|, CommitA(a, b, w, 0), CommitB(a, b, w, 0)) && w.index <= |bytes|
    ensures Queued(bytes, CommitA(a, b, w, 0), CommitB(a, b, w, 0)) == Queued(bytes, a, b) + bytes[w.index..w.index + 0]
  {
  }

  lemma CommitSome(bytes: seq<Byte>, a: Block, b: Block, w: Block, n: nat)
    requires Layout(|bytes|, a, b) && Placed(|bytes|, a, b, w) && 0 < n <= w.size && w.index + w.size <= |bytes|
    requires Layout(|bytes|, CommitA(a, b, w, n), CommitB(a, b, w, n))
    ensures Queued(bytes, CommitA(a, b, w, n), CommitB(a, b, w, n)) == Queued(bytes, a, b) + bytes[w.index..w.index + n]
  {
    if a.size == 0 && b.size == 0 {
      FirstBlock(bytes, a.index, w.index, n);
    } else if w.index == a.size + a.index {
      FrontGrows(bytes, a.index, a.size, n);
    } else {
      BackGrows(bytes, bytes[a.index..a.index + a.size], b.size, n);
    }
  }

  lemma FirstBlock(bytes: seq<Byte>, a: nat, w: nat, n: nat)
    requires a <= |bytes| && w + n <= |bytes|
    ensures bytes[w..w + n] + bytes[..0] == bytes[a..a + 0] + bytes[..0] + bytes[w..w + n]
  {
  }

  lemma FrontGrows(bytes: seq<Byte>, a: nat, k: nat, n: nat)
    requires a + k + n <= |bytes|
    ensures bytes[a..a + (k + n)] + bytes[..0] == bytes[a..a + k] + bytes[..0] + bytes[a + k..a + k + n]
  {
  }

  lemma BackGrows(bytes: seq<Byte>, front: seq<Byte>, k: nat, n: nat)
    requires k + n <= |bytes|
    ensures front + bytes[..k + n] == front + bytes[..k] + bytes[k..k + n]
  {
    assert bytes[..k + n] == bytes[..k] + bytes[k..k + n];
  }

  lemma NothingReserved(size: nat, a: Block, b: Block)
    ensures Placed(size, a, b, Block(0, 0))
  {
  }

  lemma Nothing(queue: seq<Byte>, reserved: seq<Byte>)
    ensures queue + reserved[..0] == queue
  {
  }

  lemma Rejoin(queue: seq<Byte>, first: seq<Byte>, second: seq<Byte>)
    requires |first| + |second| == |queue| && first == queue[..|first|] && second == queue[|first|..][..|second|]
    ensures first + second == queue
  {
  }

  lemma FrontBytes(bytes: seq<Byte>, a: Block, b: Block, n: nat)
    requires Layout(|bytes|, a, b) && n <= a.size
    ensures bytes[a.index..a.index + n] == Queued(bytes, a, b)[..n]
  {
  }

  lemma SplitAt(queue: seq<Byte>, n: nat)
    requires n <= |queue|
    ensures queue[..n] + queue[n..] == queue && [] + queue == queue
  {
  }

  /** Dropping the front keeps the layout, the reservation and the rest of the queue. */
  lemma DropFront(bytes: seq<Byte>, a: Block, b: Block, w: Block, n: nat)
    requires Layout(|bytes|, a, b) && Placed(|bytes|, a, b, w)
    ensures n >= a.size ==> Layout(|bytes|, b, Block(0, 0)) && Placed(|bytes|, b, Block(0, 0), w)
    ensures n >= a.size ==> Queued(bytes, b, Block(0, 0)) == Queued(bytes, a, b)[a.size..]
    ensures n < a.size ==>
              && Layout(|bytes|, Block(a.index + n, a.size - n), b)
              && Placed(|bytes|, Block(a.index + n, a.size - n), b, w)
              && Queued(bytes, Block(a.index + n, a.size - n), b) == Queued(bytes, a, b)[n..]
  {
  }

  /** Bytes outside the blocks do not matter to the queue. */
  lemma FillOutside(bytes: seq<Byte>, bytes': seq<Byte>, a: Block, b: Block, w: Block)
    requires Layout(|bytes|, a, b) && Placed(|bytes|, a, b, w) && |bytes'| == |bytes|
    requires forall i :: 0 <= i < |bytes| && !(w.index <= i < w.index + w.size) ==> bytes'[i] == bytes[i]
    ensures Queued(bytes', a, b) == Queued(bytes, a, b)
  {
  }

  /** Bytes put at the start of a reserved region are in it, and not in the queue. */
  lemma FillRegion(bytes: seq<Byte>, a: Block, b: Block, w: Block, data: seq<Byte>)
    requires Layout(|bytes|, a, b) && Placed(|bytes|, a, b, w) && |data| <= w.size && w.index + w.size <= |bytes|
    ensures var after := Splice(bytes, w.index, data);
            && |after| == |bytes| && Queued(after, a, b) == Queued(bytes, a, b)
            && after[w.index..w.index + w.size] == data + bytes[w.index..w.index + w.size][|data|..]
  {
    SpliceInside(bytes, w.index, data);
    var after := Splice(bytes, w.index, data);
    hide Splice;
    FillOutside(bytes, after, a, b, w);
    hide *;
    var inside, was := after[w.index..w.index + w.size], bytes[w.index..w.index + w.size];
    forall i | 0 <= i < w.size ensures inside[i] == (data + was[|data|..])[i] {
      if i < |data| {
        assert after[w.index..w.index + |data|][i] == data[i];
      } else {
        assert after[w.index + i] == bytes[w.index + i];
      }
    }
  }

  class BipBuffer {
    var buffer: array<Byte>
    var size: nat
    var blockA: Block
    var blockB: Block
    var writeR: Block

    constructor (size: nat)
      requires size >= 1
      ensures Valid() && fresh(buffer) && UsedSize() == 0 && this.size == Padded(size) && writeR == Block(0, 0)
    {
      buffer := new Byte[Padded(size)];
      this.size := Padded(size);
      blockA, blockB, writeR := Block(0, 0), Block(0, 0), Block(0, 0);
    }

    ghost predicate Valid()
      reads this
    {
      buffer.Length == size && Layout(size, blockA, blockB) && Placed(size, blockA, blockB, writeR)
    }

    ghost function Where(): (l: Lay)
      reads this
      ensures Valid() ==> Good(l)
    {
      Lay(size, blockA, blockB)
    }

    /** The queued bytes, oldest first. */
    ghost function Contents(): (c: seq<Byte>)
      requires Valid()
      reads this, buffer
      ensures |c| == UsedSize()
    {
      Queued(buffer[..], blockA, blockB)
    }

    /** The bytes in the reserved region, which the writer may fill before it commits them. */
    ghost function Reserved(): (c: seq<Byte>)
      requires Valid()
      reads this, buffer
      ensures |c| == writeR.size
    {
      buffer[..][writeR.index..writeR.index + writeR.size]
    }

    function UsedSize(): nat
      reads this
    {
      blockA.size + blockB.size
    }

    ghost function Free(): nat
      requires Valid()
      reads this
    {
      FreeOf(size, blockA, blockB)
    }

    ghost function Writable(): nat
      requires Valid()
      reads this
    {
      WritableOf(size, blockA, blockB)
    }

    method Clear()
      requires Valid()
      modifies this`blockA, this`blockB, this`writeR
      ensures Valid() && UsedSize() == 0 && writeR.size == writeR.index == blockA.index == 0
    {
      blockA, blockB, writeR := Block(0, 0), Block(0, 0), Block(0, 0);
    }

    /** Reserves up to `want` bytes; on failure an older reservation stays as it is, and so does the
        caller's count. */
    method WriteTryReserve(want: nat, count: nat) returns (ok: bool, reserved: nat)
      requires Valid()
      modifies this`writeR
      ensures Valid() && Contents() == old(Contents())
      ensures ok <==> Free() > 0 && (blockB.size > 0 ==> want > 0)
      ensures ok ==> reserved == Min(want, Free())
      ensures ok ==> writeR == Block(NextOf(size, blockA, blockB), Min(want, Free()))
      ensures !ok ==> writeR == old(writeR) && reserved == count
    {
      reserved := count;
      if blockB.size == 0 {
        var reservable := size - blockA.index - blockA.size;
        if reservable >= blockA.index {
          if reservable == 0 { return false, reserved; }
          if want < reservable { reservable := want; }
          writeR := Block(blockA.index + blockA.size, reservable);
          return true, reservable;
        }
        if blockA.index == 0 { return false, reserved; }
        var amount := want;
        if blockA.index < want { amount := blockA.index; }
        writeR := Block(0, amount);
        return true, amount;
      }
      var reservable := blockA.index - blockB.index - blockB.size;
      if want < reservable { reservable := want; }
      if reservable == 0 { return false, reserved; }
      writeR := Block(blockB.index + blockB.size, reservable);
      ok, reserved := true, reservable;
    }

    /** The writer filling the region it has reserved, from its start. */
    method Fill(data: seq<Byte>)
      requires Valid() && |data| <= writeR.size
      modifies buffer
      ensures Valid() && Contents() == old(Contents())
      ensures Reserved() == data + old(Reserved())[|data|..]
    {
      hide Queued, Layout, Placed, Splice;
      ReservedFits();
      FillRegion(buffer[..], blockA, blockB, writeR, data);
      CopyIn(writeR.index, data);
    }

    method CopyIn(at: nat, data: seq<Byte>)
      requires at + |data| <= buffer.Length
      modifies buffer
      ensures buffer[..] == Splice(old(buffer[..]), at, data)
    {
      SpliceInside(buffer[..], at, data);
      hide Splice;
      ghost var after := Splice(buffer[..], at, data);
      forall i | 0 <= i < |data| {
        buffer[at + i] := data[i];
      }
      forall k | 0 <= k < buffer.Length ensures buffer[k] == after[k] {
        if at <= k < at + |data| { assert after[at..at + |data|][k - at] == after[k]; }
      }
    }

    lemma ReservedFits()
      requires Valid()
      ensures writeR.index + writeR.size <= buffer.Length == size
      ensures Layout(size, blockA, blockB) && Placed(size, blockA, blockB, writeR)
    {
    }

    /** Appends exactly the first `min(n, reserved)` bytes of the reserved region. */
    method WriteCommit(n: nat)
      requires Valid()
      modifies this`blockA, this`blockB, this`writeR
      ensures Valid() && writeR == Block(0, 0)
      ensures Contents() == old(Contents()) + old(Reserved())[..Min(n, old(writeR.size))]
      ensures Where() == old(Committed(Where(), writeR, n))
    {
      hide Queued, Layout, Placed;
      NothingReserved(size, blockA, blockB);
      if n == 0 {
        Nothing(Contents(), Reserved());
        writeR := Block(0, 0);
        return;
      }
      CommitAppends(buffer[..], blockA, blockB, writeR, Min(n, writeR.size));
      var amount := if n > writeR.size then writeR.size else n;
      if blockA.size == 0 && blockB.size == 0 {
        blockA := Block(writeR.index, amount);
        writeR := Block(0, 0);
        return;
      }
      if writeR.index == blockA.size + blockA.index {
        blockA := Block(blockA.index, blockA.size + amount);
      } else {
        blockB := Block(blockB.index, blockB.size + amount);
      }
      writeR := Block(0, 0);
    }

    /** The oldest bytes that are contiguous, at most `want` of them when `want` is not 0. */
    method ReadTryReserve(want: nat) returns (ok: bool, reserved: nat)
      requires Valid()
      ensures ok <==> blockA.size > 0
      ensures reserved == if want > 0 then Min(want, blockA.size) else blockA.size
      ensures buffer[blockA.index..blockA.index + reserved] == Contents()[..reserved]
    {
      if blockA.size == 0 { return false, 0; }
      reserved := blockA.size;
      if want > 0 && reserved > want { reserved := want; }
      ok := true;
    }

    /** Drops the oldest bytes, but no more than are contiguous; a reservation for writing stays good. */
    method ReadCommit(n: nat)
      requires Valid()
      modifies this`blockA, this`blockB
      ensures Valid()
      ensures Contents() == old(Contents())[Min(n, old(blockA.size))..]
      ensures Reserved() == old(Reserved())
      ensures n >= old(blockA.size) ==> blockA == old(blockB) && blockB == Block(0, 0)
      ensures n < old(blockA.size) ==> blockA == old(Block(blockA.index + n, blockA.size - n)) && blockB == old(blockB)
    {
      hide Queued, Layout, Placed;
      DropFront(buffer[..], blockA, blockB, writeR, n);
      if n >= blockA.size {
        blockA := blockB;
        blockB := Block(0, 0);
      } else {
        blockA := Block(blockA.index + n, blockA.size - n);
      }
    }

    /** Copies out what is contiguous at the front, at most `n` bytes, and drops it. */
    method TakeBlock(n: nat) returns (data: seq<Byte>, full: bool)
      requires Valid()
      modifies this`blockA, this`blockB
      ensures Valid() && Reserved() == old(Reserved())
      ensures |data| == Min(n, old(blockA.size))
      ensures data == old(Contents())[..|data|] && Contents() == old(Contents())[|data|..]
      ensures full <==> |data| == old(blockA.size)
      ensures full ==> blockA.size == old(blockB.size) && blockB.size == 0
      ensures Where() == old(Dropped(Where(), n))
    {
      hide Queued, Placed;
      var ok, blockSize := ReadTryReserve(0);
      data := [];
      if ok {
        var readSize := if n > blockSize then blockSize else n;
        FrontBytes(buffer[..], blockA, blockB, readSize);
        data := buffer[..][blockA.index..blockA.index + readSize];
        ReadCommit(readSize);
      }
      full := |data| == blockSize;
    }

    /** Removes exactly the first `min(n, used)` bytes of the queue. */
    method Read(n: nat) returns (data: seq<Byte>)
      requires Valid()
      modifies this`blockA, this`blockB
      ensures Valid() && Reserved() == old(Reserved())
      ensures |data| == Min(n, old(UsedSize())) && data + Contents() == old(Contents())
      ensures Where() == old(Taken(Where(), n))
    {
      hide Queued, Layout, Placed;
      var full;
      data, full := TakeBlock(n);
      ghost var all := old(Contents());
      SplitAt(all, |data|);
      if |data| == n || !full { return; }
      var more;
      more, full := TakeBlock(n - |data|);
      SplitAt(all[|data|..], |more|);
      Then(data, more, Contents());
      data := data + more;
    }

    /** Makes room for `want` bytes in all.  The queue moves to the front of a larger buffer, unchanged;
        a reservation is lost when that happens. */
    method Grow(want: nat) returns (ok: bool)
      requires Valid()
      modifies this
      ensures Valid() && ok
      ensures Contents() == old(Contents())
      ensures Where() == old(Grown(Where(), want))
      ensures Padded(want) <= old(size) ==> buffer == old(buffer) && writeR == old(writeR)
      ensures Padded(want) > old(size) ==> fresh(buffer) && writeR.size == 0
    {
      hide Queued, Padded, Layout, Placed;
      if Padded(want) <= size { return true; }
      var larger := new Byte[Padded(want)];
      UsedFits(Where());
      var used := MoveInto(larger);
      StartOver(larger, Padded(want), used);
      ok := true;
    }

    /** Reads the whole queue, in at most two pieces, to the front of another buffer. */
    method MoveInto(target: array<Byte>) returns (used: nat)
      requires Valid() && target != buffer && UsedSize() <= target.Length
      modifies this`blockA, this`blockB, target
      ensures Valid() && used == old(UsedSize()) && target[..used] == old(Contents())
    {
      hide Queued, Layout, Placed;
      UsedFits(Where());
      var first, full := TakeBlock(size);
      PutAt(target, 0, first);
      var second;
      second, full := TakeBlock(size);
      PutAt(target, |first|, second);
      Rejoin(old(Contents()), first, second);
      used := |first| + |second|;
    }

    ghost function Room(n: nat): nat
      requires Valid()
      reads this
    {
      RoomOf(Where(), n)
    }

    /** Reserves up to `want` bytes, after making room for `want` bytes in all if the next free run is
        shorter: that may still be less than was asked for. */
    method WriteReserve(want: nat) returns (ok: bool)
      requires Valid()
      modifies this
      ensures Valid() && Contents() == old(Contents())
      ensures fresh(buffer) || buffer == old(buffer)
      ensures Where() == old(Ready(Where(), want))
      ensures ok <==> Free() > 0 && (want > 0 || blockB.size == 0)
      ensures ok ==> writeR == Region(Where(), want)
      ensures !ok ==> buffer == old(buffer) && Where() == old(Where()) && writeR == old(writeR)
      ensures want > 0 ==> Writable() == old(Room(want))
    {
      hide Queued, FreeOf, WritableOf, NextOf, Placed, Padded;
      var reserved;
      FillRun(size, blockA, blockB);
      ok, reserved := WriteTryReserve(want, 0);
      if reserved == want { return; }
      ok := Grow(want);
      GrownRun(old(Where()), want);
      if !ok { return false; }
      ok, reserved := WriteTryReserve(want, 0);
    }

    /** Copies as much of the data as the next free run takes. */
    method PutBlock(data: seq<Byte>) returns (put: nat)
      requires Valid()
      modifies this`blockA, this`blockB, this`writeR, buffer
      ensures Valid() && put == Min(|data|, old(Free()))
      ensures Contents() == old(Contents()) + data[..put]
      ensures 0 < put == old(Free()) ==> Free() == old(Writable()) - put
      ensures Where() == old(PutOnce(Where(), |data|))
      ensures put == 0 && old(Free()) == 0 ==> writeR == old(writeR)
      ensures old(Free()) > 0 && (|data| > 0 || old(blockB.size) == 0) ==> writeR == Block(0, 0)
    {
      hide Queued, FreeOf, WritableOf, NextOf, Placed, Layout, CommitA, CommitB;
      FillRun(size, blockA, blockB);
      var ok, blockSize := WriteTryReserve(|data|, 0);
      put := 0;
      if ok {
        var writeSize := if |data| > blockSize then blockSize else |data|;
        Fill(data[..writeSize]);
        WriteCommit(writeSize);
        put := writeSize;
      }
    }

    method PutAt(target: array<Byte>, at: nat, data: seq<Byte>)
      requires at + |data| <= target.Length
      modifies target
      ensures target[..at + |data|] == old(target[..at]) + data
      ensures at == 0 ==> target[..|data|] == data
    {
      forall i | 0 <= i < |data| { target[at + i] := data[i]; }
    }

    /** Takes over a larger buffer with the whole queue at its front. */
    method StartOver(larger: array<Byte>, newSize: nat, used: nat)
      requires Valid() && larger.Length == newSize && used <= newSize
      modifies this
      ensures Valid() && Contents() == larger[..used] && buffer == larger && size == newSize
      ensures writeR.size == 0 && blockA == Block(0, used) && blockB == Block(0, 0)
    {
      hide Queued;
      Clear();
      buffer := larger;
      size := newSize;
      blockA := Block(0, used);
      QueuedAtFront(larger[..], used);
      assert larger[..][..used] == larger[..used];
    }

    /** Any `n` queued bytes can be had contiguously, at the price of growing the buffer. */
    method ReadReserve(n: nat) returns (ok: bool)
      requires Valid()
      modifies this
      ensures Valid() && Contents() == old(Contents()) && size >= old(size)
      ensures fresh(buffer) || buffer == old(buffer)
      ensures 0 < n <= old(UsedSize()) ==>
                ok && blockA.size >= n && buffer[blockA.index..blockA.index + n] == Contents()[..n]
      ensures n == 0 || n > old(UsedSize()) ==> !ok
      ensures Where() == old(Peeked(Where(), n))
      ensures Where() == old(Where()) ==> buffer == old(buffer) && writeR == old(writeR)
      ensures Where() != old(Where()) ==> writeR.size == 0
    {
      hide Queued;
      if UsedSize() < n { return false; }
      var reserved;
      ok, reserved := ReadTryReserve(n);
      if reserved == n { return; }
      ok := Grow(size + 1);
      if !ok { return false; }
      ok, reserved := ReadTryReserve(n);
      if reserved != n { return false; }
    }

    /** Appends exactly the first `min(n, Room(n))` of the `n` bytes, or reports -1 when there is no room. */
    method Write(data: seq<Byte>) returns (status: int)
      requires Valid()
      modifies this, buffer
      ensures Valid() && (fresh(buffer) || buffer == old(buffer))
      ensures data != [] ==> status == if old(Room(|data|)) == 0 then -1 else Min(|data|, old(Room(|data|)))
      ensures data == [] ==> status == if old(Free()) > 0 && old(blockB.size) == 0 then 0 else -1
      ensures status >= 0 ==> Where() == old(Written(Where(), |data|)) && writeR.size == 0
      ensures status < 0 ==> Where() == old(Where()) && writeR == old(writeR) && Reserved() == old(Reserved())
      ensures Contents() == old(Contents()) + data[..if status > 0 then status else 0]
    {
      hide Queued, FreeOf, WritableOf, NextOf, Placed, Layout, PutOnce, RoomOf, Grown;
      ghost var all := Contents();
      var ok := WriteReserve(|data|);
      if !ok {
        NoRoom(size, blockA, blockB);
        assert data[..0] == [] && all + [] == all;
        return -1;
      }
      status := PutBoth(data);
    }

    /** Copies as much as two free runs take. */
    method PutBoth(data: seq<Byte>) returns (put: nat)
      requires Valid() && Free() > 0 && (|data| > 0 || blockB.size == 0)
      modifies this`blockA, this`blockB, this`writeR, buffer
      ensures Valid() && put == Min(|data|, old(Writable())) && writeR.size == 0 && (put > 0 || data == [])
      ensures Contents() == old(Contents()) + data[..put]
      ensures old(Good(PutOnce(Where(), |data|)))
      ensures var once := old(Region(Where(), |data|)).size;
              Where() == old(if once == |data| then PutOnce(Where(), |data|)
                             else PutOnce(PutOnce(Where(), |data|), |data| - once))
    {
      hide Queued, FreeOf, WritableOf, NextOf, Placed, Layout, PutOnce;
      PutOnceGood(Where(), |data|);
      FillRun(size, blockA, blockB);
      put := PutBlock(data);
      if put == |data| {
        assert data[..put] == data;
        return;
      }
      FillRun(size, blockA, blockB);
      var more := PutBlock(data[put..]);
      TwoPieces(old(Contents()), data, put, more);
      put := put + more;
    }
  }

  lemma TwoPieces(all: seq<Byte>, data: seq<Byte>, n: nat, m: nat)
    requires n + m <= |data|
    ensures all + data[..n] + data[n..][..m] == all + data[..n + m]
  {
    assert data[..n] + data[n..][..m] == data[..n + m];
    Then(all, data[..n], data[n..][..m]);
  }

  lemma NoRoom(size: nat, a: Block, b: Block)
    requires Layout(size, a, b)
    ensures FreeOf(size, a, b) == 0 <==> WritableOf(size, a, b) == 0
  {
  }

  lemma QueuedAtFront(bytes: seq<Byte>, n: nat)
    requires n <= |bytes|
    ensures Queued(bytes, Block(0, n), Block(0, 0)) == bytes[..n]
  {
  }

  // ----- whole runs

  /** What the readers and the writer can do; `Fill` is the writer filling what it has reserved. */
  datatype Op =
    | TryReserve(want: nat)
    | Reserve(want: nat)
    | Fill(data: seq<Byte>)
    | Commit(n: nat)
    | Write(data: seq<Byte>)
    | Read(n: nat)
    | Discard(n: nat)
    | Peek(n: nat)
    | Grow(want: nat)

  /** What an operation answers: whether it succeeds (a write, how much it took or -1), how much is reserved,
      and the bytes that left the queue, went into it, or were shown at its front. */
  datatype Entry = Entry(status: int, reserved: nat, taken: seq<Byte>, put: seq<Byte>, seen: seq<Byte>)

  /** The buffer as its users know it: where the blocks are, the reservation, the queue, and the bytes
      reserved. */
  datatype State = State(lay: Lay, w: Block, queue: seq<Byte>, region: seq<Byte>)

  function Silent(ok: bool): Entry {
    Entry(if ok then 1 else 0, 0, [], [], [])
  }

  // What each operation does: all it answers, the queue and the blocks follow from the state before; only what a
  // new reservation contains is open, until it is filled.

  predicate TriesReserve(s: State, want: nat, e: Entry, t: State)
    requires Good(s.lay)
  {
    var free := FreeOf(s.lay.size, s.lay.a, s.lay.b);
    var ok := free > 0 && (s.lay.b.size > 0 ==> want > 0);
    && e == Silent(ok).(reserved := if ok then Min(want, free) else 0)
    && t == if ok then s.(w := Region(s.lay, want), region := t.region) else s
  }

  predicate Reserves(s: State, want: nat, e: Entry, t: State)
    requires Good(s.lay)
  {
    GrownGood(s.lay, want);
    var ready := Ready(s.lay, want);
    var ok := FreeOf(ready.size, ready.a, ready.b) > 0 && (want > 0 || s.lay.b.size == 0);
    && e == Silent(ok).(reserved := if ok then Region(ready, want).size else 0)
    && t == if ok then s.(lay := ready, w := Region(ready, want), region := t.region) else s
  }

  predicate Fills(s: State, data: seq<Byte>, e: Entry, t: State) {
    && e == Silent(|data| <= |s.region|)
    && t == if |data| <= |s.region| then s.(region := data + s.region[|data|..]) else s
  }

  predicate Commits(s: State, n: nat, e: Entry, t: State) {
    && e == Silent(true).(put := s.region[..Min(n, |s.region|)])
    && t == State(Committed(s.lay, s.w, n), Block(0, 0), s.queue + e.put, [])
  }

  predicate Writes(s: State, data: seq<Byte>, e: Entry, t: State)
    requires Good(s.lay)
  {
    && e == Entry(WriteStatus(s.lay, |data|), 0, [], e.put, [])
    && e.put == data[..if e.status > 0 then e.status else 0]
    && t == if e.status < 0 then s else State(Written(s.lay, |data|), t.w, s.queue + e.put, [])
  }

  predicate Reads(s: State, n: nat, e: Entry, t: State) {
    && e == Silent(true).(taken := s.queue[..Min(n, |s.queue|)])
    && t == s.(lay := Taken(s.lay, n), queue := s.queue[|e.taken|..])
  }

  predicate Discards(s: State, n: nat, e: Entry, t: State) {
    && s.lay.a.size <= |s.queue|
    && e == Silent(true).(taken := s.queue[..Min(n, s.lay.a.size)])
    && t == s.(lay := Dropped(s.lay, n), queue := s.queue[|e.taken|..])
  }

  predicate Peeks(s: State, n: nat, e: Entry, t: State) {
    var ok := 0 < n <= |s.queue|;
    && e == Silent(ok).(seen := if ok then s.queue[..n] else [])
    && Moved(s, Peeked(s.lay, n), t)
  }

  predicate Grows(s: State, want: nat, e: Entry, t: State) {
    e == Silent(true) && Moved(s, Grown(s.lay, want), t)
  }

  predicate Legal(s: State, op: Op, e: Entry, t: State)
    requires Good(s.lay)
  {
    match op
    case TryReserve(want) => TriesReserve(s, want, e, t)
    case Reserve(want) => Reserves(s, want, e, t)
    case Fill(data) => Fills(s, data, e, t)
    case Commit(n) => Commits(s, n, e, t)
    case Write(data) => Writes(s, data, e, t)
    case Read(n) => Reads(s, n, e, t)
    case Discard(n) => Discards(s, n, e, t)
    case Peek(n) => Peeks(s, n, e, t)
    case Grow(want) => Grows(s, want, e, t)
  }

  /** When the queue has moved to a larger buffer a reservation is gone. */
  predicate Moved(s: State, lay: Lay, t: State) {
    if lay == s.lay then t == s else t == State(lay, t.w, s.queue, [])
  }

  /** How much of `n` bytes a write takes; -1 when there is no room at all. */
  function WriteStatus(l: Lay, n: nat): (status: int)
    requires Good(l)
    ensures -1 <= status <= n
  {
    if n == 0 then if FreeOf(l.size, l.a, l.b) > 0 && l.b.size == 0 then 0 else -1
    else if RoomOf(l, n) == 0 then -1
    else Min(n, RoomOf(l, n))
  }

  /** There are as many bytes in the queue and in the reserved region as the blocks say. */
  predicate Whole(s: State) {
    |s.region| == s.w.size && |s.queue| == s.lay.a.size + s.lay.b.size
  }

  /** A run: one answer for each operation, and a state before and after each. */
  predicate LegalRun(ops: seq<Op>, log: seq<Entry>, states: seq<State>) {
    && |log| == |ops| && |states| == |ops| + 1
    && (forall i :: 0 <= i < |states| ==> Good(states[i].lay) && Whole(states[i]))
    && (forall i :: 0 <= i < |ops| ==> Legal(states[i], ops[i], log[i], states[i + 1]))
  }

  function AllTaken(log: seq<Entry>): seq<Byte> {
    if |log| == 0 then [] else AllTaken(log[..|log| - 1]) + log[|log| - 1].taken
  }

  function AllPut(log: seq<Entry>): seq<Byte> {
    if |log| == 0 then [] else AllPut(log[..|log| - 1]) + log[|log| - 1].put
  }

  /** Each operation keeps the order of the queue. */
  lemma StepKeepsOrder(s: State, op: Op, e: Entry, t: State)
    requires Good(s.lay) && Legal(s, op, e, t)
    ensures e.taken + t.queue == s.queue + e.put
  {
    hide Ready, Region, Written, Committed, RoomOf, Taken, Dropped, Peeked, Grown, Padded, FreeOf, WriteStatus;
    match op
    case Read(n) => SplitAt(s.queue, |e.taken|);
    case Discard(n) => SplitAt(s.queue, |e.taken|);
    case _ =>
  }

  /** In every run all that was taken out, in order, followed by what is still queued, is what was queued
      followed by all that was put in, in order: none lost, none invented, none overtaken. */
  lemma {:induction false} RunIsQueue(ops: seq<Op>, log: seq<Entry>, states: seq<State>)
    requires LegalRun(ops, log, states)
    ensures AllTaken(log) + states[|ops|].queue == states[0].queue + AllPut(log)
  {
    hide Legal, Good;
    if |ops| > 0 {
      var n := |ops| - 1;
      RunPrefix(ops, log, states, n);
      RunIsQueue(ops[..n], log[..n], states[..n + 1]);
      StepKeepsOrder(states[n], ops[n], log[n], states[n + 1]);
      Queue(states[0].queue, AllPut(log[..n]), AllTaken(log[..n]), states[n].queue, log[n].taken, log[n].put,
            states[n + 1].queue);
    }
  }

  lemma RunPrefix(ops: seq<Op>, log: seq<Entry>, states: seq<State>, n: nat)
    requires LegalRun(ops, log, states) && n <= |ops|
    ensures LegalRun(ops[..n], log[..n], states[..n + 1])
  {
    hide Legal, Good;
  }

  lemma Queue(before: seq<Byte>, put: seq<Byte>, taken: seq<Byte>, queue: seq<Byte>, o: seq<Byte>, i: seq<Byte>,
              next: seq<Byte>)
    requires taken + queue == before + put && o + next == queue + i
    ensures taken + o + next == before + (put + i)
  {
    assert taken + o + next == taken + (o + next) == taken + queue + i == before + put + i == before + (put + i);
  }

  /** What has been filled in is what is committed, whatever is read in between. */
  lemma {:induction false} CommitsWhatWasFilled(ops: seq<Op>, log: seq<Entry>, states: seq<State>, i: nat, j: nat)
    requires LegalRun(ops, log, states) && i < j < |ops|
    requires ops[i].Fill? && |ops[i].data| <= |states[i].region| && ops[j].Commit?
    requires forall k :: i < k < j ==> ops[k].Read? || ops[k].Discard?
    ensures log[j].put == (ops[i].data + states[i].region[|ops[i].data|..])[..Min(ops[j].n, |states[i].region|)]
    ensures ops[j].n <= |ops[i].data| ==> log[j].put == ops[i].data[..ops[j].n]
  {
    RegionStays(ops, log, states, i, j);
    assert Legal(states[i], ops[i], log[i], states[i + 1]) && Legal(states[j], ops[j], log[j], states[j + 1]);
  }

  lemma {:induction false} RegionStays(ops: seq<Op>, log: seq<Entry>, states: seq<State>, i: nat, j: nat)
    requires LegalRun(ops, log, states) && i < j < |ops|
    requires forall k :: i < k < j ==> ops[k].Read? || ops[k].Discard?
    ensures states[j].region == states[i + 1].region
  {
    if i + 1 < j {
      RegionStays(ops, log, states, i, j - 1);
      assert Legal(states[j - 1], ops[j - 1], log[j - 1], states[j]);
    }
  }

  /** What is reserved stays reserved until it is committed, whatever is filled in and read in between: the commit puts
      the first `min(n, reserved)` bytes of the region. */
  lemma {:induction false} CommitsWhatWasReserved(ops: seq<Op>, log: seq<Entry>, states: seq<State>, i: nat, j: nat)
    requires LegalRun(ops, log, states) && i < j < |ops| && ops[j].Commit?
    requires (ops[i].TryReserve? || ops[i].Reserve?) && log[i].status == 1
    requires forall k :: i < k < j ==> ops[k].Read? || ops[k].Discard? || ops[k].Fill?
    ensures |states[j].region| == log[i].reserved
    ensures log[j].put == states[j].region[..Min(ops[j].n, log[i].reserved)]
  {
    ReservationStays(ops, log, states, i, j);
    assert Legal(states[j], ops[j], log[j], states[j + 1]);
  }

  lemma {:induction false} ReservationStays(ops: seq<Op>, log: seq<Entry>, states: seq<State>, i: nat, j: nat)
    requires LegalRun(ops, log, states) && i < j <= |ops|
    requires (ops[i].TryReserve? || ops[i].Reserve?) && log[i].status == 1
    requires forall k :: i < k < j ==> ops[k].Read? || ops[k].Discard? || ops[k].Fill?
    ensures states[j].w.size == log[i].reserved == |states[j].region|
  {
    hide Good, Ready, FreeOf, Taken, Dropped;
    if i + 1 < j {
      ReservationStays(ops, log, states, i, j - 1);
      assert Legal(states[j - 1], ops[j - 1], log[j - 1], states[j]);
    } else {
      assert Legal(states[i], ops[i], log[i], states[j]);
    }
    assert Whole(states[j]);
  }

  /** Bytes that are reserved for, filled in and committed are put as they are, whatever is read in between. */
  lemma ReserveFillCommit(ops: seq<Op>, log: seq<Entry>, states: seq<State>, i: nat, f: nat, j: nat)
    requires LegalRun(ops, log, states) && i < f < j < |ops|
    requires (ops[i].TryReserve? || ops[i].Reserve?) && log[i].status == 1
    requires ops[f].Fill? && |ops[f].data| <= log[i].reserved && ops[j].Commit?
    requires forall k :: i < k < j && k != f ==> ops[k].Read? || ops[k].Discard?
    ensures |log[j].put| == Min(ops[j].n, log[i].reserved)
    ensures log[j].put[..Min(ops[j].n, |ops[f].data|)] == ops[f].data[..Min(ops[j].n, |ops[f].data|)]
  {
    ReservationStays(ops, log, states, i, f);
    CommitsWhatWasReserved(ops, log, states, i, j);
    CommitsWhatWasFilled(ops, log, states, f, j);
    hide *;
  }

  ghost function StateOf(b: BipBuffer): State
    requires b.Valid()
    reads b, b.buffer
  {
    State(b.Where(), b.writeR, b.Contents(), b.Reserved())
  }

  lemma StateWhole(b: BipBuffer)
    requires b.Valid()
    ensures Whole(StateOf(b))
  {
  }

  /** Any operations in any order, reads between a reservation and its commit included: what each answers
      follows from the run before it, and the bytes come out in the order they went in. */
  method Run(b: BipBuffer, ops: seq<Op>) returns (log: seq<Entry>, ghost states: seq<State>)
    requires b.Valid()
    modifies b, b.buffer
    ensures b.Valid() && LegalRun(ops, log, states)
    ensures states[0] == old(StateOf(b)) && states[|ops|] == StateOf(b)
    ensures AllTaken(log) + b.Contents() == old(b.Contents()) + AllPut(log)
  {
    hide Legal, Layout, Placed, Queued;
    log, states := [], [StateOf(b)];
    StateWhole(b);
    for i := 0 to |ops|
      invariant b.Valid() && (fresh(b.buffer) || b.buffer == old(b.buffer))
      invariant LegalRun(ops[..i], log, states) && states[0] == old(StateOf(b)) && states[i] == StateOf(b)
    {
      var e := Step(b, ops[i]);
      StateWhole(b);
      OneMoreStep(ops[..i], log, states, ops[i], e, StateOf(b));
      assert ops[..i + 1] == ops[..i] + [ops[i]];
      log, states := log + [e], states + [StateOf(b)];
    }
    assert ops[..|ops|] == ops;
    RunIsQueue(ops, log, states);
  }

  lemma OneMoreStep(ops: seq<Op>, log: seq<Entry>, states: seq<State>, op: Op, e: Entry, t: State)
    requires LegalRun(ops, log, states) && Good(t.lay) && Whole(t) && Legal(states[|ops|], op, e, t)
    ensures LegalRun(ops + [op], log + [e], states + [t])
  {
    hide Legal, Good;
  }

  lemma InBounds(size: nat, a: Block, b: Block, w: Block)
    requires Layout(size, a, b) && Placed(size, a, b, w)
    ensures a.index + a.size <= size && w.index + w.size <= size
  {
  }

  method Step(b: BipBuffer, op: Op) returns (e: Entry)
    requires b.Valid()
    modifies b, b.buffer
    ensures b.Valid() && (fresh(b.buffer) || b.buffer == old(b.buffer))
    ensures old(Good(b.Where())) && Legal(old(StateOf(b)), op, e, StateOf(b))
  {
    hide Layout, Placed, Queued, Good, TriesReserve, Reserves, Fills, Commits, Writes, Reads, Discards, Peeks, Grows;
    match op
    case TryReserve(want) => e := StepTryReserve(b, want);
    case Reserve(want) => e := StepReserve(b, want);
    case Fill(data) => e := StepFill(b, data);
    case Commit(n) => e := StepCommit(b, n);
    case Write(data) => e := StepWrite(b, data);
    case Read(n) => e := StepRead(b, n);
    case Discard(n) => e := StepDiscard(b, n);
    case Peek(n) => e := StepPeek(b, n);
    case Grow(want) => e := StepGrow(b, want);
  }

  method StepTryReserve(b: BipBuffer, want: nat) returns (e: Entry)
    requires b.Valid()
    modifies b
    ensures b.Valid() && b.buffer == old(b.buffer)
    ensures old(Good(b.Where())) && TriesReserve(old(StateOf(b)), want, e, StateOf(b))
  {
    hide Queued, Layout, Placed, FreeOf, NextOf;
    var ok, reserved := b.WriteTryReserve(want, 0);
    e := Silent(ok).(reserved := reserved);
  }

  method StepReserve(b: BipBuffer, want: nat) returns (e: Entry)
    requires b.Valid()
    modifies b
    ensures b.Valid() && (fresh(b.buffer) || b.buffer == old(b.buffer))
    ensures old(Good(b.Where())) && Reserves(old(StateOf(b)), want, e, StateOf(b))
  {
    hide Queued, Layout, Placed, FreeOf, NextOf, Grown;
    var ok := b.WriteReserve(want);
    e := Silent(ok).(reserved := if ok then b.writeR.size else 0);
  }

  method StepFill(b: BipBuffer, data: seq<Byte>) returns (e: Entry)
    requires b.Valid()
    modifies b.buffer
    ensures b.Valid()
    ensures old(Good(b.Where())) && Fills(old(StateOf(b)), data, e, StateOf(b))
  {
    hide Queued, Layout, Placed;
    e := Silent(|data| <= b.writeR.size);
    if |data| <= b.writeR.size { b.Fill(data); }
  }

  method StepCommit(b: BipBuffer, n: nat) returns (e: Entry)
    requires b.Valid()
    modifies b
    ensures b.Valid() && b.buffer == old(b.buffer)
    ensures old(Good(b.Where())) && Commits(old(StateOf(b)), n, e, StateOf(b))
  {
    hide Queued, Layout, Placed, Committed;
    InBounds(b.size, b.blockA, b.blockB, b.writeR);
    var reserved := b.buffer[..][b.writeR.index..b.writeR.index + b.writeR.size];
    e := Silent(true).(put := reserved[..Min(n, b.writeR.size)]);
    b.WriteCommit(n);
  }

  method StepWrite(b: BipBuffer, data: seq<Byte>) returns (e: Entry)
    requires b.Valid()
    modifies b, b.buffer
    ensures b.Valid() && (fresh(b.buffer) || b.buffer == old(b.buffer))
    ensures old(Good(b.Where())) && Writes(old(StateOf(b)), data, e, StateOf(b))
  {
    hide Queued, Layout, Placed, Written, RoomOf, FreeOf;
    var status := b.Write(data);
    e := Entry(status, 0, [], data[..if status > 0 then status else 0], []);
  }

  method StepRead(b: BipBuffer, n: nat) returns (e: Entry)
    requires b.Valid()
    modifies b
    ensures b.Valid() && b.buffer == old(b.buffer)
    ensures old(Good(b.Where())) && Reads(old(StateOf(b)), n, e, StateOf(b))
  {
    hide Queued, Layout, Placed, Taken;
    var data := b.Read(n);
    e := Silent(true).(taken := data);
  }

  method StepDiscard(b: BipBuffer, n: nat) returns (e: Entry)
    requires b.Valid()
    modifies b
    ensures b.Valid() && b.buffer == old(b.buffer)
    ensures old(Good(b.Where())) && Discards(old(StateOf(b)), n, e, StateOf(b))
  {
    hide Queued, Layout, Placed, Dropped, Min;
    ghost var s := StateOf(b);
    var data, full := b.TakeBlock(n);
    e := Silent(true).(taken := data);
    Discarded(s, n, e, StateOf(b), data);
  }

  lemma Discarded(s: State, n: nat, e: Entry, t: State, data: seq<Byte>)
    requires s.lay.a.size <= |s.queue| && |data| == Min(n, s.lay.a.size) && data == s.queue[..|data|]
    requires e == Silent(true).(taken := data) && t == s.(lay := Dropped(s.lay, n), queue := s.queue[|data|..])
    ensures Discards(s, n, e, t)
  {
  }

  method StepPeek(b: BipBuffer, n: nat) returns (e: Entry)
    requires b.Valid()
    modifies b
    ensures b.Valid() && (fresh(b.buffer) || b.buffer == old(b.buffer))
    ensures old(Good(b.Where())) && Peeks(old(StateOf(b)), n, e, StateOf(b))
  {
    hide Queued, Layout, Placed, Peeked;
    var ok := b.ReadReserve(n);
    InBounds(b.size, b.blockA, b.blockB, b.writeR);
    e := Silent(ok).(seen := if ok then b.buffer[b.blockA.index..b.blockA.index + n] else []);
  }

  method StepGrow(b: BipBuffer, want: nat) returns (e: Entry)
    requires b.Valid()
    modifies b
    ensures b.Valid() && (fresh(b.buffer) || b.buffer == old(b.buffer))
    ensures old(Good(b.Where())) && Grows(old(StateOf(b)), want, e, StateOf(b))
  {
    hide Queued, Layout, Placed, Padded;
    var ok := b.Grow(want);
    e := Silent(ok);
  }
}
