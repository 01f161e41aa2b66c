/** The muxer's writers (libwebm/mkvmuxer/mkvmuxerutil.cc) against an in-memory output. */
module EbmlWriter {
  import opened Bytes
  import opened Ebml

  /** An output file: what stood in it at the last seek, where that seek went, and the bytes written
      since.  A writer that is not reliable may refuse any write or seek. */
  class Writer {
    var flushed: seq<Byte>
    var start: nat
    var pending: seq<Byte>
    const seekable: bool
    const reliable: bool
    /** What each write has answered. */
    ghost var answers: seq<int>

    constructor (seekable: bool, reliable: bool)
      ensures Valid() && Data() == [] && Position() == 0 && answers == []
      ensures this.seekable == seekable && this.reliable == reliable
    {
      flushed, start, pending, answers := [], 0, [], [];
      this.seekable, this.reliable := seekable, reliable;
    }

    predicate Valid()
      reads this
    {
      start <= |flushed|
    }

    /** The bytes of the file. */
    function Data(): seq<Byte>
      requires Valid()
      reads this
    {
      Splice(flushed, start, pending)
    }

    function Position(): nat
      reads this
    {
      start + |pending|
    }

    /** Exactly `bs` has been written since. */
    twostate predicate Appended(bs: seq<Byte>)
      reads this
    {
      flushed == old(flushed) && start == old(start) && pending == old(pending) + bs
    }

    /** Writing overwrites the bytes from the position on, and nothing else. */
    twostate lemma AppendedData(bs: seq<Byte>)
      requires old(Valid()) && Appended(bs)
      ensures Valid() && Data() == Splice(old(Data()), old(Position()), bs)
      ensures Position() == old(Position()) + |bs|
    {
      SpliceSplice(flushed, start, old(pending), bs);
    }

    method Write(buf: seq<Byte>) returns (status: int)
      requires Valid()
      modifies this
      ensures Valid() && -1 <= status <= 0
      ensures reliable ==> status == 0
      ensures Appended(if status == 0 then buf else []) && answers == old(answers) + [status]
    {
      status := 0;
      if !reliable {
        if * { status := -1; }
      }
      pending := pending + if status == 0 then buf else [];
      answers := answers + [status];
    }

    method SetPosition(position: int) returns (status: int)
      requires Valid()
      modifies `flushed, `start, `pending
      ensures Valid() && -1 <= status <= 0
      ensures reliable && seekable && 0 <= position <= |Data()| ==> status == 0
      ensures Data() == old(Data())
      ensures Position() == if status == 0 then position else old(Position())
      ensures status == 0 ==> flushed == old(Data()) && start == position && pending == []
    {
      if !seekable || position < 0 || position > |Data()| { return -1; }
      if !reliable {
        if * { return -1; }
      }
      flushed, start, pending := Data(), position, [];
      status := 0;
    }
  }

  /** Shifting right by `8 * k` bits. */
  function ShiftRight(value: int, k: nat): int
    decreases k
  {
    if k == 0 then value else ShiftRight(value / 256, k - 1)
  }

  lemma {:induction false} ShiftRightStep(value: int, k: nat)
    ensures ShiftRight(value, k) / 256 == ShiftRight(value, k + 1)
    decreases k
  {
    if k > 0 { ShiftRightStep(value / 256, k - 1); }
  }

  method SerializeInt(w: Writer, value: int, size: int) returns (status: int)
    requires w.Valid()
    modifies w
    ensures w.Valid() && status <= 0
    ensures status == 0 ==> 1 <= size <= 8 && w.Appended(BigEndian(value, size))
    ensures w.reliable && 1 <= size <= 8 ==> status == 0
  {
    if size < 1 || size > 8 { return -1; }
    ghost var before := w.pending;
    for i := 1 to size + 1
      invariant w.Valid()
      invariant w.Appended(BigEndian(ShiftRight(value, size - i + 1), i - 1))
    {
      var b := ShiftRight(value, size - i) % 256;  // the cast to one byte
      ghost var done := BigEndian(ShiftRight(value, size - i + 1), i - 1);
      status := w.Write([b]);
      if status < 0 { return status; }
      Then(before, done, [b]);
      ShiftRightStep(value, size - i);
    }
    status := 0;
  }

  method LeastSize(value: nat) returns (n: nat)
    requires value <= MAX_CODED
    ensures n == GetCodedUIntSize(value) && 1 <= n <= 8
  {
    CodedSizeIsLeast(value);
    hide Pow128;
    n := 1;
    while value > Pow128(n) - 2
      invariant 1 <= n <= GetCodedUIntSize(value)
      decreases GetCodedUIntSize(value) - n
    {
      n := n + 1;
    }
  }

  method WriteMarked(w: Writer, value: nat, n: nat) returns (status: int)
    requires w.Valid() && 1 <= n <= 8
    modifies w
    ensures w.Valid() && status <= 0
    ensures status == 0 ==> w.Appended(EncodeSized(value, n))
    ensures w.reliable ==> status == 0
  {
    hide Pow128, BigEndian;
    status := SerializeInt(w, value + Pow128(n), n);  // the bit is not set in the value
  }

  /** A marked integer of a given size, or of the least one when `size` is 0.  The least size of a larger value would
      be found by shifting out of range. */
  method WriteUIntSize(w: Writer, value: nat, size: int) returns (status: int)
    requires w.Valid() && (size == 0 ==> value <= MAX_CODED)
    modifies w
    ensures w.Valid() && status <= 0
    ensures status == 0 ==> 0 <= size <= 8
    ensures status == 0 && size == 0 ==> w.Appended(EncodeVint(value))
    ensures status == 0 && size > 0 ==> value <= Pow128(size) - 2 && w.Appended(EncodeSized(value, size))
    ensures w.reliable && (size == 0 || (1 <= size <= 8 && value <= Pow128(size) - 2)) ==> status == 0
  {
    hide GetCodedUIntSize, Pow128, EncodeSized;
    if size < 0 || size > 8 { return -1; }
    if size > 0 {
      if value > Pow128(size) - 2 { return -1; }
      status := WriteMarked(w, value, size);
    } else {
      var n := LeastSize(value);
      status := WriteMarked(w, value, n);
    }
  }

  method WriteUInt(w: Writer, value: nat) returns (status: int)
    requires w.Valid()
    modifies w
    ensures w.Valid() && status <= 0
    ensures status == 0 ==> value <= MAX_CODED && w.Appended(EncodeVint(value))
    ensures w.reliable && value <= MAX_CODED ==> status == 0
  {
    if value <= MAX_CODED { CodedSizeIsLeast(value); } else { SmallPowers(8); }
    status := WriteUIntSize(w, value, GetCodedUIntSize(value));
  }

  method WriteID(w: Writer, id: nat) returns (status: int)
    requires w.Valid()
    modifies w
    ensures w.Valid() && status <= 0
    ensures status == 0 ==> w.Appended(EncodeId(id))
    ensures w.reliable ==> status == 0
  {
    status := SerializeInt(w, id, GetUIntSize(id));
  }

  method WriteEbmlMasterElement(w: Writer, id: nat, size: nat) returns (ok: bool)
    requires w.Valid()
    modifies w
    ensures w.Valid()
    ensures ok ==> size <= MAX_CODED && w.Appended(EncodeMaster(id, size))
    ensures w.reliable && size <= MAX_CODED ==> ok
  {
    ghost var before := w.pending;
    var status := WriteID(w, id);
    if status != 0 { return false; }
    status := WriteUInt(w, size);
    if status != 0 { return false; }
    Then(before, EncodeId(id), EncodeVint(size));
    ok := true;
  }

  /** An unsigned element, of a given size when `fixedSize` is not 0. */
  method WriteUIntElement(w: Writer, id: nat, value: nat, fixedSize: nat := 0) returns (ok: bool)
    requires w.Valid() && fixedSize < 0x8000_0000
    modifies w
    ensures w.Valid()
    ensures ok ==> fixedSize <= 8 && w.Appended(EncodeUInt(id, value, fixedSize))
    ensures ok && fixedSize > 0 ==> GetUIntSize(value) <= fixedSize
    ensures w.reliable && (fixedSize == 0 || GetUIntSize(value) <= fixedSize <= 8) ==> ok
  {
    ghost var before := w.pending;
    var status := WriteID(w, id);
    if status != 0 { return false; }
    var size := GetUIntSize(value);
    if fixedSize > 0 {
      if size > fixedSize { return false; }
      size := fixedSize;
    }
    status := WriteUInt(w, size);
    if status != 0 { return false; }
    Then(before, EncodeId(id), EncodeVint(size));
    status := SerializeInt(w, value, size);
    if status != 0 { return false; }
    Then(before, EncodeMaster(id, size), BigEndian(value, size));
    ok := true;
  }

  method WriteIntElement(w: Writer, id: nat, value: int) returns (ok: bool)
    requires w.Valid()
    modifies w
    ensures w.Valid()
    ensures ok ==> w.Appended(EncodeInt(id, value))
    ensures w.reliable ==> ok
  {
    ghost var before := w.pending;
    var size := GetIntSize(value);
    ok := WriteEbmlMasterElement(w, id, size);
    if !ok { return false; }
    var status := SerializeInt(w, value, size);
    if status != 0 { return false; }
    Then(before, EncodeMaster(id, size), BigEndian(value, size));
    ok := true;
  }

  method WriteBinaryElement(w: Writer, id: nat, value: seq<Byte>) returns (ok: bool)
    requires w.Valid()
    modifies w
    ensures w.Valid()
    ensures ok ==> value != [] && |value| <= MAX_CODED && w.Appended(EncodeElement(id, value))
    ensures w.reliable && value != [] && |value| <= MAX_CODED ==> ok
  {
    if |value| < 1 { return false; }
    ghost var before := w.pending;
    ok := WriteEbmlMasterElement(w, id, |value|);
    if !ok { return false; }
    var status := w.Write(value);
    if status != 0 { return false; }
    Then(before, EncodeMaster(id, |value|), value);
    ok := true;
  }

  // ----- Void elements

  function ToUInt64(v: int): nat {
    v % UINT64_LIMIT
  }

  function ToInt32(v: nat): int {
    (v + 0x8000_0000) % 0x1_0000_0000 - 0x8000_0000
  }

  function Zeros(n: nat): (z: seq<Byte>)
    ensures |z| == n && forall i :: 0 <= i < n ==> z[i] == 0
  {
    seq(n, _ => 0)
  }

  /** The payload a Void element of `size` bytes in all is given. */
  function VoidPayload(size: nat): nat {
    ToUInt64(size - 1 - GetCodedUIntSize(ToUInt64(size - 1)))
  }

  /** The sizes for which a Void element comes out. */
  predicate VoidFits(size: nat) {
    && size >= 2 && VoidPayload(size) < 0x8000_0000
    && MasterSize(ID_VOID, VoidPayload(size)) + VoidPayload(size) == size
  }

  function EncodeVoid(size: nat): (bs: seq<Byte>)
    requires VoidFits(size)
    ensures |bs| == size
  {
    EncodeMaster(ID_VOID, VoidPayload(size)) + Zeros(VoidPayload(size))
  }

  /** Fills exactly `size` bytes with a Void element, or reports 0. */
  method WriteVoidElement(w: Writer, size: nat) returns (written: nat)
    requires w.Valid() && size < UINT64_LIMIT
    modifies w
    ensures w.Valid()
    ensures written != 0 ==> VoidFits(size) && written == size && w.Appended(EncodeVoid(size))
    ensures w.reliable ==> (written != 0 <==> VoidFits(size))
  {
    var entrySize := VoidPayload(size);
    var voidSize := ToUInt64(MasterSize(ID_VOID, entrySize) + entrySize);
    if voidSize != size {
      WrongSize(size);
      return 0;
    }
    written := FillVoid(w, entrySize, voidSize);
    VoidSizes(size);
  }

  /** The Void element with a payload of `entrySize`, checked against the size it should have. */
  method FillVoid(w: Writer, entrySize: nat, voidSize: nat) returns (written: nat)
    requires w.Valid()
    modifies w
    ensures w.Valid() && (written == 0 || written == voidSize)
    ensures written != 0 ==> w.Appended(EncodeMaster(ID_VOID, entrySize) + Zeros(ZeroCount(entrySize)))
    ensures written != 0 ==> entrySize <= MAX_CODED && MasterSize(ID_VOID, entrySize) + ZeroCount(entrySize) == voidSize
    ensures w.reliable && entrySize <= MAX_CODED &&
            MasterSize(ID_VOID, entrySize) + ZeroCount(entrySize) == voidSize ==>
              written != 0
  {
    ghost var before := w.pending;
    var start := w.Position();
    var ok := WriteEbmlMasterElement(w, ID_VOID, entrySize);
    if !ok { return 0; }
    ok := WriteZeros(w, ToInt32(entrySize));
    if !ok { return 0; }
    Then(before, EncodeMaster(ID_VOID, entrySize), Zeros(ZeroCount(entrySize)));
    if w.Position() - start != voidSize { return 0; }
    written := voidSize;
  }

  /** The number of payload bytes written: none when the cast to 32 bits turns negative. */
  function ZeroCount(entrySize: nat): nat {
    if ToInt32(entrySize) > 0 then ToInt32(entrySize) else 0
  }

  method WriteZeros(w: Writer, count: int) returns (ok: bool)
    requires w.Valid()
    modifies w
    ensures w.Valid()
    ensures ok ==> w.Appended(Zeros(if count > 0 then count else 0))
    ensures w.reliable ==> ok
  {
    ghost var before := w.pending;
    var i := 0;
    while i < count
      invariant 0 <= i && (i <= count || i == 0)
      invariant w.Valid() && w.Appended(Zeros(i))
    {
      var status := w.Write([0]);
      if status != 0 { return false; }
      Then(before, Zeros(i), [0]);
      assert Zeros(i) + [0] == Zeros(i + 1);
      i := i + 1;
    }
    ok := true;
  }

  lemma WrongSize(size: nat)
    requires size < UINT64_LIMIT && ToUInt64(MasterSize(ID_VOID, VoidPayload(size)) + VoidPayload(size)) != size
    ensures !VoidFits(size)
  {
  }

  /** With a size field that can be written, the wrapped sum equals the size only when the true one does. */
  lemma VoidSizes(size: nat)
    requires size < UINT64_LIMIT
    requires ToUInt64(MasterSize(ID_VOID, VoidPayload(size)) + VoidPayload(size)) == size
    ensures var e := VoidPayload(size);
            VoidFits(size) <==> e <= MAX_CODED && MasterSize(ID_VOID, e) + ZeroCount(e) == size
    ensures VoidFits(size) ==> ZeroCount(VoidPayload(size)) == VoidPayload(size)
  {
    VoidPayloadIs(size);
    ZeroCountIs(VoidPayload(size));
    if size >= 2 {
      CodedMonotone(VoidPayload(size), size - 1);
      ToUInt64Keeps(MasterSize(ID_VOID, VoidPayload(size)) + VoidPayload(size));
    }
    hide ToUInt64, ToInt32, VoidPayload, GetCodedUIntSize, ZeroCount;
  }

  lemma ToUInt64Keeps(v: nat)
    ensures v < UINT64_LIMIT ==> ToUInt64(v) == v
  {
  }

  lemma VoidPayloadIs(size: nat)
    requires size < UINT64_LIMIT
    ensures size >= 2 ==> VoidPayload(size) == size - 1 - GetCodedUIntSize(size - 1)
    ensures size < 2 ==> VoidPayload(size) > MAX_CODED
  {
    if size >= 2 {
      ToUInt64Keeps(size - 1);
      assert size - 1 >= GetCodedUIntSize(size - 1);
      ToUInt64Keeps(size - 1 - GetCodedUIntSize(size - 1));
      hide ToUInt64;
    } else {
      assert size == 0 || size == 1;
    }
  }

  lemma CodedMonotone(a: nat, b: nat)
    requires a <= b
    ensures GetCodedUIntSize(a) <= GetCodedUIntSize(b)
  {
  }

  lemma ZeroCountIs(entrySize: nat)
    ensures entrySize < 0x8000_0000 ==> ZeroCount(entrySize) == entrySize
    ensures ZeroCount(entrySize) < 0x8000_0000
  {
  }

  /** A Void element can be made for every size from 2 on except where the size field has just grown:
      `2^7s .. 2^7s + s`, for which a shorter size field would have been right, and where the payload
      length no longer fits 31 bits. */
  lemma VoidGaps(size: nat)
    requires size < UINT64_LIMIT
    ensures VoidFits(size) <==>
              2 <= size <= 0x8000_0005 && forall s :: 1 <= s <= 4 ==> !(Pow128(s) <= size <= Pow128(s) + s)
  {
    SmallPowers(1);
    SmallPowers(2);
    SmallPowers(3);
    SmallPowers(4);
    VoidPayloadIs(size);
    hide ToUInt64, VoidPayload, Pow128;
    assert GetUIntSize(ID_VOID) == 1;
    if size >= 2 { GrownSizeField(size); }
  }

  /** Taking the header off leaves a size whose own size field is as long, except just where it grows. */
  lemma GrownSizeField(size: nat)
    requires size >= 2
    ensures var e := size - 1 - GetCodedUIntSize(size - 1);
            e >= 0 && (e < 0x8000_0000 ==>
              (GetCodedUIntSize(e) == GetCodedUIntSize(size - 1) <==>
                 !(0x80 <= size <= 0x81) && !(0x4000 <= size <= 0x4002) && !(0x20_0000 <= size <= 0x20_0003)
                 && !(0x1000_0000 <= size <= 0x1000_0004)))
  {
  }
}
