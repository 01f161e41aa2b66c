/** EBML sizes and encodings: what the muxer's size functions promise about the bytes its writers emit
    (RFC 8794, sections 4, 5, 7.1 and 7.2). */
module Ebml {
  import opened Bytes

  const UINT64_LIMIT: nat := 0x1_0000_0000_0000_0000
  const INT64_MAX: int := 0x7FFF_FFFF_FFFF_FFFF
  const INT64_MIN: int := -0x8000_0000_0000_0000
  /** The largest value an 8-byte variable-size integer holds short of the reserved unknown size. */
  const MAX_CODED: nat := 0xFF_FFFF_FFFF_FFFE

  const ID_VOID: nat := 0xEC
  const ID_SEEK_HEAD: nat := 0x114D9B74
  const ID_SEEK: nat := 0x4DBB
  const ID_SEEK_ID: nat := 0x53AB
  const ID_SEEK_POSITION: nat := 0x53AC
  const ID_CLUSTER: nat := 0x1F43B675
  const ID_TIMECODE: nat := 0xE7
  const ID_BLOCK_GROUP: nat := 0xA0
  const ID_BLOCK: nat := 0xA1
  const ID_BLOCK_DURATION: nat := 0x9B
  const ID_REFERENCE_BLOCK: nat := 0xFB
  const ID_SIMPLE_BLOCK: nat := 0xA3
  const ID_BLOCK_ADDITIONS: nat := 0x75A1
  const ID_BLOCK_MORE: nat := 0xA6
  const ID_BLOCK_ADD_ID: nat := 0xEE
  const ID_BLOCK_ADDITIONAL: nat := 0xA5
  const ID_DISCARD_PADDING: nat := 0x75A2
  const ID_CUES: nat := 0x1C53BB6B
  const ID_CUE_POINT: nat := 0xBB
  const ID_CUE_TIME: nat := 0xB3
  const ID_CUE_TRACK_POSITIONS: nat := 0xB7
  const ID_CUE_TRACK: nat := 0xF7
  const ID_CUE_CLUSTER_POSITION: nat := 0xF1
  const ID_CUE_BLOCK_NUMBER: nat := 0x5378

  // ----- sizes

  function GetCodedUIntSize(value: nat): (size: nat)
    ensures 1 <= size <= 8
  {
    if value < 0x7F then 1
    else if value < 0x3FFF then 2
    else if value < 0x1F_FFFF then 3
    else if value < 0xFFF_FFFF then 4
    else if value < 0x7_FFFF_FFFF then 5
    else if value < 0x3FF_FFFF_FFFF then 6
    else if value < 0x1_FFFF_FFFF_FFFF then 7
    else 8
  }

  function GetUIntSize(value: nat): (size: nat)
    ensures 1 <= size <= 8
  {
    if value < 0x100 then 1
    else if value < 0x1_0000 then 2
    else if value < 0x100_0000 then 3
    else if value < 0x1_0000_0000 then 4
    else if value < 0x100_0000_0000 then 5
    else if value < 0x1_0000_0000_0000 then 6
    else if value < 0x100_0000_0000_0000 then 7
    else 8
  }

  /** `value ^ -1` is `-value - 1` for the negative values it is applied to. */
  function GetIntSize(value: int): (size: nat)
    ensures 1 <= size <= 8
  {
    GetUIntSize(2 * if value < 0 then -value - 1 else value)
  }

  function MasterSize(id: nat, payload: nat): nat {
    GetUIntSize(id) + GetCodedUIntSize(payload)
  }

  function UIntElementSize(id: nat, value: nat, fixedSize: nat := 0): nat {
    GetUIntSize(id) + (if fixedSize > 0 then fixedSize else GetUIntSize(value)) + 1
  }

  function IntElementSize(id: nat, value: int): nat {
    GetUIntSize(id) + GetIntSize(value) + 1
  }

  function BinaryElementSize(id: nat, length: nat): nat {
    GetUIntSize(id) + length + GetCodedUIntSize(length)
  }

  // ----- encodings

  function EncodeId(id: nat): seq<Byte> {
    BigEndian(id, GetUIntSize(id))
  }

  /** `value` behind the length marker of a `size`-byte variable-size integer. */
  function EncodeSized(value: nat, size: nat): seq<Byte> {
    BigEndian(value + Pow128(size), size)
  }

  function EncodeVint(value: nat): seq<Byte> {
    EncodeSized(value, GetCodedUIntSize(value))
  }

  /** The header of an element: its ID and the size of its payload. */
  function EncodeMaster(id: nat, payload: nat): seq<Byte> {
    EncodeId(id) + EncodeVint(payload)
  }

  function EncodeElement(id: nat, payload: seq<Byte>): seq<Byte> {
    EncodeMaster(id, |payload|) + payload
  }

  function UIntBytes(value: nat, fixedSize: nat := 0): seq<Byte> {
    BigEndian(value, if fixedSize > 0 then fixedSize else GetUIntSize(value))
  }

  function EncodeUInt(id: nat, value: nat, fixedSize: nat := 0): seq<Byte> {
    EncodeElement(id, UIntBytes(value, fixedSize))
  }

  function EncodeInt(id: nat, value: int): seq<Byte> {
    EncodeElement(id, BigEndian(value, GetIntSize(value)))
  }

  /** Elements of any kind, as they are written one behind the other. */
  datatype Element = Element(id: nat, body: seq<Byte>)

  function LengthOf(e: Element): nat {
    |EncodeElement(e.id, e.body)|
  }

  function ElementBytes(parts: seq<Element>): seq<Byte> {
    if |parts| == 0 then [] else EncodeElement(parts[0].id, parts[0].body) + ElementBytes(parts[1..])
  }

  // ----- what the size functions mean

  /** `GetUIntSize` is the least number of bytes that hold the value. */
  lemma UIntSizeIsLeast(value: nat)
    requires value < UINT64_LIMIT
    ensures value < Pow256(GetUIntSize(value))
    ensures forall n: nat :: n < GetUIntSize(value) && value < Pow256(n) ==> value == 0 && n == 0
  {
    assert Pow256(1) == 0x100 && Pow256(2) == 0x1_0000 && Pow256(3) == 0x100_0000;
    assert Pow256(4) == 0x1_0000_0000 && Pow256(5) == 0x100_0000_0000;
    assert Pow256(6) == 0x1_0000_0000_0000 && Pow256(7) == 0x100_0000_0000_0000;
    assert Pow256(8) == UINT64_LIMIT;
    forall n: nat | n < GetUIntSize(value) && value < Pow256(n) ensures value == 0 && n == 0 {
      assert n == 0 || n == 1 || n == 2 || n == 3 || n == 4 || n == 5 || n == 6 || n == 7;
    }
  }

  /** `value` lies in the two's complement range of `n` bytes. */
  predicate FitsSigned(value: int, n: nat) {
    var p: int := Pow256(n);
    -p <= 2 * value < p
  }

  /** Doubling the magnitude, with -1 counted as 0, decides whether a signed value fits. */
  lemma DoubledMagnitude(value: int, n: nat)
    requires n >= 1
    ensures FitsSigned(value, n) <==> 2 * (if value < 0 then -value - 1 else value) < Pow256(n)
  {
    var half := 128 * Pow256(n - 1);
    assert Pow256(n) == 2 * half;
    hide Pow256;
    assert FitsSigned(value, n) <==> -half <= value < half;
  }

  /** `GetIntSize` is the least number of bytes whose two's complement range holds the value. */
  lemma IntSizeIsLeast(value: int)
    requires INT64_MIN <= value <= INT64_MAX
    ensures FitsSigned(value, GetIntSize(value))
    ensures forall n: nat :: 1 <= n < GetIntSize(value) ==> !FitsSigned(value, n)
  {
    UIntSizeIsLeast(2 * if value < 0 then -value - 1 else value);
    DoubledMagnitude(value, GetIntSize(value));
    forall n: nat | 1 <= n < GetIntSize(value) ensures !FitsSigned(value, n) {
      DoubledMagnitude(value, n);
    }
  }

  /** `GetCodedUIntSize` is the least length whose all-ones value is not needed, so the reserved
      unknown size is never produced (RFC 8794, section 6.2). */
  lemma CodedSizeIsLeast(value: nat)
    requires value <= MAX_CODED
    ensures value <= Pow128(GetCodedUIntSize(value)) - 2
    ensures forall n: nat :: 1 <= n < GetCodedUIntSize(value) ==> value > Pow128(n) - 2
  {
    assert Pow128(1) == 0x80 && Pow128(2) == 0x4000 && Pow128(3) == 0x20_0000;
    assert Pow128(4) == 0x1000_0000 && Pow128(5) == 0x8_0000_0000;
    assert Pow128(6) == 0x400_0000_0000 && Pow128(7) == 0x2_0000_0000_0000;
    assert Pow128(8) == 0x100_0000_0000_0000;
    forall n: nat | 1 <= n < GetCodedUIntSize(value) ensures value > Pow128(n) - 2 {
      assert n == 1 || n == 2 || n == 3 || n == 4 || n == 5 || n == 6 || n == 7;
    }
  }

  /** Every element-size function counts exactly the bytes of the encoding it goes with. */
  lemma ElementSizesMatchEncodings(id: nat, value: nat, signed: int, payload: seq<Byte>, fixedSize: nat)
    requires fixedSize <= 8
    ensures |EncodeMaster(id, value)| == MasterSize(id, value)
    ensures |EncodeUInt(id, value, fixedSize)| == UIntElementSize(id, value, fixedSize)
    ensures |EncodeInt(id, signed)| == IntElementSize(id, signed)
    ensures |EncodeElement(id, payload)| == BinaryElementSize(id, |payload|)
    ensures |EncodeElement(id, payload)| == MasterSize(id, |payload|) + |payload|
  {
  }
}
