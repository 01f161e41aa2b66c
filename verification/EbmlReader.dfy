/** The parser's readers (libwebm/mkvparser/mkvparser.cc) over a whole file held in memory, each with the
    value it must return, and their agreement with the encodings of module `Ebml`. */
module EbmlReader {
  import opened Bytes
  import opened Ebml

  const E_PARSE_FAILED: int := -1
  const E_FILE_FORMAT_INVALID: int := -2
  const READ_ERROR: int := -1

  datatype Option<T> = None | Some(value: T)

  /** `bs` stands at offset `pos` of `src`. */
  predicate At(src: seq<Byte>, pos: int, bs: seq<Byte>) {
    0 <= pos <= pos + |bs| <= |src| && src[pos..pos + |bs|] == bs
  }

  lemma AtSplit(src: seq<Byte>, pos: int, a: seq<Byte>, b: seq<Byte>)
    requires At(src, pos, a + b)
    ensures At(src, pos, a) && At(src, pos + |a|, b)
  {
    assert src[pos..pos + |a|] == (a + b)[..|a|];
    assert src[pos + |a|..pos + |a| + |b|] == (a + b)[|a|..];
  }

  lemma AtJoin(src: seq<Byte>, pos: int, a: seq<Byte>, b: seq<Byte>)
    requires At(src, pos, a) && At(src, pos + |a|, b)
    ensures At(src, pos, a + b)
  {
    assert src[pos..pos + |a + b|] == src[pos..pos + |a|] + src[pos + |a|..pos + |a| + |b|];
  }

  /** What stands at a position begins with its first byte and does not reach past the end. */
  lemma AtFirst(src: seq<Byte>, pos: int, bs: seq<Byte>)
    requires At(src, pos, bs) && |bs| > 0
    ensures 0 <= pos < pos + |bs| <= |src| && src[pos] == bs[0]
  {
    assert src[pos] == src[pos..pos + |bs|][0];
  }

  lemma OneMoreByte(src: seq<Byte>, pos: nat, at: nat)
    requires pos <= at < |src|
    ensures FromBigEndian(src[pos..at + 1]) == 256 * FromBigEndian(src[pos..at]) + src[at]
  {
    assert src[pos..at + 1] == src[pos..at] + [src[at]];
  }

  // ----- variable-size integers

  /** One more than the number of zero bits in front of the first one bit. */
  function LeadingLength(b: Byte): (len: nat)
    requires b > 0
    ensures 1 <= len <= 8
    ensures Mark(len) <= b < 2 * Mark(len)
  {
    if b >= 128 then 1 else if b >= 64 then 2 else if b >= 32 then 3 else if b >= 16 then 4
    else if b >= 8 then 5 else if b >= 4 then 6 else if b >= 2 then 7 else 8
  }

  /** The variable-size integer at `pos` and its length in bytes (RFC 8794, section 4). */
  function UIntAt(src: seq<Byte>, pos: int): (r: Option<(int, nat)>)
    ensures r.Some? ==> 0 <= pos && 1 <= r.value.1 <= 8 && pos + r.value.1 <= |src|
  {
    if 0 <= pos < |src| && src[pos] > 0 && pos + LeadingLength(src[pos]) <= |src| then
      var len := LeadingLength(src[pos]);
      Some((FromBigEndian(src[pos..pos + len]) - Pow128(len), len))
    else None
  }

  /** Looks for the first bit that is set. */
  method FindMarker(b: Byte) returns (len: nat, m: nat)
    requires b > 0
    ensures len == LeadingLength(b) && m == Mark(len)
  {
    len, m := 1, 0x80;
    while b / m % 2 == 0
      invariant 1 <= len <= 8 && m == Mark(len) && b < 2 * m
      decreases m
    {
      m := m / 2;
      len := len + 1;
    }
  }

  method ReadUInt(src: seq<Byte>, pos: int) returns (result: int, len: int)
    ensures UIntAt(src, pos).Some? ==> (result, len) == UIntAt(src, pos).value && result >= 0
    ensures UIntAt(src, pos).None? ==> result < 0
  {
    if pos < 0 { return E_FILE_FORMAT_INVALID, 0; }
    len := 1;
    if pos >= |src| { return READ_ERROR, len; }
    var b := src[pos];
    if b == 0 { return E_FILE_FORMAT_INVALID, len; }
    var m;
    len, m := FindMarker(b);

    result := b - m;  // clears the marker, the highest bit that is set
    var ok;
    ok, result := ReadRest(src, pos, len, result);
    if !ok { return READ_ERROR, 1; }
  }

  /** Reads the bytes behind the first one, whose marker has been cleared. */
  method ReadRest(src: seq<Byte>, pos: nat, len: nat, first: nat) returns (ok: bool, result: int)
    requires pos < |src| && 1 <= len <= 8 && first == src[pos] - Mark(len)
    ensures ok <==> pos + len <= |src|
    ensures ok ==> result == FromBigEndian(src[pos..pos + len]) - Pow128(len) && result >= 0
  {
    hide FromBigEndian, Pow256, Mark, LeadingLength;
    result := first;
    ghost var m := Mark(len);
    ghost var marker := m;
    OneMoreByte(src, pos, pos);
    NoBytes(src, pos);
    for i := 1 to len
      invariant pos + i <= |src|
      invariant marker == m * Pow256(i - 1)
      invariant result == FromBigEndian(src[pos..pos + i]) - marker && result >= 0
    {
      if pos + i >= |src| { return false, result; }
      OneMoreByte(src, pos, pos + i);
      TimesPow256(m, i - 1);
      marker := marker * 256;
      result := result * 256 + src[pos + i];
    }
    MarkPower(len);
    ok := true;
  }

  lemma NoBytes(src: seq<Byte>, pos: nat)
    requires pos <= |src|
    ensures FromBigEndian(src[pos..pos]) == 0 && Pow256(0) == 1
  {
  }

  lemma MarkPower(n: nat)
    requires 1 <= n <= 8
    ensures Mark(n) * Pow256(n - 1) == Pow128(n)
  {
    SmallPowers(n);
  }

  /** The marker is the first one bit of an encoded integer, and takes `size` bits. */
  lemma EncodeSizedMarker(value: nat, size: nat)
    requires 1 <= size <= 8 && value < Pow128(size)
    ensures var bs := EncodeSized(value, size);
            && bs[0] > 0 && LeadingLength(bs[0]) == size
            && FromBigEndian(bs) == value + Pow128(size)
  {
    hide Pow128, Pow256, FromBigEndian, BigEndian, LeadingLength;
    MarkerFits(size);
    BigEndianRoundTrip(value + Pow128(size), size);
    MarkedBytes(EncodeSized(value, size));
  }

  lemma MarkedBytes(bs: seq<Byte>)
    requires 1 <= |bs| <= 8 && Pow128(|bs|) <= FromBigEndian(bs) < 2 * Pow128(|bs|)
    ensures bs[0] > 0 && LeadingLength(bs[0]) == |bs|
  {
    FirstByte(bs);
    MarkerByte(|bs|, bs[0], FromBigEndian(bs));
  }

  lemma MarkerFits(n: nat)
    requires 1 <= n <= 8
    ensures 2 * Pow128(n) <= Pow256(n)
  {
    SmallPowers(n);
  }

  /** A number between `Pow128(n)` and twice that has its highest bit where the marker is. */
  lemma MarkerByte(n: nat, b: Byte, v: nat)
    requires 1 <= n <= 8 && Pow128(n) <= v < 2 * Pow128(n)
    requires b * Pow256(n - 1) <= v < b * Pow256(n - 1) + Pow256(n - 1)
    ensures Mark(n) <= b < 2 * Mark(n)
  {
    MarkPower(n);
    Quotient(b, Pow256(n - 1), Mark(n), v, Pow128(n));
  }

  lemma Quotient(b: nat, p: nat, m: nat, v: nat, q: nat)
    requires m * p == q && b * p <= v < b * p + p && q <= v < 2 * q
    ensures m <= b < 2 * m
  {
    assert (b + 1) * p == b * p + p && 2 * m * p == 2 * q;
    if b < m {
      Monotone(b + 1, m, p);
    } else if b >= 2 * m {
      Monotone(2 * m, b, p);
    }
  }

  lemma Monotone(a: int, b: int, p: nat)
    requires a <= b
    ensures a * p <= b * p
  {
  }

  /** Reading a coded integer gives it back, in exactly the bytes written. */
  lemma UIntRoundTrip(src: seq<Byte>, pos: int, value: nat, size: nat)
    requires 1 <= size <= 8 && value < Pow128(size) && At(src, pos, EncodeSized(value, size))
    ensures UIntAt(src, pos) == Some((value as int, size))
  {
    EncodeSizedMarker(value, size);
    assert src[pos] == EncodeSized(value, size)[0];
  }

  /** The converse: what reads as an integer of some length is that integer coded in that length. */
  lemma UIntIsCoded(src: seq<Byte>, pos: int)
    requires UIntAt(src, pos).Some?
    ensures var (value, len) := UIntAt(src, pos).value;
            0 <= value < Pow128(len) && At(src, pos, EncodeSized(value, len))
  {
    hide *;
    var bs, len := UIntBytesAt(src, pos);
    FirstByte(bs);
    MarkPower(len);
    MarkedRange(bs[0], Mark(len), Pow256(len - 1), FromBigEndian(bs));
    CodedBytes(bs);
  }

  lemma UIntBytesAt(src: seq<Byte>, pos: int) returns (bs: seq<Byte>, len: nat)
    requires UIntAt(src, pos).Some?
    ensures 1 <= len == |bs| <= 8 && At(src, pos, bs) && Mark(len) <= bs[0] < 2 * Mark(len)
    ensures UIntAt(src, pos).value == (FromBigEndian(bs) - Pow128(len), len)
  {
    hide FromBigEndian, Pow128;
    len := UIntAt(src, pos).value.1;
    bs := src[pos..pos + len];
  }

  lemma CodedBytes(bs: seq<Byte>)
    requires FromBigEndian(bs) >= Pow128(|bs|)
    ensures EncodeSized(FromBigEndian(bs) - Pow128(|bs|), |bs|) == bs
  {
    hide FromBigEndian, BigEndian, Pow128;
    BigEndianInverse(bs);
  }

  lemma MarkedRange(b: nat, m: nat, p: nat, v: nat)
    requires m <= b < 2 * m && b * p <= v < b * p + p
    ensures m * p <= v < 2 * (m * p)
  {
    Monotone(m, b, p);
    Monotone(b + 1, 2 * m, p);
    assert (b + 1) * p == b * p + p && 2 * m * p == 2 * (m * p);
  }

  /** `ReadUInt` undoes `WriteUInt` for every value up to 2^56 - 2, in `GetCodedUIntSize` bytes, and the
      value is never the one reserved for an unknown size of that length. */
  lemma VintRoundTrip(src: seq<Byte>, pos: int, value: nat)
    requires value <= MAX_CODED && At(src, pos, EncodeVint(value))
    ensures UIntAt(src, pos) == Some((value as int, GetCodedUIntSize(value)))
    ensures value != Pow128(GetCodedUIntSize(value)) - 1
  {
    CodedSizeIsLeast(value);
    UIntRoundTrip(src, pos, value, GetCodedUIntSize(value));
  }

  // ----- element IDs

  /** IDs of one to four bytes whose marker matches their length (RFC 8794, section 5). */
  predicate ValidId(id: nat) {
    || 0x80 <= id < 0x100
    || 0x4000 <= id < 0x8000
    || 0x20_0000 <= id < 0x40_0000
    || 0x1000_0000 <= id < 0x2000_0000
  }

  function IdAt(src: seq<Byte>, pos: int): (r: Option<(int, nat)>)
    ensures r.Some? ==> 0 <= pos && 1 <= r.value.1 <= 4 && pos + r.value.1 <= |src|
  {
    if 0 <= pos < |src| && src[pos] >= 16 && pos + LeadingLength(src[pos]) <= |src| then
      var len := LeadingLength(src[pos]);
      Some((FromBigEndian(src[pos..pos + len]) as int, len))
    else None
  }

  method ReadID(src: seq<Byte>, pos: int) returns (id: int, len: int)
    ensures IdAt(src, pos).Some? ==> (id, len) == IdAt(src, pos).value && id >= 0
    ensures IdAt(src, pos).None? ==> id < 0
  {
    len := 0;
    if pos < 0 || pos >= |src| { return E_FILE_FORMAT_INVALID, len; }
    var first := src[pos];
    if first == 0 { return E_FILE_FORMAT_INVALID, len; }
    var bitPos, found := 0, false;
    while bitPos < 4 && !found
      invariant 0 <= bitPos <= 4
      invariant first < 2 * Mark(bitPos + 1)
      invariant found ==> bitPos < 4 && Mark(bitPos + 1) <= first
      decreases 4 - bitPos, !found
    {
      if first / Mark(bitPos + 1) % 2 == 1 {  // Mark(bitPos + 1) is 0x80 >> bitPos
        found := true;
      } else {
        bitPos := bitPos + 1;
      }
    }
    if !found { return E_FILE_FORMAT_INVALID, len; }
    var idLength := bitPos + 1;
    assert idLength == LeadingLength(first);
    hide FromBigEndian;
    id := first;
    OneMoreByte(src, pos, pos);
    NoBytes(src, pos);
    for i := 1 to idLength
      invariant pos + i <= |src| && id == FromBigEndian(src[pos..pos + i])
    {
      if pos + i >= |src| { return E_FILE_FORMAT_INVALID, len; }
      OneMoreByte(src, pos, pos + i);
      id := id * 256 + src[pos + i];
    }
    len := idLength;
  }

  /** `ReadID` undoes `WriteID` for every valid ID. */
  lemma IdRoundTrip(src: seq<Byte>, pos: int, id: nat)
    requires ValidId(id) && At(src, pos, EncodeId(id))
    ensures IdAt(src, pos) == Some((id as int, GetUIntSize(id)))
  {
    var bs := EncodeId(id);
    IdBytes(id);
    hide EncodeId, FromBigEndian, LeadingLength, ValidId, GetUIntSize;
    BytesOf(src, pos, bs);
    assert src[pos] == bs[0];
  }

  lemma IdBytes(id: nat)
    requires ValidId(id)
    ensures var bs := EncodeId(id);
            && |bs| == GetUIntSize(id) && FromBigEndian(bs) == id
            && bs[0] >= 16 && LeadingLength(bs[0]) == GetUIntSize(id)
  {
    var n := GetUIntSize(id);
    IdRange(id);
    BigEndianRoundTrip(id, n);
    hide FromBigEndian, BigEndian, Pow128, Pow256, ValidId, GetUIntSize;
    MarkedBytes(EncodeId(id));
  }

  lemma IdRange(id: nat)
    requires ValidId(id)
    ensures var n := GetUIntSize(id);
            1 <= n <= 4 && Pow128(n) <= id < 2 * Pow128(n) <= Pow256(n)
  {
    var n := GetUIntSize(id);
    SmallPowers(n);
    assert Pow256(n) == 256 * Pow256(n - 1);
  }

  // ----- payloads

  /** The value of a 64-bit pattern read as a signed integer. */
  function ToInt64(v: int): int {
    (v + INT64_MAX + 1) % UINT64_LIMIT - INT64_MAX - 1
  }

  method UnserializeUInt(src: seq<Byte>, pos: int, size: int) returns (result: int)
    ensures pos < 0 || size <= 0 || size > 8 ==> result == E_FILE_FORMAT_INVALID
    ensures 0 <= pos && 1 <= size <= 8 && pos + size > |src| ==> result == READ_ERROR
    ensures 0 <= pos && 1 <= size <= 8 && pos + size <= |src| ==> result == ToInt64(FromBigEndian(src[pos..pos + size]))
  {
    if pos < 0 || size <= 0 || size > 8 { return E_FILE_FORMAT_INVALID; }
    result := 0;
    var at := pos;
    for i := 0 to size
      invariant at == pos + i
      invariant 0 < i ==> at <= |src|
      invariant pos <= at
      invariant i == 0 ==> result == 0
      invariant at <= |src| ==> result == ToInt64(FromBigEndian(src[pos..at]))
    {
      if at >= |src| { return READ_ERROR; }
      UnsignedStep(src, pos, at);
      result := ToInt64(result * 256 + src[at]);
      at := at + 1;
    }
  }

  /** Only the eighth byte can reach the sign bit. */
  lemma UnsignedStep(src: seq<Byte>, pos: nat, at: nat)
    requires pos <= at < |src| && at - pos <= 7
    ensures ToInt64(FromBigEndian(src[pos..at + 1])) == ToInt64(ToInt64(FromBigEndian(src[pos..at])) * 256 + src[at])
  {
    assert src[pos..at + 1] == src[pos..at] + [src[at]];
    FromBigEndianBound(src[pos..at]);
    Below7(at - pos);
    ToInt64Keeps(FromBigEndian(src[pos..at]));
  }

  lemma Below7(i: nat)
    requires i <= 7
    ensures Pow256(i) <= 0x100_0000_0000_0000
  {
    assert i == 0 || i == 1 || i == 2 || i == 3 || i == 4 || i == 5 || i == 6 || i == 7;
  }

  /** Two's complement reading of a byte string. */
  function SignedFromBigEndian(bs: seq<Byte>): int {
    FromBigEndian(bs) as int - if bs != [] && bs[0] >= 128 then Pow256(|bs|) else 0
  }

  method UnserializeInt(src: seq<Byte>, pos: int, size: int) returns (status: int, value: int)
    ensures status == 0 || status < 0
    ensures status == 0 <==> 0 <= pos && 1 <= size <= 8 && pos + size <= |src|
    ensures status == 0 ==> value == SignedFromBigEndian(src[pos..pos + size])
  {
    value := 0;
    if pos < 0 || size < 1 || size > 8 { return E_FILE_FORMAT_INVALID, value; }
    if pos >= |src| { return READ_ERROR, value; }
    var first: int := if src[pos] >= 128 then src[pos] as int - 256 else src[pos];
    var result := first % UINT64_LIMIT;
    var at := pos + 1;
    SignedStart(src, pos);
    for i := 1 to size
      invariant at == pos + i <= |src|
      invariant result == SignedFromBigEndian(src[pos..at]) % UINT64_LIMIT
    {
      if at >= |src| { return READ_ERROR, value; }
      SignedStep(src, pos, at);
      result := result * 256 % UINT64_LIMIT + src[at];  // an unsigned shift drops the high byte
      at := at + 1;
    }
    SignedRange(src[pos..at]);
    ToInt64Undoes(SignedFromBigEndian(src[pos..at]));
    status, value := 0, ToInt64(result);
  }

  lemma SignedStart(src: seq<Byte>, pos: nat)
    requires pos < |src|
    ensures SignedFromBigEndian(src[pos..pos + 1]) == if src[pos] >= 128 then src[pos] as int - 256 else src[pos]
  {
    var first := src[pos..pos + 1];
    assert first == [src[pos]] && FromBigEndian(first[..0]) == 0;
    assert Pow256(1) == 256;
  }

  lemma SignedStep(src: seq<Byte>, pos: nat, at: nat)
    requires pos < at < |src|
    ensures var r := SignedFromBigEndian(src[pos..at]) % UINT64_LIMIT;
            SignedFromBigEndian(src[pos..at + 1]) % UINT64_LIMIT == r * 256 % UINT64_LIMIT + src[at]
  {
    assert src[pos..at + 1] == src[pos..at] + [src[at]];
    assert Pow256(at + 1 - pos) == 256 * Pow256(at - pos);
    assert SignedFromBigEndian(src[pos..at + 1]) == SignedFromBigEndian(src[pos..at]) * 256 + src[at];
    ShiftIn(SignedFromBigEndian(src[pos..at]), src[at]);
  }

  lemma ToInt64Undoes(v: int)
    requires INT64_MIN <= v <= INT64_MAX
    ensures ToInt64(v % UINT64_LIMIT) == v
  {
  }

  lemma ShiftIn(s: int, b: Byte)
    ensures s % UINT64_LIMIT * 256 % UINT64_LIMIT + b == (s * 256 + b) % UINT64_LIMIT
  {
    var q, h, t := s / UINT64_LIMIT, s / 0x100_0000_0000_0000, s % 0x100_0000_0000_0000;
    assert s % UINT64_LIMIT * 256 == UINT64_LIMIT * (h - 256 * q) + 256 * t;
    ModIs(h - 256 * q, 256 * t);
    assert s * 256 + b == UINT64_LIMIT * h + (256 * t + b);
    ModIs(h, 256 * t + b);
  }

  lemma ModIs(k: int, v: nat)
    requires v < UINT64_LIMIT
    ensures (UINT64_LIMIT * k + v) % UINT64_LIMIT == v
  {
  }

  lemma SignedRange(bs: seq<Byte>)
    requires 1 <= |bs| <= 8
    ensures FitsSigned(SignedFromBigEndian(bs), |bs|)
    ensures INT64_MIN <= SignedFromBigEndian(bs) <= INT64_MAX
  {
    HighBit(bs);
    Below7(|bs| - 1);
  }

  /** The first byte has its high bit set exactly when the number is in the upper half of the range. */
  lemma HighBit(bs: seq<Byte>)
    requires 1 <= |bs| <= 8
    ensures FromBigEndian(bs) < Pow256(|bs|)
    ensures bs[0] >= 128 <==> 2 * FromBigEndian(bs) >= Pow256(|bs|)
  {
    FromBigEndianBound(bs);
    FirstByte(bs);
    HalfRange(bs[0], Pow256(|bs| - 1), FromBigEndian(bs));
  }

  lemma HalfRange(b: Byte, p: nat, v: nat)
    requires b * p <= v < b * p + p
    ensures b >= 128 <==> 2 * v >= 256 * p
  {
    if b >= 128 { assert b * p >= 128 * p; } else { assert b * p <= 127 * p; }
  }

  /** A payload written at `GetUIntSize` (or any larger fixed) size is read back, below 2^63. */
  lemma UIntPayloadRoundTrip(src: seq<Byte>, pos: int, value: nat, n: nat)
    requires 1 <= n <= 8 && value < Pow256(n) && At(src, pos, BigEndian(value, n))
    ensures FromBigEndian(src[pos..pos + n]) == value
  {
    BigEndianRoundTrip(value, n);
  }

  /** The cast to a signed result keeps a value exactly below 2^63. */
  lemma ToInt64Keeps(value: nat)
    requires value < UINT64_LIMIT
    ensures ToInt64(value) == value <==> value <= INT64_MAX
    ensures value > INT64_MAX ==> ToInt64(value) < 0
  {
  }

  /** A signed payload written at `GetIntSize` is read back for every 64-bit value. */
  lemma IntPayloadRoundTrip(src: seq<Byte>, pos: int, value: int, n: nat)
    requires 1 <= n <= 8 && FitsSigned(value, n) && At(src, pos, BigEndian(value, n))
    ensures SignedFromBigEndian(src[pos..pos + n]) == value
  {
    SignedBytes(value, n);
  }

  lemma SignedBytes(value: int, n: nat)
    requires 1 <= n <= 8 && FitsSigned(value, n)
    ensures SignedFromBigEndian(BigEndian(value, n)) == value
  {
    hide Pow256, FromBigEndian, BigEndian;
    var u := if value < 0 then value + Pow256(n) else value;
    assert BigEndian(value, n) == BigEndian(u, n) by { BigEndianWraps(value, 1, n); }
    BigEndianRoundTrip(u, n);
    HighBit(BigEndian(u, n));
  }

  // ----- element headers

  datatype Header = Header(id: int, size: int, payload: int)

  /** What reading an unsigned element gives: its value, or a negative number. */
  function ValueAt(src: seq<Byte>, h: Header): int {
    if h.payload < 0 || h.size <= 0 || h.size > 8 then E_FILE_FORMAT_INVALID
    else if h.payload + h.size > |src| then READ_ERROR
    else ToInt64(FromBigEndian(src[h.payload..h.payload + h.size]))
  }

  /** The element header at `pos`, no byte of which may reach past a given `stop`. */
  function HeaderAt(src: seq<Byte>, pos: int, stop: int): (h: Option<Header>)
    ensures h.Some? ==> 0 <= pos < h.value.payload <= |src| && h.value.size >= 0
    ensures h.Some? && stop >= 0 ==> h.value.payload <= stop
  {
    if IdAt(src, pos).None? || (stop >= 0 && pos >= stop) then None
    else
      var (id, idLen) := IdAt(src, pos).value;
      if UIntAt(src, pos + idLen).None? || (stop >= 0 && pos + idLen >= stop) then None
      else
        var (size, len) := UIntAt(src, pos + idLen).value;
        if size < 0 || (stop >= 0 && pos + idLen + len > stop) then None
        else Some(Header(id, size, pos + idLen + len))
  }

  method ParseElementHeader(src: seq<Byte>, start: int, stop: int)
      returns (status: int, pos: int, id: int, size: int)
    requires |src| <= INT64_MAX
    ensures status == 0 <==> HeaderAt(src, start, stop).Some?
    ensures status == 0 ==> Header(id, size, pos) == HeaderAt(src, start, stop).value && size >= 0 && pos > start
    ensures status == 0 || status == E_FILE_FORMAT_INVALID
  {
    hide IdAt, UIntAt;
    pos, id, size := start, 0, 0;
    if stop >= 0 && pos >= stop { return E_FILE_FORMAT_INVALID, pos, id, size; }
    var len;
    id, len := ReadID(src, pos);
    if id < 0 { return E_FILE_FORMAT_INVALID, pos, id, size; }
    pos := pos + len;
    if stop >= 0 && pos >= stop { return E_FILE_FORMAT_INVALID, pos, id, size; }
    size, len := ReadUInt(src, pos);
    if size < 0 || len < 1 || len > 8 { return E_FILE_FORMAT_INVALID, pos, id, size; }
    if pos + len > INT64_MAX { return E_FILE_FORMAT_INVALID, pos, id, size; }
    pos := pos + len;
    if stop >= 0 && pos > stop { return E_FILE_FORMAT_INVALID, pos, id, size; }
    status := 0;
  }

  /** The parser finds the header the muxer wrote. */
  lemma HeaderRoundTrip(src: seq<Byte>, pos: int, stop: int, id: nat, size: nat)
    requires ValidId(id) && size <= MAX_CODED && At(src, pos, EncodeMaster(id, size))
    requires stop < 0 || pos + MasterSize(id, size) <= stop
    ensures HeaderAt(src, pos, stop) == Some(Header(id, size, pos + MasterSize(id, size)))
  {
    hide At, IdAt, UIntAt, ValidId;
    HeaderParts(src, pos, id, size);
  }

  lemma HeaderParts(src: seq<Byte>, pos: int, id: nat, size: nat)
    requires ValidId(id) && size <= MAX_CODED && At(src, pos, EncodeMaster(id, size))
    ensures IdAt(src, pos) == Some((id as int, GetUIntSize(id)))
    ensures UIntAt(src, pos + GetUIntSize(id)) == Some((size as int, GetCodedUIntSize(size)))
  {
    hide At, IdAt, UIntAt, ValidId;
    AtSplit(src, pos, EncodeId(id), EncodeVint(size));
    IdRoundTrip(src, pos, id);
    VintRoundTrip(src, pos + GetUIntSize(id), size);
  }

  // ----- elements of any kind

  predicate Coded(e: Element) {
    ValidId(e.id) && |e.body| <= MAX_CODED
  }

  /** What an unsigned element must be to be read. */
  predicate IsNumber(e: Element) {
    1 <= |e.body| <= 8 && FromBigEndian(e.body) <= INT64_MAX
  }

  /** The value of the last element with this ID, or `otherwise` if there is none. */
  ghost predicate LastNumber(parts: seq<Element>, id: nat, otherwise: int, value: int) {
    if exists i :: 0 <= i < |parts| && parts[i].id == id
    then exists i :: 0 <= i < |parts| && parts[i].id == id && value == FromBigEndian(parts[i].body)
                     && forall j :: i < j < |parts| ==> parts[j].id != id
    else value == otherwise
  }

  datatype Sign = AnySign | Positive | NotPositive

  /** The same for signed elements with such a value. */
  ghost predicate LastSigned(parts: seq<Element>, id: nat, sign: Sign, otherwise: int, value: int) {
    if exists i :: 0 <= i < |parts| && IsSigned(parts[i], id, sign)
    then exists i :: 0 <= i < |parts| && IsSigned(parts[i], id, sign) && value == SignedFromBigEndian(parts[i].body)
                     && forall j :: i < j < |parts| ==> !IsSigned(parts[j], id, sign)
    else value == otherwise
  }

  predicate IsSigned(e: Element, id: nat, sign: Sign) {
    && e.id == id && e.body != []
    && match sign
       case AnySign => true
       case Positive => SignedFromBigEndian(e.body) > 0
       case NotPositive => SignedFromBigEndian(e.body) <= 0
  }

  lemma LastSignedFirst(parts: seq<Element>, id: nat, sign: Sign, otherwise: int, value: int)
    requires parts != []
    requires LastSigned(parts[1..], id, sign,
                        if IsSigned(parts[0], id, sign) then SignedFromBigEndian(parts[0].body) else otherwise, value)
    ensures LastSigned(parts, id, sign, otherwise, value)
  {
    hide SignedFromBigEndian, IsSigned;
    var rest := parts[1..];
    assert forall i :: 0 <= i < |rest| ==> parts[i + 1] == rest[i];
    if i :| 0 <= i < |rest| && IsSigned(rest[i], id, sign) && value == SignedFromBigEndian(rest[i].body)
            && forall j :: i < j < |rest| ==> !IsSigned(rest[j], id, sign) {
      assert IsSigned(parts[i + 1], id, sign);
      forall j | i + 1 < j < |parts| ensures !IsSigned(parts[j], id, sign) { assert parts[j] == rest[j - 1]; }
    } else {
      forall j | 0 < j < |parts| ensures !IsSigned(parts[j], id, sign) { assert parts[j] == rest[j - 1]; }
    }
  }

  /** One more element in front. */
  lemma LastNumberFirst(parts: seq<Element>, id: nat, otherwise: int, value: int)
    requires parts != []
    requires LastNumber(parts[1..], id, if parts[0].id == id then FromBigEndian(parts[0].body) else otherwise, value)
    ensures LastNumber(parts, id, otherwise, value)
  {
    hide FromBigEndian;
    var rest := parts[1..];
    assert forall i :: 0 <= i < |rest| ==> parts[i + 1] == rest[i];
    if i :| 0 <= i < |rest| && rest[i].id == id && value == FromBigEndian(rest[i].body)
            && forall j :: i < j < |rest| ==> rest[j].id != id {
      assert parts[i + 1].id == id;
      forall j | i + 1 < j < |parts| ensures parts[j].id != id { assert parts[j] == rest[j - 1]; }
    } else {
      forall j | 0 < j < |parts| ensures parts[j].id != id { assert parts[j] == rest[j - 1]; }
    }
  }

  lemma MasterLength(e: Element)
    ensures |EncodeMaster(e.id, |e.body|)| == MasterSize(e.id, |e.body|) > 0
    ensures LengthOf(e) == MasterSize(e.id, |e.body|) + |e.body|
  {
    ElementSizesMatchEncodings(e.id, |e.body|, 0, [], 0);
  }

  lemma NumberIs(src: seq<Byte>, h: Header, e: Element)
    requires At(src, h.payload, e.body) && h.size == |e.body| && IsNumber(e)
    ensures ValueAt(src, h) == FromBigEndian(e.body)
  {
    hide FromBigEndian, ToInt64;
    FromBigEndianBound(e.body);
    ToInt64Keeps(FromBigEndian(e.body));
  }

  lemma FirstElement(parts: seq<Element>)
    ensures parts == [] ==> ElementBytes(parts) == []
    ensures parts != [] ==>
              && ElementBytes(parts) == EncodeElement(parts[0].id, parts[0].body) + ElementBytes(parts[1..])
              && LengthOf(parts[0]) == |EncodeElement(parts[0].id, parts[0].body)|
  {
  }

  lemma LastOfNone(id: nat, sign: Sign, otherwise: int)
    ensures LastNumber([], id, otherwise, otherwise) && LastSigned([], id, sign, otherwise, otherwise)
  {
  }

  /** The headers of elements that stand one behind the other from `p` on. */
  function HeadersIn(parts: seq<Element>, p: nat): (hs: seq<Header>)
    ensures |hs| == |parts| && forall i :: 0 <= i < |hs| ==> hs[i].payload >= 0 && hs[i].size >= 0
  {
    if |parts| == 0 then []
    else
      var e := parts[0];
      [Header(e.id, |e.body|, p + MasterSize(e.id, |e.body|))] + HeadersIn(parts[1..], p + LengthOf(e))
  }

  lemma BytesOf(src: seq<Byte>, p: int, bs: seq<Byte>)
    requires At(src, p, bs)
    ensures 0 <= p <= p + |bs| <= |src| && src[p..p + |bs|] == bs
  {
  }
}
