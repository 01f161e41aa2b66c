/** Byte strings, big-endian integers and overwriting, shared by the muxer and the parser. */
module Bytes {

  type Byte = x: int | 0 <= x < 256

  function Pow256(n: nat): (p: nat)
    ensures p >= 1
  {
    if n == 0 then 1 else 256 * Pow256(n - 1)
  }

  /** `128` to the `n`: the place of the length marker of an `n`-byte EBML variable-size integer. */
  function Pow128(n: nat): (p: nat)
    ensures p >= 1
  {
    if n == 0 then 1 else 128 * Pow128(n - 1)
  }

  /** The low `n` bytes of `v`, most significant first.  Division rounds down, so a negative `v`
      gives its two's complement bytes. */
  function BigEndian(v: int, n: nat): (bs: seq<Byte>)
    ensures |bs| == n
    decreases n
  {
    if n == 0 then [] else BigEndian(v / 256, n - 1) + [v % 256]
  }

  function FromBigEndian(bs: seq<Byte>): nat {
    if |bs| == 0 then 0 else 256 * FromBigEndian(bs[..|bs| - 1]) + bs[|bs| - 1]
  }

  /** `data` after `bs` has been written over it at offset `pos`. */
  function Splice(data: seq<Byte>, pos: nat, bs: seq<Byte>): (r: seq<Byte>)
    requires pos <= |data|
    ensures |r| == if pos + |bs| <= |data| then |data| else pos + |bs|
  {
    data[..pos] + bs + if pos + |bs| <= |data| then data[pos + |bs|..] else []
  }

  /** One more piece behind those already there. */
  lemma Then<T>(before: seq<T>, a: seq<T>, b: seq<T>)
    ensures before + a + b == before + (a + b)
  {
  }

  /** Two consecutive writes are one write of the concatenation. */
  lemma SpliceSplice(data: seq<Byte>, pos: nat, a: seq<Byte>, b: seq<Byte>)
    requires pos <= |data|
    ensures Splice(Splice(data, pos, a), pos + |a|, b) == Splice(data, pos, a + b)
  {
    var once := Splice(data, pos, a);
    assert once[..pos + |a|] == data[..pos] + a;
    if pos + |a| + |b| <= |data| {
      assert once[pos + |a| + |b|..] == data[pos + |a| + |b|..];
    } else {
      assert |once| <= pos + |a| + |b|;
    }
  }

  /** Writing over the bytes that are already there changes only the bytes written. */
  lemma SpliceInside(data: seq<Byte>, pos: nat, bs: seq<Byte>)
    requires pos + |bs| <= |data|
    ensures var r := Splice(data, pos, bs);
            && |r| == |data| && r[pos..pos + |bs|] == bs
            && (forall k :: 0 <= k < |data| && !(pos <= k < pos + |bs|) ==> r[k] == data[k])
  {
  }

  lemma {:induction false} FromBigEndianBound(bs: seq<Byte>)
    ensures FromBigEndian(bs) < Pow256(|bs|)
  {
    if |bs| > 0 { FromBigEndianBound(bs[..|bs| - 1]); }
  }

  /** Decoding the low `n` bytes gives back any value that fits them. */
  lemma {:induction false} BigEndianRoundTrip(v: nat, n: nat)
    requires v < Pow256(n)
    ensures FromBigEndian(BigEndian(v, n)) == v
  {
    if n > 0 {
      BigEndianRoundTrip(v / 256, n - 1);
      assert BigEndian(v, n)[..n - 1] == BigEndian(v / 256, n - 1);
    }
  }

  /** Encoding what was decoded gives the same bytes. */
  lemma {:induction false} BigEndianInverse(bs: seq<Byte>)
    ensures BigEndian(FromBigEndian(bs), |bs|) == bs
  {
    if |bs| > 0 {
      BigEndianInverse(bs[..|bs| - 1]);
      assert bs == bs[..|bs| - 1] + [bs[|bs| - 1]];
    }
  }

  /** Only the value modulo `256^n` is written: signed and unsigned casts give the same bytes. */
  lemma {:induction false} BigEndianWraps(v: int, k: int, n: nat)
    ensures BigEndian(v + k * Pow256(n), n) == BigEndian(v, n)
    decreases n
  {
    if n > 0 {
      var m := k * Pow256(n - 1);
      assert v + k * Pow256(n) == v + 256 * m;
      assert (v + 256 * m) / 256 == v / 256 + m && (v + 256 * m) % 256 == v % 256;
      BigEndianWraps(v / 256, k, n - 1);
    }
  }

  /** Splitting a big-endian number in front of its last `n` bytes. */
  lemma {:induction false} FromBigEndianConcat(a: seq<Byte>, b: seq<Byte>)
    ensures FromBigEndian(a + b) == FromBigEndian(a) * Pow256(|b|) + FromBigEndian(b)
  {
    if |b| == 0 {
      assert a + b == a;
    } else {
      var c := b[..|b| - 1];
      FromBigEndianConcat(a, c);
      LastByte(a, b);
      hide FromBigEndian, Pow256;
      TimesPow256(FromBigEndian(a), |c|);
    }
  }

  lemma LastByte(a: seq<Byte>, b: seq<Byte>)
    requires |b| > 0
    ensures FromBigEndian(a + b) == 256 * FromBigEndian(a + b[..|b| - 1]) + b[|b| - 1]
    ensures FromBigEndian(b) == 256 * FromBigEndian(b[..|b| - 1]) + b[|b| - 1]
  {
    assert (a + b)[..|a + b| - 1] == a + b[..|b| - 1];
  }

  lemma TimesPow256(x: int, n: nat)
    ensures x * Pow256(n + 1) == 256 * (x * Pow256(n))
  {
    var p := Pow256(n);
    assert Pow256(n + 1) == 256 * p;
  }

  /** The marker bit in the first byte of a `len`-byte variable-size integer. */
  function Mark(len: nat): (m: nat)
    requires 1 <= len <= 8
  {
    if len == 1 then 128 else if len == 2 then 64 else if len == 3 then 32 else if len == 4 then 16
    else if len == 5 then 8 else if len == 6 then 4 else if len == 7 then 2 else 1
  }

  /** The powers in question, as numbers. */
  lemma SmallPowers(n: nat)
    requires 1 <= n <= 8
    ensures n == 1 ==> Pow256(n - 1) == 1 && Pow128(n) == 0x80
    ensures n == 2 ==> Pow256(n - 1) == 0x100 && Pow128(n) == 0x4000
    ensures n == 3 ==> Pow256(n - 1) == 0x1_0000 && Pow128(n) == 0x20_0000
    ensures n == 4 ==> Pow256(n - 1) == 0x100_0000 && Pow128(n) == 0x1000_0000
    ensures n == 5 ==> Pow256(n - 1) == 0x1_0000_0000 && Pow128(n) == 0x8_0000_0000
    ensures n == 6 ==> Pow256(n - 1) == 0x100_0000_0000 && Pow128(n) == 0x400_0000_0000
    ensures n == 7 ==> Pow256(n - 1) == 0x1_0000_0000_0000 && Pow128(n) == 0x2_0000_0000_0000
    ensures n == 8 ==> Pow256(n - 1) == 0x100_0000_0000_0000 && Pow128(n) == 0x100_0000_0000_0000
  {
  }

  lemma OneByteValue(bs: seq<Byte>)
    requires |bs| == 1
    ensures FromBigEndian(bs) == bs[0]
  {
    assert bs[..0] == [];
  }

  /** A big-endian number is its first byte times a power of 256, and less than that power more. */
  lemma FirstByte(bs: seq<Byte>)
    requires 1 <= |bs| <= 8
    ensures var p := Pow256(|bs| - 1); bs[0] * p <= FromBigEndian(bs) < bs[0] * p + p
  {
    hide FromBigEndian, Pow256;
    assert bs == bs[..1] + bs[1..];
    OneByteValue(bs[..1]);
    FromBigEndianConcat(bs[..1], bs[1..]);
    FromBigEndianBound(bs[1..]);
  }
}
