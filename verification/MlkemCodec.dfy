/** Byte encoding of coefficients and lossy compression (FIPS 203 sections 4.2.1 and 4.2.2). */
module MlkemCodec {
  import opened Modular
  import opened Digits
  import opened Streams
  import opened NttTheory
  import opened MlkemNtt

  // ---------------------------------------------------------------- bit strings

  /** The low d bits of every number, least significant bit first, in one list. */
  function BitsOf(F: seq<int>, d: nat): (bits: seq<int>)
    ensures |bits| == |F| * d && AreDigits(bits, 2)
  {
    var parts := BitParts(F, d);
    JoinLength(parts, d);
    JoinDigits(parts);
    Join(parts)
  }

  function BitParts(F: seq<int>, d: nat): (parts: seq<seq<int>>)
    ensures |parts| == |F| && forall i :: 0 <= i < |F| ==> |parts[i]| == d && AreDigits(parts[i], 2)
  {
    seq(|F|, i requires 0 <= i < |F| => ToDigits(F[i], 2, d))
  }

  lemma {:induction false} JoinDigits(parts: seq<seq<int>>)
    requires forall i :: 0 <= i < |parts| ==> AreDigits(parts[i], 2)
    ensures AreDigits(Join(parts), 2)
  {
    if parts != [] {
      JoinDigits(parts[1..]);
    }
  }

  /** Group i of d bits. */
  function Group(bits: seq<int>, d: nat, i: nat): (g: seq<int>)
    requires (i + 1) * d <= |bits|
    ensures |g| == d && (AreDigits(bits, 2) ==> AreDigits(g, 2))
  {
    assert (i + 1) * d == i * d + d;
    bits[i * d..(i + 1) * d]
  }

  /** The numbers in n groups of d bits. */
  function NumbersOf(bits: seq<int>, d: nat, n: nat): (F: seq<int>)
    requires n * d <= |bits|
    ensures |F| == n
  {
    seq(n, i requires 0 <= i < n => MulMono(i + 1, n, d); Value(Group(bits, d, i), 2))
  }

  lemma GroupOfBits(F: seq<int>, d: nat, i: nat)
    requires i < |F|
    ensures (i + 1) * d <= |BitsOf(F, d)| && Group(BitsOf(F, d), d, i) == ToDigits(F[i], 2, d)
  {
    JoinSlice(BitParts(F, d), d, i);
  }

  /** Numbers that fit are read back. */
  lemma NumbersOfBits(F: seq<int>, d: nat)
    requires forall i :: 0 <= i < |F| ==> 0 <= F[i] < Pow(2, d)
    ensures NumbersOf(BitsOf(F, d), d, |F|) == F
  {
    forall i | 0 <= i < |F|
      ensures NumbersOf(BitsOf(F, d), d, |F|)[i] == F[i]
    {
      GroupOfBits(F, d, i);
      ValueOfDigits(F[i], 2, d);
    }
  }

  lemma GroupOfTail(bits: seq<int>, d: nat, i: nat)
    requires d <= |bits| && (i + 2) * d <= |bits|
    ensures (i + 1) * d <= |bits[d..]| && Group(bits[d..], d, i) == Group(bits, d, i + 1)
  {
    assert (i + 1) * d == i * d + d && (i + 2) * d == (i + 1) * d + d;
    assert bits[d..][i * d..(i + 1) * d] == bits[i * d + d..(i + 1) * d + d];
  }

  /** Part i of a list of groups; empty past the end. */
  function PartAt(bits: seq<int>, d: nat, i: nat): seq<int> {
    if (i + 1) * d <= |bits| then Group(bits, d, i) else []
  }

  /** The list cut into groups and joined again. */
  lemma {:induction false} JoinGroups(bits: seq<int>, parts: seq<seq<int>>, d: nat)
    requires |bits| == |parts| * d && forall i :: 0 <= i < |parts| ==> parts[i] == PartAt(bits, d, i)
    ensures Join(parts) == bits
    decreases |parts|
  {
    hide PartAt, Group;
    if parts != [] {
      var rest, tail := parts[1..], bits[d..];
      FirstPart(bits, d, |parts|);
      forall i | 0 <= i < |rest|
        ensures rest[i] == PartAt(tail, d, i)
      {
        LaterPart(bits, d, |parts|, i);
        assert rest[i] == parts[i + 1];
      }
      JoinGroups(tail, rest, d);
      assert bits == bits[..d] + tail;
    }
  }

  lemma FirstPart(bits: seq<int>, d: nat, n: nat)
    requires n > 0 && |bits| == n * d
    ensures d <= |bits| && PartAt(bits, d, 0) == bits[..d] && |bits[d..]| == (n - 1) * d
  {
    MulMono(1, n, d);
    assert (n - 1) * d == n * d - d;
  }

  lemma LaterPart(bits: seq<int>, d: nat, n: nat, i: nat)
    requires i + 1 < n && |bits| == n * d
    ensures d <= |bits| && PartAt(bits, d, i + 1) == PartAt(bits[d..], d, i)
  {
    MulMono(1, n, d);
    MulMono(i + 2, n, d);
    GroupOfTail(bits, d, i);
  }

  lemma BitsOfNumbers(bits: seq<int>, d: nat, n: nat)
    requires |bits| == n * d && AreDigits(bits, 2)
    ensures BitsOf(NumbersOf(bits, d, n), d) == bits
  {
    hide Group;
    var parts := BitParts(NumbersOf(bits, d, n), d);
    forall i | 0 <= i < n
      ensures parts[i] == PartAt(bits, d, i)
    {
      MulMono(i + 1, n, d);
      DigitsOfValue(Group(bits, d, i), 2);
    }
    JoinGroups(bits, parts, d);
  }

  // ---------------------------------------------------------------- byte_encode and byte_decode

  lemma BytePower()
    ensures Pow(2, 8) == 256
  {
    assert Pow(2, 4) == 16;
  }

  /** The bytes of a bit string, eight bits each. */
  function BytesOf(bits: seq<int>): (bs: Bytes)
    requires AreDigits(bits, 2)
    ensures |bs| == |bits| / 8
  {
    var n := |bits| / 8;
    var v := NumbersOf(bits, 8, n);
    assert forall i: nat | i < n :: 0 <= v[i] < 256 by {
      forall i: nat | i < n
        ensures 0 <= v[i] < 256
      {
        ByteValue(bits, i, n);
      }
    }
    seq(n, i requires 0 <= i < n => v[i])
  }

  lemma ByteValue(bits: seq<int>, i: nat, n: nat)
    requires AreDigits(bits, 2) && i < n && n * 8 <= |bits|
    ensures (i + 1) * 8 <= |bits| && 0 <= Value(Group(bits, 8, i), 2) < 256
  {
    BytePower();
    ValueRange(Group(bits, 8, i), 2);
  }

  function ByteEncode(d: nat, F: seq<int>): (bs: Bytes)
    ensures |bs| == |F| * d / 8
  {
    BytesOf(BitsOf(F, d))
  }

  /** Twelve-bit groups are reduced modulo q, shorter ones are kept. */
  function DecodeModulus(d: nat): (m: int)
    ensures m > 0
  {
    if d == 12 then Q else Pow2(d)
  }

  function ByteDecode(d: nat, bs: Bytes): (F: seq<int>)
    requires |bs| == 32 * d
    ensures |F| == N && forall i :: 0 <= i < N ==> 0 <= F[i] < DecodeModulus(d)
  {
    hide NumbersOf, DecodeModulus;
    var v := NumbersOf(BitsOf(bs, 8), d, N);
    seq(N, i requires 0 <= i < N => Remainder(v[i], DecodeModulus(d)))
  }

  function Remainder(x: int, m: int): (r: int)
    requires m > 0
    ensures 0 <= r < m
  {
    x % m
  }

  /** Byte strings are their bits. */
  lemma BytesOfBits(bs: Bytes)
    ensures BytesOf(BitsOf(bs, 8)) == bs
  {
    BytePower();
    NumbersOfBits(bs, 8);
  }

  lemma BitsOfBytes(bits: seq<int>)
    requires AreDigits(bits, 2) && |bits| % 8 == 0
    ensures BitsOf(BytesOf(bits), 8) == bits
  {
    var n := |bits| / 8;
    assert BytesOf(bits) == NumbersOf(bits, 8, n);
    BitsOfNumbers(bits, 8, n);
  }

  /** byte_decode undoes byte_encode. */
  lemma DecodeEncode(d: nat, F: seq<int>)
    requires d <= 12 && |F| == N && forall i :: 0 <= i < N ==> 0 <= F[i] < DecodeModulus(d)
    ensures |ByteEncode(d, F)| == 32 * d && ByteDecode(d, ByteEncode(d, F)) == F
  {
    hide BitsOf, BytesOf, NumbersOf, Pow, Pow2, Remainder;
    ModulusFits(d);
    BitsOfBytes(BitsOf(F, d));
    NumbersOfBits(F, d);
    forall i | 0 <= i < N
      ensures Remainder(F[i], DecodeModulus(d)) == F[i]
    {
      AlreadyReduced(F[i], DecodeModulus(d));
    }
  }

  lemma AlreadyReduced(x: int, m: int)
    requires 0 <= x < m
    ensures Remainder(x, m) == x
  {
  }

  lemma ModulusFits(d: nat)
    ensures DecodeModulus(d) <= Pow(2, d) && (d != 12 ==> DecodeModulus(d) == Pow(2, d))
  {
    Pow2IsPow(d);
    if d == 12 {
      assert Pow(2, 4) == 16;
      assert Pow(2, 8) == 256;
      assert Pow(2, 12) == 4096;
    }
  }

  /** The number in each group of d bits of the string is below the modulus. */
  ghost predicate IsCanonical(d: nat, bs: Bytes)
    requires |bs| == 32 * d
  {
    forall i :: 0 <= i < N ==> NumbersOf(BitsOf(bs, 8), d, N)[i] < DecodeModulus(d)
  }

  lemma GroupRange(bits: seq<int>, d: nat, i: nat)
    requires AreDigits(bits, 2) && N * d <= |bits| && i < N
    ensures 0 <= NumbersOf(bits, d, N)[i] < Pow(2, d)
  {
    MulMono(i + 1, N, d);
    ValueRange(Group(bits, d, i), 2);
  }

  /** Every string of whole groups below twelve bits is an encoding. */
  lemma AlwaysCanonical(d: nat, bs: Bytes)
    requires d < 12 && |bs| == 32 * d
    ensures IsCanonical(d, bs)
  {
    hide NumbersOf, BitsOf, Pow, Pow2;
    ModulusFits(d);
    forall i | 0 <= i < N
      ensures NumbersOf(BitsOf(bs, 8), d, N)[i] < DecodeModulus(d)
    {
      GroupRange(BitsOf(bs, 8), d, i);
    }
  }

  /** byte_encode undoes byte_decode on exactly the strings without a group of q or more: the modulus check. */
  lemma EncodeDecode(d: nat, bs: Bytes)
    requires d <= 12 && |bs| == 32 * d
    ensures ByteEncode(d, ByteDecode(d, bs)) == bs <==> IsCanonical(d, bs)
  {
    hide BitsOf, BytesOf, NumbersOf, Pow, Pow2, Remainder;
    var bits, F := BitsOf(bs, 8), ByteDecode(d, bs);
    var v := NumbersOf(bits, d, N);
    assert |bits| == N * d;
    if IsCanonical(d, bs) {
      forall i: nat | i < N
        ensures F[i] == v[i]
      {
        GroupRange(bits, d, i);
        AlreadyReduced(v[i], DecodeModulus(d));
      }
      assert F == v;
      BitsOfNumbers(bits, d, N);
      BytesOfBits(bs);
    }
    if ByteEncode(d, F) == bs {
      ModulusFits(d);
      BitsOfBytes(BitsOf(F, d));
      assert BitsOf(F, d) == bits;
      NumbersOfBits(F, d);
      assert v == F;
    }
  }

  // ---------------------------------------------------------------- compression

  function Compress(d: nat, x: int): (y: int)
    ensures 0 <= y < Pow2(d)
  {
    (x * Pow2(d) + 1664) / Q % Pow2(d)
  }

  function Decompress(d: nat, y: int): int
    requires d > 0
  {
    (y * Q + Pow2(d - 1)) / Pow2(d)
  }

  /** The representative of x modulo q between -1664 and 1664. */
  function Centred(x: int): (c: int)
    ensures -1664 <= c <= 1664
  {
    (x + 1664) % Q - 1664
  }

  /** The number of bits that the parameter sets compress to. */
  predicate IsCompression(d: nat) {
    d == 1 || d == 4 || d == 5 || d == 10 || d == 11
  }

  /** Half the distance between two decompressed values, rounded: FIPS 203 section 4.2.1. */
  function RoundingBound(d: nat): int {
    if d == 1 then 832 else if d == 4 then 104 else if d == 5 then 52 else if d == 10 then 2 else 1
  }

  lemma Powers()
    ensures Pow2(0) == 1 && Pow2(1) == 2 && Pow2(3) == 8 && Pow2(4) == 16 && Pow2(5) == 32
    ensures Pow2(9) == 512 && Pow2(10) == 1024 && Pow2(11) == 2048
  {
    Pow2Values();
  }

  /** The arithmetic of rounding down to p steps and back, for one p. */
  ghost predicate RoundsWell(p: int, bound: int, x: int)
    requires p > 0
  {
    var t := (x * p + 1664) / Q;
    var D := (t * Q + p / 2) / p;
    0 <= t <= p && -bound <= D - x <= bound && (t == p ==> D == Q)
  }

  lemma Rounds2(x: int)
    requires 0 <= x < Q
    ensures RoundsWell(2, 832, x)
  {
  }

  lemma Rounds16(x: int)
    requires 0 <= x < Q
    ensures RoundsWell(16, 104, x)
  {
  }

  lemma Rounds32(x: int)
    requires 0 <= x < Q
    ensures RoundsWell(32, 52, x)
  {
  }

  lemma Rounds1024(x: int)
    requires 0 <= x < Q
    ensures RoundsWell(1024, 2, x)
  {
  }

  lemma Rounds2048(x: int)
    requires 0 <= x < Q
    ensures RoundsWell(2048, 1, x)
  {
  }

  lemma SmallCentred(v: int, c: int)
    requires -1664 <= c <= 1664 && (v == c || v == c - Q)
    ensures Centred(v) == c
  {
  }

  lemma WrapsOnce(t: int, p: int)
    requires 0 <= t <= p && p > 0
    ensures t % p == if t == p then 0 else t
  {
  }

  lemma ErrorAt(p: int, bound: int, x: int)
    requires p > 0 && bound <= 1664 && RoundsWell(p, bound, x)
    ensures -bound <= Centred((((x * p + 1664) / Q) % p * Q + p / 2) / p - x) <= bound
  {
    hide Centred;
    var t := (x * p + 1664) / Q;
    WrapsOnce(t, p);
    var D := (t * Q + p / 2) / p;
    if t == p {
      DivModUnique(p / 2, p, 0, p / 2);
      assert (t % p * Q + p / 2) / p == 0;
    }
    SmallCentred((t % p * Q + p / 2) / p - x, D - x);
  }

  /** Decompressing what was compressed gives x up to rounding. */
  lemma CompressionError(d: nat, x: int)
    requires IsCompression(d) && 0 <= x < Q
    ensures -RoundingBound(d) <= Centred(Decompress(d, Compress(d, x)) - x) <= RoundingBound(d)
  {
    hide Pow2, Centred;
    Powers();
    if d == 1 {
      Rounds2(x);
    } else if d == 4 {
      Rounds16(x);
    } else if d == 5 {
      Rounds32(x);
    } else if d == 10 {
      Rounds1024(x);
    } else {
      Rounds2048(x);
    }
    ErrorAt(Pow2(d), RoundingBound(d), x);
  }

  /** Rounding y steps out of p to a coefficient and back. */
  ghost predicate ReturnsTo(p: int, y: int)
    requires p > 0
  {
    var x := (y * Q + p / 2) / p;
    (x * p + 1664) / Q == y && 0 <= x < Q
  }

  lemma Returns2(y: int)
    requires 0 <= y < 2
    ensures ReturnsTo(2, y)
  {
  }

  lemma Returns16(y: int)
    requires 0 <= y < 16
    ensures ReturnsTo(16, y)
  {
  }

  lemma Returns32(y: int)
    requires 0 <= y < 32
    ensures ReturnsTo(32, y)
  {
  }

  lemma Returns1024(y: int)
    requires 0 <= y < 1024
    ensures ReturnsTo(1024, y)
  {
  }

  lemma Returns2048(y: int)
    requires 0 <= y < 2048
    ensures ReturnsTo(2048, y)
  {
  }

  /** Compressing what was decompressed gives the value back. */
  lemma CompressDecompress(d: nat, y: int)
    requires IsCompression(d) && 0 <= y < Pow2(d)
    ensures Compress(d, Decompress(d, y)) == y && 0 <= Decompress(d, y) < Q
  {
    hide Pow2;
    Powers();
    if d == 1 {
      Returns2(y);
    } else if d == 4 {
      Returns16(y);
    } else if d == 5 {
      Returns32(y);
    } else if d == 10 {
      Returns1024(y);
    } else {
      Returns2048(y);
    }
    WrapsOnce(y, Pow2(d));
  }

  /** A message bit survives noise exactly while the noise is at most 832, and at most 831 upwards for a one. */
  lemma BitSurvives(bit: int, w: int)
    requires (bit == 0 || bit == 1) && 0 <= w < Q
    ensures Compress(1, w) == bit <==> -832 <= Centred(w - Decompress(1, bit)) <= 832 - bit
  {
    hide Pow2;
    Powers();
  }
}
