/** Numbers as sequences of digits, least significant first: little-endian bytes, packed bit fields, bits. */
module Digits {
  import opened Modular

  type byte = x: int | 0 <= x < 256

  ghost predicate AreDigits(ds: seq<int>, B: int) {
    forall i :: 0 <= i < |ds| ==> 0 <= ds[i] < B
  }

  function Value(ds: seq<int>, B: int): int {
    if ds == [] then 0 else ds[0] + B * Value(ds[1..], B)
  }

  function ToDigits(n: int, B: int, len: nat): (ds: seq<int>)
    requires B > 0
    ensures |ds| == len && AreDigits(ds, B)
    decreases len
  {
    hide Last, Rest;
    if len == 0 then [] else [Last(n, B)] + ToDigits(Rest(n, B), B, len - 1)
  }

  function Last(n: int, B: int): (d: int)
    requires B > 0
    ensures 0 <= d < B
  {
    n % B
  }

  function Rest(n: int, B: int): int
    requires B > 0
  {
    n / B
  }

  lemma {:induction false} ValueRange(ds: seq<int>, B: int)
    requires B > 0 && AreDigits(ds, B)
    ensures 0 <= Value(ds, B) < Pow(B, |ds|)
  {
    if ds != [] {
      ValueRange(ds[1..], B);
      RangeStep(ds[0], B, Value(ds[1..], B), Pow(B, |ds| - 1));
    }
  }

  lemma RangeStep(d: int, B: int, v: int, p: int)
    requires 0 <= d < B && 0 <= v < p
    ensures 0 <= d + B * v < B * p
  {
    MulMono(v + 1, p, B);
    assert (v + 1) * B == B * v + B && p * B == B * p;
  }

  lemma {:induction false} DigitsOfValue(ds: seq<int>, B: int)
    requires B > 0 && AreDigits(ds, B)
    ensures ToDigits(Value(ds, B), B, |ds|) == ds
  {
    hide Last, Rest;
    if ds != [] {
      var v := Value(ds[1..], B);
      DigitsOfValue(ds[1..], B);
      assert ds[0] + B * v == v * B + ds[0];
      LastRest(ds[0] + B * v, B, v, ds[0]);
    }
  }

  lemma {:induction false} ValueOfDigits(n: int, B: int, len: nat)
    requires B > 0 && 0 <= n < Pow(B, len)
    ensures Value(ToDigits(n, B, len), B) == n
  {
    hide Last, Rest;
    if len > 0 {
      QuotientRange(n, B, Pow(B, len - 1));
      ValueOfDigits(Rest(n, B), B, len - 1);
      assert ToDigits(n, B, len)[1..] == ToDigits(Rest(n, B), B, len - 1);
    }
  }

  lemma LastRest(n: int, B: int, v: int, d: int)
    requires B > 0 && n == v * B + d && 0 <= d < B
    ensures Rest(n, B) == v && Last(n, B) == d
  {
    DivModUnique(n, B, v, d);
  }

  lemma QuotientRange(n: int, B: int, p: int)
    requires B > 0 && 0 <= n < B * p
    ensures 0 <= Rest(n, B) < p && n == Last(n, B) + B * Rest(n, B)
  {
  }

  // ---------------------------------------------------------------- bit fields in bytes

  /** The values, each in its own field of the given number of bits, as a little-endian byte string. */
  function Pack(vals: seq<int>, bits: nat): (bs: seq<byte>)
    requires AreDigits(vals, Pow2(bits))
    ensures |bs| == |vals| * bits / 8
  {
    ToDigits(Value(vals, Pow2(bits)), 256, |vals| * bits / 8)
  }

  function Unpack(bs: seq<byte>, bits: nat): (vals: seq<int>)
    requires bits > 0
    ensures |vals| == |bs| * 8 / bits && AreDigits(vals, Pow2(bits))
  {
    ToDigits(Value(bs, 256), Pow2(bits), |bs| * 8 / bits)
  }

  lemma {:induction false} Pow2IsPow(k: nat)
    ensures Pow2(k) == Pow(2, k)
  {
    if k > 0 {
      Pow2IsPow(k - 1);
    }
  }

  lemma FieldsFillBytes(bits: nat, n: nat, len: nat)
    requires len * 8 == n * bits
    ensures Pow(256, len) == Pow(Pow2(bits), n)
  {
    assert 256 == Pow(2, 8) by {
      assert Pow(2, 4) == 16;
    }
    PowMul(2, 8, len);
    PowMul(2, bits, n);
    Pow2IsPow(bits);
    assert 8 * len == bits * n;
  }

  /** Unpacking undoes packing when the fields fill whole bytes. */
  lemma UnpackPack(vals: seq<int>, bits: nat)
    requires bits > 0 && AreDigits(vals, Pow2(bits)) && |vals| * bits % 8 == 0
    ensures Unpack(Pack(vals, bits), bits) == vals
  {
    var len := |vals| * bits / 8;
    FieldsFillBytes(bits, |vals|, len);
    ValueRange(vals, Pow2(bits));
    ValueOfDigits(Value(vals, Pow2(bits)), 256, len);
    DigitsOfValue(vals, Pow2(bits));
    ExactQuotient(|vals|, bits);
  }

  lemma ExactQuotient(n: nat, d: nat)
    requires d > 0
    ensures n * d / d == n
  {
    DivModUnique(n * d, d, n, 0);
  }

  /** Packing undoes unpacking when the bytes are filled with whole fields: every byte string is a packing. */
  lemma PackUnpack(bs: seq<byte>, bits: nat)
    requires bits > 0 && |bs| * 8 % bits == 0
    ensures Pack(Unpack(bs, bits), bits) == bs
  {
    var n := |bs| * 8 / bits;
    assert n * bits == |bs| * 8;
    FieldsFillBytes(bits, n, |bs|);
    ValueRange(bs, 256);
    ValueOfDigits(Value(bs, 256), Pow2(bits), n);
    DigitsOfValue(bs, 256);
  }

  function BitLen(x: nat): nat {
    if x == 0 then 0 else 1 + BitLen(x / 2)
  }

  lemma {:induction false} BitLenOnes(k: nat)
    ensures BitLen(Pow2(k) - 1) == k
  {
    if k > 0 {
      BitLenOnes(k - 1);
      assert (Pow2(k) - 1) / 2 == Pow2(k - 1) - 1;
    }
  }

  // ---------------------------------------------------------------- concatenation of equal parts

  function Join<T>(parts: seq<seq<T>>): seq<T> {
    if parts == [] then [] else parts[0] + Join(parts[1..])
  }

  lemma {:induction false} JoinLength<T>(parts: seq<seq<T>>, len: nat)
    requires forall i :: 0 <= i < |parts| ==> |parts[i]| == len
    ensures |Join(parts)| == |parts| * len
  {
    if parts != [] {
      JoinLength(parts[1..], len);
      assert |parts| * len == len + (|parts| - 1) * len;
    }
  }

  /** Part i of a concatenation of parts of equal length. */
  lemma {:induction false} JoinSlice<T>(parts: seq<seq<T>>, len: nat, i: nat)
    requires i < |parts| && forall j :: 0 <= j < |parts| ==> |parts[j]| == len
    ensures |Join(parts)| == |parts| * len && 0 <= i * len <= (i + 1) * len <= |parts| * len
    ensures Join(parts)[i * len..(i + 1) * len] == parts[i]
  {
    JoinLength(parts, len);
    MulMono(i + 1, |parts|, len);
    assert (i + 1) * len == i * len + len;
    if i > 0 {
      JoinSlice(parts[1..], len, i - 1);
      JoinLength(parts[1..], len);
      assert (i - 1) * len == i * len - len;
      var rest := Join(parts[1..]);
      assert Join(parts) == parts[0] + rest;
      assert Join(parts)[i * len..(i + 1) * len] == rest[i * len - len..(i + 1) * len - len];
    }
  }
}
