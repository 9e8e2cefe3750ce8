/** Key generation, encapsulation and decapsulation of ML-KEM (FIPS 203 sections 5 and 6). */
module Mlkem {
  import opened Wrappers
  import opened Modular
  import opened Digits
  import opened Streams
  import opened NttTheory
  import opened MlkemNtt
  import opened MlkemCodec

  type Poly = p: seq<int> | |p| == N witness seq(N, _ => 0)

  type Bytes32 = b: Bytes | |b| == 32 witness seq(32, _ => 0)

  /** The parameter sets. */
  datatype Params = Kem512 | Kem768 | Kem1024 {
    const k: nat := if this == Kem512 then 2 else if this == Kem768 then 3 else 4
    const eta1: nat := if this == Kem512 then 3 else 2
    const eta2: nat := 2
    const du: nat := if this == Kem1024 then 11 else 10
    const dv: nat := if this == Kem1024 then 5 else 4
  }

  /** The hash functions, and the streams of SHAKE. */
  datatype Hashes = Hashes(H: Bytes -> Bytes32, J: Bytes -> Bytes32, G: Bytes -> (Bytes32, Bytes32),
                           shake128: Bytes -> Stream, shake256: Bytes -> Stream)

  function Prf(hs: Hashes, eta: nat, seed: Bytes, b: nat): (r: Bytes)
    ensures |r| == 64 * eta
  {
    Output(hs.shake256(seed + [b % 256]), 0, 64 * eta)
  }

  // ---------------------------------------------------------------- sampling

  function Candidate1(g: Stream, pos: nat): (c: int)
    ensures c >= 0
  {
    g(pos) as int + 256 * (g(pos + 1) as int % 16)
  }

  function Candidate2(g: Stream, pos: nat): (c: int)
    ensures c >= 0
  {
    g(pos + 1) as int / 16 + 16 * g(pos + 2) as int
  }

  function Accept(a: seq<int>, c: int): seq<int> {
    if c < Q && |a| < N then a + [c] else a
  }

  ghost predicate IsPartial(a: seq<int>) {
    |a| <= N && forall i :: 0 <= i < |a| ==> 0 <= a[i] < Q
  }

  /** The coefficients accepted from the stream, three bytes at a time; none when limit iterations do not suffice. */
  function SampleFrom(g: Stream, a: seq<int>, it: nat, limit: nat): (r: Option<Poly>)
    requires IsPartial(a)
    ensures r.Some? ==> IsReduced(r.value)
    decreases limit - it
  {
    if |a| == N then Some(a)
    else if it >= limit then None
    else SampleFrom(g, Accept(Accept(a, Candidate1(g, 3 * it)), Candidate2(g, 3 * it)), it + 1, limit)
  }

  method SampleNtt(g: Stream, limit: nat) returns (r: Option<seq<int>>)
    ensures r == SampleFrom(g, [], 0, limit)
  {
    hide Candidate1, Candidate2;
    var a: seq<int>, it: nat := [], 0;
    while |a| < N
      invariant IsPartial(a) && it <= limit
      invariant SampleFrom(g, a, it, limit) == SampleFrom(g, [], 0, limit)
      decreases limit - it
    {
      if it >= limit {
        return None;
      }
      var d1, d2 := Candidate1(g, 3 * it), Candidate2(g, 3 * it);
      it := it + 1;
      if d1 < Q {
        a := a + [d1];
      }
      if d2 < Q && |a| < N {
        a := a + [d2];
      }
    }
    return Some(a);
  }

  function Sum(bits: seq<int>): int {
    if bits == [] then 0 else bits[0] + Sum(bits[1..])
  }

  lemma {:induction false} SumRange(bits: seq<int>)
    requires AreDigits(bits, 2)
    ensures 0 <= Sum(bits) <= |bits|
  {
    if bits != [] {
      SumRange(bits[1..]);
    }
  }

  /** The difference of the numbers of ones in two groups of eta bits. */
  function CbdCoefficient(bits: seq<int>, eta: nat, i: nat): (c: int)
    requires AreDigits(bits, 2) && (2 * i + 2) * eta <= |bits|
    ensures 0 - eta <= c <= eta
  {
    assert (2 * i + 1) * eta == 2 * i * eta + eta && (2 * i + 2) * eta == (2 * i + 1) * eta + eta;
    var x, y := bits[2 * i * eta..2 * i * eta + eta], bits[2 * i * eta + eta..2 * i * eta + 2 * eta];
    SumRange(x);
    SumRange(y);
    Sum(x) - Sum(y)
  }

  function SampleCbd(eta: nat, bs: Bytes): (p: Poly)
    requires |bs| == 64 * eta
    ensures IsReduced(p)
  {
    seq(N, i requires 0 <= i < N => CbdFits(eta, i); CbdCoefficient(BitsOf(bs, 8), eta, i) % Q)
  }

  lemma CbdFits(eta: nat, i: nat)
    requires i < N
    ensures (2 * i + 2) * eta <= 64 * eta * 8
  {
    MulMono(2 * i + 2, 512, eta);
  }

  /** Sampled coefficients are small. */
  lemma CbdIsSmall(eta: nat, bs: Bytes)
    requires |bs| == 64 * eta && eta <= 3
    ensures forall i :: 0 <= i < N ==> 0 - eta <= Centred(SampleCbd(eta, bs)[i]) <= eta
  {
    hide BitsOf, CbdCoefficient;
    forall i | 0 <= i < N
      ensures 0 - eta <= Centred(SampleCbd(eta, bs)[i]) <= eta
    {
      CbdFits(eta, i);
      CentredSmall(CbdCoefficient(BitsOf(bs, 8), eta, i));
    }
  }

  /** Bit i of the byte string: bit i mod 8 of byte i / 8. */
  predicate ByteBit(bs: Bytes, i: nat)
    requires i < 8 * |bs|
  {
    BitOf(bs[i / 8], i % 8)
  }

  /** How many of the n bits from bit k on are ones. */
  function OnesFrom(bs: Bytes, k: nat, n: nat): nat
    requires k + n <= 8 * |bs|
    decreases n
  {
    if n == 0 then 0 else (if ByteBit(bs, k) then 1 else 0) + OnesFrom(bs, k + 1, n - 1)
  }

  lemma {:induction false} DigitIsBit(n: nat, len: nat, j: nat)
    requires j < len
    ensures ToDigits(n, 2, len)[j] == if BitOf(n, j) then 1 else 0
    decreases j
  {
    if j > 0 {
      DigitIsBit(n / 2, len - 1, j - 1);
      HalfOfQuotient(n, Pow2(j - 1));
      assert ToDigits(n, 2, len)[j] == ToDigits(n / 2, 2, len - 1)[j - 1];
    } else {
      assert Pow2(0) == 1;
    }
  }

  lemma BitsOfBytes(bs: Bytes, i: nat)
    requires i < 8 * |bs|
    ensures BitsOf(bs, 8)[i] == if ByteBit(bs, i) then 1 else 0
  {
    hide BitOf, BitsOf;
    var k, j := i / 8, i % 8;
    GroupOfBits(bs, 8, k);
    assert Group(BitsOf(bs, 8), 8, k)[j] == BitsOf(bs, 8)[k * 8 + j];
    DigitIsBit(bs[k], 8, j);
  }

  lemma {:induction false} SumIsOnes(bs: Bytes, k: nat, n: nat)
    requires k + n <= 8 * |bs|
    ensures Sum(BitsOf(bs, 8)[k..k + n]) == OnesFrom(bs, k, n)
    decreases n
  {
    hide BitsOf, ByteBit;
    if n > 0 {
      BitsOfBytes(bs, k);
      SumIsOnes(bs, k + 1, n - 1);
      assert BitsOf(bs, 8)[k..k + n][1..] == BitsOf(bs, 8)[k + 1..k + 1 + (n - 1)];
    }
  }

  /** Coefficient i is the difference of the numbers of ones in two groups of eta bits. */
  lemma CbdIsDifference(eta: nat, bs: Bytes, i: nat)
    requires |bs| == 64 * eta && i < N
    ensures 2 * i * eta + 2 * eta <= 8 * |bs|
    ensures SampleCbd(eta, bs)[i] == (OnesFrom(bs, 2 * i * eta, eta) - OnesFrom(bs, 2 * i * eta + eta, eta)) % Q
  {
    hide BitsOf, Sum, OnesFrom;
    CbdFits(eta, i);
    assert (2 * i + 2) * eta == 2 * i * eta + 2 * eta;
    SumIsOnes(bs, 2 * i * eta, eta);
    SumIsOnes(bs, 2 * i * eta + eta, eta);
  }

  lemma CentredSmall(c: int)
    requires -1664 <= c <= 1664
    ensures Centred(c % Q) == c
  {
  }

  function Short(hs: Hashes, eta: nat, seed: Bytes, b: nat): (p: Poly)
    ensures IsReduced(p)
  {
    SampleCbd(eta, Prf(hs, eta, seed, b))
  }

  /** n polynomials sampled with consecutive counters from first on. */
  function ShortVector(hs: Hashes, eta: nat, seed: Bytes, first: nat, n: nat): (v: seq<Poly>)
    ensures |v| == n && forall i :: 0 <= i < n ==> IsReduced(v[i])
  {
    var v: seq<seq<int>> := seq(n, i requires 0 <= i < n => Short(hs, eta, seed, first + i));
    assert forall i: nat | i < n :: v[i] == Short(hs, eta, seed, first + i);
    v
  }

  // ---------------------------------------------------------------- vectors and matrices of transforms

  function Zero(): (r: Poly)
    ensures IsReduced(r)
  {
    seq(N, _ => 0)
  }

  function Dot(u: seq<Poly>, v: seq<Poly>, n: nat): (r: Poly)
    requires n <= |u| && n <= |v|
    ensures IsReduced(r)
  {
    if n == 0 then Zero() else Vadd(Dot(u, v, n - 1), MulNtt(u[n - 1], v[n - 1]))
  }

  ghost predicate IsSquare(A: seq<seq<Poly>>, k: nat) {
    |A| == k && forall i :: 0 <= i < k ==> |A[i]| == k
  }

  function Column(A: seq<seq<Poly>>, k: nat, i: nat): (c: seq<Poly>)
    requires IsSquare(A, k) && i < k
    ensures |c| == k && forall j :: 0 <= j < k ==> c[j] == A[j][i]
  {
    seq(k, j requires 0 <= j < k => A[j][i])
  }

  function NttAll(v: seq<Poly>): (r: seq<Poly>)
    ensures |r| == |v| && forall i :: 0 <= i < |v| ==> r[i] == Ntt(v[i]) && IsReduced(r[i])
  {
    seq(|v|, i requires 0 <= i < |v| => Ntt(v[i]))
  }

  function NttInvAll(v: seq<Poly>): (r: seq<Poly>)
    ensures |r| == |v| && forall i :: 0 <= i < |v| ==> r[i] == NttInv(v[i]) && IsReduced(r[i])
  {
    seq(|v|, i requires 0 <= i < |v| => NttInv(v[i]))
  }

  function VaddAll(a: seq<Poly>, b: seq<Poly>): (r: seq<Poly>)
    requires |a| == |b|
    ensures |r| == |a| && forall i :: 0 <= i < |a| ==> r[i] == Vadd(a[i], b[i]) && IsReduced(r[i])
  {
    seq(|a|, i requires 0 <= i < |a| => Vadd(a[i], b[i]))
  }

  /** A v, or the transpose of A times v. */
  function MatVec(A: seq<seq<Poly>>, v: seq<Poly>, trans: bool): (r: seq<Poly>)
    requires IsSquare(A, |v|)
    ensures |r| == |v| && forall i :: 0 <= i < |v| ==> IsReduced(r[i])
  {
    seq(|v|, i requires 0 <= i < |v| => Dot(if trans then Column(A, |v|, i) else A[i], v, |v|))
  }

  function Matrix(hs: Hashes, rho: Bytes, k: nat, limit: nat): (A: Option<seq<seq<Poly>>>)
    ensures A.Some? ==> IsSquare(A.value, k)
  {
    Collect(k, (i: nat) => MatrixRow(hs, rho, k, i, limit))
  }

  function MatrixRow(hs: Hashes, rho: Bytes, k: nat, i: nat, limit: nat): (r: Option<seq<Poly>>)
    ensures r.Some? ==> |r.value| == k
  {
    Collect(k, (j: nat) => SampleFrom(hs.shake128(rho + [j % 256, i % 256]), [], 0, limit))
  }

  // ---------------------------------------------------------------- encodings of vectors

  function EncodeAll(d: nat, v: seq<Poly>): (bs: Bytes)
    ensures |bs| == |v| * (32 * d)
  {
    var parts := seq(|v|, i requires 0 <= i < |v| => ByteEncode(d, v[i]));
    JoinLength(parts, 32 * d);
    Join(parts)
  }

  function DecodeAll(d: nat, bs: Bytes, n: nat): (v: seq<Poly>)
    requires n * (32 * d) <= |bs|
    ensures |v| == n
  {
    seq(n, i requires 0 <= i < n =>
      MulMono(i + 1, n, 32 * d);
      assert (i + 1) * (32 * d) == i * (32 * d) + 32 * d;
      ByteDecode(d, bs[i * (32 * d)..(i + 1) * (32 * d)]))
  }

  /** Every coefficient fits d bits, or is below q when d is 12. */
  ghost predicate Encodable(d: nat, p: Poly) {
    forall i :: 0 <= i < N ==> 0 <= p[i] < DecodeModulus(d)
  }

  /** A vector is read back from the front of what follows it. */
  lemma DecodeEncodeAll(d: nat, v: seq<Poly>, rest: Bytes)
    requires d <= 12 && forall i :: 0 <= i < |v| ==> Encodable(d, v[i])
    ensures DecodeAll(d, EncodeAll(d, v) + rest, |v|) == v
  {
    hide ByteEncode, ByteDecode;
    var parts := seq(|v|, i requires 0 <= i < |v| => ByteEncode(d, v[i]));
    forall i | 0 <= i < |v|
      ensures DecodeAll(d, EncodeAll(d, v) + rest, |v|)[i] == v[i]
    {
      JoinSlice(parts, 32 * d, i);
      DecodeEncode(d, v[i]);
      assert (Join(parts) + rest)[i * (32 * d)..(i + 1) * (32 * d)] == Join(parts)[i * (32 * d)..(i + 1) * (32 * d)];
    }
  }

  function CompressPoly(d: nat, p: Poly): (r: Poly)
    ensures d != 12 ==> Encodable(d, r)
  {
    seq(N, i requires 0 <= i < N => Compress(d, p[i]))
  }

  function DecompressPoly(d: nat, p: Poly): (r: Poly)
    requires d > 0
  {
    seq(N, i requires 0 <= i < N => Decompress(d, p[i]))
  }

  function CompressAll(d: nat, v: seq<Poly>): (r: seq<Poly>)
    ensures |r| == |v| && forall i :: 0 <= i < |v| ==> r[i] == CompressPoly(d, v[i])
  {
    seq(|v|, i requires 0 <= i < |v| => CompressPoly(d, v[i]))
  }

  function DecompressAll(d: nat, v: seq<Poly>): (r: seq<Poly>)
    requires d > 0
    ensures |r| == |v| && forall i :: 0 <= i < |v| ==> r[i] == DecompressPoly(d, v[i])
  {
    seq(|v|, i requires 0 <= i < |v| => DecompressPoly(d, v[i]))
  }

  // ---------------------------------------------------------------- K-PKE

  /** What key generation draws: the matrix, the secret and the error, before their transforms are taken. */
  datatype Drawn = Drawn(rho: Bytes32, A: seq<seq<Poly>>, s: seq<Poly>, e: seq<Poly>)

  function DrawKey(ps: Params, hs: Hashes, d: Bytes, limit: nat): (r: Option<Drawn>)
    ensures r.Some? ==> IsSquare(r.value.A, ps.k) && |r.value.s| == |r.value.e| == ps.k
  {
    var (rho, sigma) := hs.G(d + [ps.k]);
    match Matrix(hs, rho, ps.k, limit)
    case None => None
    case Some(A) => Some(Drawn(rho, A, ShortVector(hs, ps.eta1, sigma, 0, ps.k), ShortVector(hs, ps.eta1, sigma, ps.k,
        ps.k)))
  }

  /** t = A s + e, transformed. */
  function PublicVector(x: Drawn): (t: seq<Poly>)
    requires |x.s| == |x.e| && IsSquare(x.A, |x.s|)
    ensures |t| == |x.s| && forall i :: 0 <= i < |t| ==> IsReduced(t[i])
  {
    VaddAll(MatVec(x.A, NttAll(x.s), false), NttAll(x.e))
  }

  function PkeKeyGen(ps: Params, hs: Hashes, d: Bytes, limit: nat): (r: Option<(Bytes, Bytes)>)
    ensures r.Some? ==> |r.value.0| == 384 * ps.k + 32 && |r.value.1| == 384 * ps.k
  {
    match DrawKey(ps, hs, d, limit)
    case None => None
    case Some(x) => Some((EncodeAll(12, PublicVector(x)) + x.rho, EncodeAll(12, NttAll(x.s))))
  }

  /** What encryption draws. */
  datatype Noise = Noise(y: seq<Poly>, e1: seq<Poly>, e2: Poly)

  function DrawNoise(ps: Params, hs: Hashes, r: Bytes): (n: Noise)
    ensures |n.y| == |n.e1| == ps.k
  {
    Noise(ShortVector(hs, ps.eta1, r, 0, ps.k), ShortVector(hs, ps.eta2, r, ps.k, ps.k),
          Short(hs, ps.eta2, r, 2 * ps.k))
  }

  /** u = A^T y + e1. */
  function CipherU(A: seq<seq<Poly>>, n: Noise): (u: seq<Poly>)
    requires |n.y| == |n.e1| && IsSquare(A, |n.y|)
    ensures |u| == |n.y| && forall i :: 0 <= i < |u| ==> IsReduced(u[i])
  {
    VaddAll(NttInvAll(MatVec(A, NttAll(n.y), true)), n.e1)
  }

  /** v = t y + e2 + mu. */
  function CipherV(t: seq<Poly>, n: Noise, mu: Poly): (v: Poly)
    requires |t| == |n.y|
    ensures IsReduced(v)
  {
    Vadd(Vadd(NttInv(Dot(t, NttAll(n.y), |t|)), n.e2), mu)
  }

  function MessagePoly(m: Bytes32): (mu: Poly) {
    DecompressPoly(1, ByteDecode(1, m))
  }

  function PkeEncrypt(ps: Params, hs: Hashes, ek: Bytes, m: Bytes32, r: Bytes, limit: nat): (c: Option<Bytes>)
    requires |ek| == 384 * ps.k + 32
    ensures c.Some? ==> |c.value| == ps.k * (32 * ps.du) + 32 * ps.dv
  {
    var t := DecodeAll(12, ek, ps.k);
    match Matrix(hs, ek[384 * ps.k..], ps.k, limit)
    case None => None
    case Some(A) =>
      var n := DrawNoise(ps, hs, r);
      Some(EncodeAll(ps.du, CompressAll(ps.du, CipherU(A, n)))
           + ByteEncode(ps.dv, CompressPoly(ps.dv, CipherV(t, n, MessagePoly(m)))))
  }

  function PkeDecrypt(ps: Params, dk: Bytes, c: Bytes): (m: Bytes32)
    requires |dk| == 384 * ps.k && |c| == ps.k * (32 * ps.du) + 32 * ps.dv
  {
    var u := DecompressAll(ps.du, DecodeAll(ps.du, c, ps.k));
    var v := DecompressPoly(ps.dv, ByteDecode(ps.dv, c[ps.k * (32 * ps.du)..]));
    ByteEncode(1, CompressPoly(1, Opened(DecodeAll(12, dk, ps.k), u, v)))
  }

  /** w = v - s u. */
  function Opened(s: seq<Poly>, u: seq<Poly>, v: Poly): (w: Poly)
    requires |s| == |u|
    ensures IsReduced(w)
  {
    Vsub(v, NttInv(Dot(s, NttAll(u), |s|)))
  }

  // ---------------------------------------------------------------- the mechanism

  function KeyGen(ps: Params, hs: Hashes, d: Bytes, z: Bytes32, limit: nat): (r: Option<(Bytes, Bytes)>)
    ensures r.Some? ==> |r.value.0| == 384 * ps.k + 32 && |r.value.1| == 768 * ps.k + 96
  {
    match PkeKeyGen(ps, hs, d, limit)
    case None => None
    case Some((ek, dkp)) => Some((ek, dkp + ek + hs.H(ek) + z))
  }

  function Encaps(ps: Params, hs: Hashes, ek: Bytes, m: Bytes32, limit: nat): (r: Option<(Bytes32, Bytes)>)
    requires |ek| == 384 * ps.k + 32
    ensures r.Some? ==> |r.value.1| == ps.k * (32 * ps.du) + 32 * ps.dv
  {
    var (K, r) := hs.G(m + hs.H(ek));
    match PkeEncrypt(ps, hs, ek, m, r, limit)
    case None => None
    case Some(c) => Some((K, c))
  }

  /** The parts of a decapsulation key. */
  function DkParts(ps: Params, dk: Bytes): (p: (Bytes, Bytes, Bytes32, Bytes32))
    requires |dk| == 768 * ps.k + 96
    ensures |p.0| == 384 * ps.k && |p.1| == 384 * ps.k + 32 && dk == p.0 + p.1 + p.2 + p.3
  {
    var a := 384 * ps.k;
    (dk[..a], dk[a..2 * a + 32], dk[2 * a + 32..2 * a + 64], dk[2 * a + 64..])
  }

  /** The shared key, or a key derived from z when re-encryption gives another ciphertext. */
  function Decaps(ps: Params, hs: Hashes, dk: Bytes, c: Bytes, limit: nat): (K: Option<Bytes32>)
    requires |dk| == 768 * ps.k + 96 && |c| == ps.k * (32 * ps.du) + 32 * ps.dv
  {
    hide DkParts, PkeDecrypt, PkeEncrypt;
    var (dkp, ek, h, z) := DkParts(ps, dk);
    var m := PkeDecrypt(ps, dkp, c);
    var (K, r) := hs.G(m + h);
    match PkeEncrypt(ps, hs, ek, m, r, limit)
    case None => None
    case Some(c2) => Some(if c == c2 then K else hs.J(z + c))
  }

  /** The check on an encapsulation key: its length, and no coefficient of q or more. */
  ghost predicate EkCheck(ps: Params, ek: Bytes) {
    && |ek| == 384 * ps.k + 32
    && forall i: nat :: i < ps.k ==> Recodes(ek[384 * i..384 * i + 384])
  }

  ghost predicate Recodes(bs: Bytes)
    requires |bs| == 384
  {
    ByteEncode(12, ByteDecode(12, bs)) == bs
  }

  predicate DkCheck(ps: Params, hs: Hashes, dk: Bytes) {
    && |dk| == 768 * ps.k + 96
    && hs.H(dk[384 * ps.k..768 * ps.k + 32]) == dk[768 * ps.k + 32..768 * ps.k + 64]
  }
}
