/** Key generation, signing and verification of ML-DSA (FIPS 204 Algorithms 6, 7 and 8), with mu as an input. */
module Mldsa {
  import opened Wrappers
  import opened Modular
  import opened Digits
  import opened Streams
  import opened NttTheory
  import opened MldsaNtt
  import opened MldsaRounding
  import opened MldsaHints
  import opened MldsaCodec
  import opened MldsaSampling

  type Poly = seq<int>

  function TwoBytes(x: nat): Bytes {
    [x % 256, x / 256 % 256]
  }

  // ---------------------------------------------------------------- expansion of the seeds

  ghost predicate AllReduced(v: seq<Poly>, n: nat) {
    |v| == n && forall i :: 0 <= i < n ==> IsReduced(v[i])
  }

  ghost predicate IsMatrix(ps: Params, A: seq<seq<Poly>>) {
    |A| == ps.k && forall r :: 0 <= r < ps.k ==> AllReduced(A[r], ps.l)
  }

  function ExpandA(ps: Params, hs: Hashes, rho: Bytes, lim: Limits): (A: Option<seq<seq<Poly>>>)
    ensures A.Some? ==> IsMatrix(ps, A.value)
  {
    Collect(ps.k, (r: nat) => ExpandRow(ps, hs, rho, r, lim))
  }

  function ExpandRow(ps: Params, hs: Hashes, rho: Bytes, r: nat, lim: Limits): (v: Option<seq<Poly>>)
    ensures v.Some? ==> AllReduced(v.value, ps.l)
  {
    Collect(ps.l, (s: nat) => MatrixEntry(hs, rho, r, s, lim))
  }

  function MatrixEntry(hs: Hashes, rho: Bytes, r: nat, s: nat, lim: Limits): (p: Option<Poly>)
    ensures p.Some? ==> IsReduced(p.value)
  {
    RejNttFrom(hs.shake128(rho + [s % 256, r % 256]), [], 0, lim.ntt)
  }

  /** n secret polynomials, numbered from first on. */
  function ExpandS(ps: Params, hs: Hashes, rho2: Bytes, first: nat, n: nat, lim: Limits): (v: Option<seq<Poly>>)
    ensures v.Some? ==> IsVector(v.value, n, ps.eta, ps.eta)
  {
    hide SecretEntry;
    var v := Collect(n, (r: nat) => SecretEntry(ps, hs, rho2, first + r, lim));
    assert v.Some? ==> forall i: nat | i < n :: SecretEntry(ps, hs, rho2, first + i, lim) == Some(v.value[i]);
    v
  }

  function SecretEntry(ps: Params, hs: Hashes, rho2: Bytes, r: nat, lim: Limits): (p: Option<Poly>)
    ensures p.Some? ==> IsReduced(p.value) && InRange(Centre(p.value), ps.eta, ps.eta)
  {
    RejBoundedFrom(ps, hs.shake256(rho2 + TwoBytes(r)), [], 0, lim.bounded)
  }

  /** The mask y; the counter has two bytes, so it does not pass 65535. */
  function ExpandMask(ps: Params, hs: Hashes, rho2: Bytes, mu: nat): (y: Option<seq<Poly>>)
    ensures y.Some? ==> |y.value| == ps.l && forall r :: 0 <= r < ps.l ==> |y.value[r]| == N
  {
    if mu + ps.l > 0x10000 then None
    else
      var y := seq(ps.l, r requires 0 <= r < ps.l => MaskEntry(ps, hs, rho2, mu + r));
      assert forall r: nat | r < ps.l :: y[r] == MaskEntry(ps, hs, rho2, mu + r);
      Some(y)
  }

  function MaskEntry(ps: Params, hs: Hashes, rho2: Bytes, r: nat): (y: Poly)
    ensures |y| == N
  {
    Widths(ps);
    MaskLength(ps);
    BitUnpack(H(hs, rho2 + TwoBytes(r), 32 * ps.zBits), ps.gamma1 - 1, ps.gamma1)
  }

  lemma MaskLength(ps: Params)
    ensures 32 * ps.zBits * 8 / ps.zBits == N
  {
    DivModUnique(256 * ps.zBits, ps.zBits, 256, 0);
  }

  // ---------------------------------------------------------------- vectors in the transformed domain

  function Zero(): (r: Poly)
    ensures IsReduced(r)
  {
    seq(N, _ => 0)
  }

  /** Scalar product of a row with the first n entries of a vector, in the transformed domain. */
  function RowDot(row: seq<Poly>, vh: seq<Poly>, n: nat): (r: Poly)
    requires n <= |row| && n <= |vh|
    requires forall s :: 0 <= s < n ==> |row[s]| == N && |vh[s]| == N
    ensures IsReduced(r)
  {
    if n == 0 then Zero() else Padd(RowDot(row, vh, n - 1), Pmul(row[n - 1], vh[n - 1]))
  }

  function NttAll(v: seq<Poly>): (r: seq<Poly>)
    requires forall i :: 0 <= i < |v| ==> |v[i]| == N
    ensures AllReduced(r, |v|)
  {
    seq(|v|, i requires 0 <= i < |v| => NttReduced(v[i]); Ntt(v[i]))
  }

  function MatVec(ps: Params, A: seq<seq<Poly>>, vh: seq<Poly>): (r: seq<Poly>)
    requires IsMatrix(ps, A) && AllReduced(vh, ps.l)
    ensures AllReduced(r, ps.k)
  {
    seq(ps.k, i requires 0 <= i < ps.k => RowDot(A[i], vh, ps.l))
  }

  function InttAll(v: seq<Poly>): (r: seq<Poly>)
    requires forall i :: 0 <= i < |v| ==> |v[i]| == N
    ensures AllReduced(r, |v|)
  {
    seq(|v|, i requires 0 <= i < |v| => NttReduced(v[i]); Intt(v[i]))
  }

  function PaddAll(a: seq<Poly>, b: seq<Poly>): (r: seq<Poly>)
    requires |a| == |b| && forall i :: 0 <= i < |a| ==> |a[i]| == N && |b[i]| == N
    ensures AllReduced(r, |a|)
  {
    seq(|a|, i requires 0 <= i < |a| => Padd(a[i], b[i]))
  }

  /** The product of the challenge with each entry, back in the normal domain. */
  function Times(ch: Poly, vh: seq<Poly>): (r: seq<Poly>)
    requires |ch| == N && forall i :: 0 <= i < |vh| ==> |vh[i]| == N
    ensures AllReduced(r, |vh|)
  {
    seq(|vh|, i requires 0 <= i < |vh| => NttReduced(Pmul(ch, vh[i])); Intt(Pmul(ch, vh[i])))
  }

  // ---------------------------------------------------------------- keys

  /** t = A s1 + s2. */
  function TVector(ps: Params, A: seq<seq<Poly>>, s1: seq<Poly>, s2: seq<Poly>): (t: seq<Poly>)
    requires IsMatrix(ps, A) && AllReduced(s1, ps.l) && AllReduced(s2, ps.k)
    ensures AllReduced(t, ps.k)
  {
    PaddAll(InttAll(MatVec(ps, A, NttAll(s1))), s2)
  }

  function T1(t: Poly): (r: Poly)
    requires |t| == N
    ensures |r| == N && AreDigits(r, Pow2(10))
  {
    Pow2Doubles();
    seq(N, i requires 0 <= i < N => Power2RoundReconstructs(t[i]); Power2Round(t[i]).0)
  }

  function T0(t: Poly): (r: Poly)
    requires |t| == N
    ensures IsReduced(r) && InRange(Centre(r), 0xFFF, 0x1000)
  {
    seq(N, i requires 0 <= i < N => Power2RoundReconstructs(t[i]); Power2Round(t[i]).1 % Q)
  }

  function T1All(t: seq<Poly>): (r: seq<Poly>)
    requires forall i :: 0 <= i < |t| ==> |t[i]| == N
    ensures |r| == |t| && forall i :: 0 <= i < |r| ==> |r[i]| == N && AreDigits(r[i], Pow2(10))
  {
    seq(|t|, i requires 0 <= i < |t| => T1(t[i]))
  }

  function T0All(t: seq<Poly>): (r: seq<Poly>)
    requires forall i :: 0 <= i < |t| ==> |t[i]| == N
    ensures IsVector(r, |t|, 0xFFF, 0x1000)
  {
    seq(|t|, i requires 0 <= i < |t| => T0(t[i]))
  }

  /** The parts of a key pair: everything that the public and the secret encoding hold. */
  datatype Expanded = Expanded(A: seq<seq<Poly>>, t: seq<Poly>, secret: SecretKey, pk: Bytes)

  function Expand(ps: Params, hs: Hashes, xi: Bytes, lim: Limits): (r: Option<Expanded>)
  {
    var e := H(hs, xi + [ps.k, ps.l], 128);
    var rho, rho2, key := e[..32], e[32..96], e[96..];
    match ExpandA(ps, hs, rho, lim)
    case None => None
    case Some(A) =>
      match ExpandS(ps, hs, rho2, 0, ps.l, lim)
      case None => None
      case Some(s1) =>
        match ExpandS(ps, hs, rho2, ps.l, ps.k, lim)
        case None => None
        case Some(s2) =>
          var t := TVector(ps, A, s1, s2);
          var pk := PkEncode(ps, rho, T1All(t));
          Some(Expanded(A, t, SecretKey(rho, key, H(hs, pk, 64), s1, s2, T0All(t)), pk))
  }

  function KeyGen(ps: Params, hs: Hashes, xi: Bytes, lim: Limits): (r: Option<(Bytes, Bytes)>)
  {
    match Expand(ps, hs, xi, lim)
    case None => None
    case Some(x) => ExpandedSecret(ps, hs, xi, lim); Some((x.pk, SkEncode(ps, x.secret)))
  }

  lemma ExpandedSecret(ps: Params, hs: Hashes, xi: Bytes, lim: Limits)
    ensures Expand(ps, hs, xi, lim).Some? ==> IsSecretKey(ps, Expand(ps, hs, xi, lim).value.secret)
  {
    hide TVector, T0All, T1All, PkEncode;
  }

  /** Steps 3, 5, 6 and 8 of Algorithm 6 on the decoded secret key. */
  function PkFromSk(ps: Params, hs: Hashes, sk: Bytes, lim: Limits): (r: Option<Bytes>)
    requires |sk| == ps.skLen
  {
    var s := SkDecode(ps, sk);
    DecodedReduced(ps, sk);
    match ExpandA(ps, hs, s.rho, lim)
    case None => None
    case Some(A) => Some(PkEncode(ps, s.rho, T1All(TVector(ps, A, s.s1, s.s2))))
  }

  lemma DecodedReduced(ps: Params, sk: Bytes)
    requires |sk| == ps.skLen
    ensures var s := SkDecode(ps, sk);
            AllReduced(s.s1, ps.l) && AllReduced(s.s2, ps.k) && AllReduced(s.t0, ps.k)
  {
    hide SkDecodeRaw, Reduce;
    DecodedShape(ps, sk);
  }

  // ---------------------------------------------------------------- signing

  function HighAll(ps: Params, w: seq<Poly>): (r: seq<Poly>)
    requires forall i :: 0 <= i < |w| ==> |w[i]| == N
    ensures |r| == |w| && forall i :: 0 <= i < |r| ==> |r[i]| == N && AreDigits(r[i], Pow2(ps.w1Bits))
  {
    seq(|w|, i requires 0 <= i < |w| => HighPoly(ps, w[i]))
  }

  function HighPoly(ps: Params, p: Poly): (r: Poly)
    requires |p| == N
    ensures |r| == N && AreDigits(r, Pow2(ps.w1Bits))
  {
    hide Pow2, HighCoefficient;
    HighWidth(ps);
    seq(N, j requires 0 <= j < N => HighCoefficient(ps, p[j]))
  }

  lemma HighWidth(ps: Params)
    ensures ps.m <= Pow2(ps.w1Bits)
  {
    Pow2Doubles();
  }

  function HighCoefficient(ps: Params, r: int): (h: int)
    ensures 0 <= h < ps.m
  {
    DecomposeReconstructs(ps, r);
    HighBits(ps, r)
  }

  predicate NormBelow(v: seq<Poly>, bound: int) {
    forall i, j :: 0 <= i < |v| && 0 <= j < |v[i]| ==> CNorm(v[i][j]) < bound
  }

  predicate LowBitsBelow(ps: Params, w: seq<Poly>, cs2: seq<Poly>, bound: int)
    requires |w| == |cs2| && forall i :: 0 <= i < |w| ==> |w[i]| == N && |cs2[i]| == N
  {
    forall i, j :: 0 <= i < |w| && 0 <= j < N ==> -bound < LowBits(ps, (w[i][j] - cs2[i][j]) % Q) < bound
  }

  /** The hint bits of one row: whether adding c t0 back changes the high bits of w - c s2 + c t0. */
  function HintPoly(ps: Params, ct0: Poly, w: Poly, cs2: Poly): (h: Poly)
    requires |ct0| == |w| == |cs2| == N
    ensures IsBits(h)
  {
    seq(N, j requires 0 <= j < N => MakeHint(ps, -ct0[j] % Q, (w[j] - cs2[j] + ct0[j]) % Q))
  }

  function HintAll(ps: Params, ct0: seq<Poly>, w: seq<Poly>, cs2: seq<Poly>): (h: seq<Poly>)
    requires AllReduced(ct0, ps.k) && AllReduced(w, ps.k) && AllReduced(cs2, ps.k)
    ensures HasShape(ps, h)
  {
    seq(ps.k, i requires 0 <= i < ps.k => HintPoly(ps, ct0[i], w[i], cs2[i]))
  }

  function Sum(p: seq<int>): int {
    if p == [] then 0 else p[0] + Sum(p[1..])
  }

  function SumAll(h: seq<Poly>): int {
    if h == [] then 0 else Sum(h[0]) + SumAll(h[1..])
  }

  /** What signing works with: the matrix, the decoded secret key and the mask seed. */
  datatype Signer = Signer(A: seq<seq<Poly>>, s: SecretKey, rho2: Bytes)

  ghost predicate IsSigner(ps: Params, g: Signer) {
    IsMatrix(ps, g.A) && AllReduced(g.s.s1, ps.l) && AllReduced(g.s.s2, ps.k) && AllReduced(g.s.t0, ps.k)
  }

  datatype Attempt = Accepted(sig: Bytes) | Rejected | Failed

  /** The values of one iteration. */
  datatype Round = Round(y: seq<Poly>, w: seq<Poly>, ct: Bytes, c: Poly, cs1: seq<Poly>, cs2: seq<Poly>, ct0: seq<Poly>,
                         z: seq<Poly>, h: seq<Poly>)

  function RoundOf(ps: Params, hs: Hashes, g: Signer, mu: Bytes, kappa: nat, lim: Limits): (r: Option<Round>)
    requires IsSigner(ps, g)
    ensures r.Some? ==> AllReduced(r.value.z, ps.l) && HasShape(ps, r.value.h)
    ensures r.Some? ==> AllReduced(r.value.w, ps.k) && AllReduced(r.value.cs2, ps.k) && AllReduced(r.value.ct0, ps.k)
  {
    match ExpandMask(ps, hs, g.rho2, kappa)
    case None => None
    case Some(y) =>
      var w := InttAll(MatVec(ps, g.A, NttAll(y)));
      var ct := H(hs, mu + W1Encode(ps, HighAll(ps, w)), ps.lam / 4);
      match SampleInBall(ps, hs, ct, lim.ball)
      case None => None
      case Some(c) =>
        var ch := Ntt(c);
        var cs1, cs2, ct0 := Times(ch, NttAll(g.s.s1)), Times(ch, NttAll(g.s.s2)), Times(ch, NttAll(g.s.t0));
        Some(Round(y, w, ct, c, cs1, cs2, ct0, PaddAll(y, cs1), HintAll(ps, ct0, w, cs2)))
  }

  /** The four checks that an iteration has to pass. */
  predicate RoundOk(ps: Params, r: Round)
    requires AllReduced(r.z, ps.l) && AllReduced(r.w, ps.k) && AllReduced(r.cs2, ps.k)
  {
    && NormBelow(r.z, ps.gamma1 - ps.beta)
    && LowBitsBelow(ps, r.w, r.cs2, ps.gamma2 - ps.beta)
    && NormBelow(r.ct0, ps.gamma2)
    && SumAll(r.h) <= ps.omega
  }

  function SignAttempt(ps: Params, hs: Hashes, g: Signer, mu: Bytes, kappa: nat, lim: Limits): Attempt
    requires IsSigner(ps, g)
  {
    match RoundOf(ps, hs, g, mu, kappa, lim)
    case None => Failed
    case Some(r) =>
      if RoundOk(ps, r) then
        EncodableZ(ps, r.z);
        SumIsCount(ps, r.h);
        Accepted(SigEncode(ps, r.ct, r.z, r.h))
      else Rejected
  }

  lemma EncodableZ(ps: Params, z: seq<Poly>)
    requires AllReduced(z, ps.l) && NormBelow(z, ps.gamma1 - ps.beta)
    ensures IsVector(z, ps.l, ps.gamma1 - 1, ps.gamma1)
  {
    forall i | 0 <= i < ps.l
      ensures InRange(Centre(z[i]), ps.gamma1 - 1, ps.gamma1)
    {
      forall j | 0 <= j < N
        ensures -(ps.gamma1 - 1) <= Centre(z[i])[j] <= ps.gamma1
      {
        assert CNorm(z[i][j]) < ps.gamma1 - ps.beta;
      }
    }
  }

  lemma {:induction false} SumIsOnes(p: seq<int>, j: nat)
    requires j <= |p| && forall t :: 0 <= t < |p| ==> p[t] == 0 || p[t] == 1
    ensures Sum(p[..j]) == |Ones(p, j)|
  {
    if j > 0 {
      SumIsOnes(p, j - 1);
      SumSnoc(p[..j - 1], p[j - 1]);
      assert p[..j] == p[..j - 1] + [p[j - 1]];
    } else {
      assert p[..0] == [];
    }
  }

  lemma {:induction false} SumSnoc(p: seq<int>, x: int)
    ensures Sum(p + [x]) == Sum(p) + x
  {
    if p == [] {
      assert [] + [x] == [x];
    } else {
      SumSnoc(p[1..], x);
      assert (p + [x])[1..] == p[1..] + [x];
    }
  }

  lemma {:induction false} SumAllSnoc(h: seq<Poly>, p: Poly)
    ensures SumAll(h + [p]) == SumAll(h) + Sum(p)
  {
    if h == [] {
      assert [] + [p] == [p];
    } else {
      SumAllSnoc(h[1..], p);
      assert (h + [p])[1..] == h[1..] + [p];
    }
  }

  lemma {:induction false} SumAllIsFlat(ps: Params, h: seq<Poly>, i: nat)
    requires HasShape(ps, h) && i <= ps.k
    ensures SumAll(h[..i]) == |Flat(h, i)|
  {
    if i > 0 {
      SumAllIsFlat(ps, h, i - 1);
      SumIsOnes(h[i - 1], N);
      assert h[i - 1][..N] == h[i - 1] && h[..i] == h[..i - 1] + [h[i - 1]];
      SumAllSnoc(h[..i - 1], h[i - 1]);
    } else {
      assert h[..0] == [];
    }
  }

  lemma SumIsCount(ps: Params, h: seq<Poly>)
    requires HasShape(ps, h)
    ensures SumAll(h) <= ps.omega <==> IsHint(ps, h)
  {
    SumAllIsFlat(ps, h, ps.k);
    assert h[..ps.k] == h;
  }

  /** The signing loop from iteration it on: the iterations used and the signature, or none when a bound is passed. */
  function SignFrom(ps: Params, hs: Hashes, g: Signer, mu: Bytes, kappa: nat, it: nat, lim: Limits): Option<(nat,
      Bytes)>
    requires IsSigner(ps, g)
    decreases lim.sign - it
  {
    if it + 1 > lim.sign then None
    else
      match SignAttempt(ps, hs, g, mu, kappa, lim)
      case Failed => None
      case Accepted(sig) => Some((it + 1, sig))
      case Rejected => SignFrom(ps, hs, g, mu, kappa + ps.l, it + 1, lim)
  }

  function SignerOf(ps: Params, hs: Hashes, sk: Bytes, mu: Bytes, rnd: Bytes, lim: Limits): (g: Option<Signer>)
    requires |sk| == ps.skLen
    ensures g.Some? ==> IsSigner(ps, g.value)
  {
    var s := SkDecode(ps, sk);
    DecodedReduced(ps, sk);
    match ExpandA(ps, hs, s.rho, lim)
    case None => None
    case Some(A) => Some(Signer(A, s, H(hs, s.key + rnd + mu, 64)))
  }

  function Sign(ps: Params, hs: Hashes, sk: Bytes, mu: Bytes, rnd: Bytes, lim: Limits): Option<(nat, Bytes)>
    requires |sk| == ps.skLen
  {
    match SignerOf(ps, hs, sk, mu, rnd, lim)
    case None => None
    case Some(g) => SignFrom(ps, hs, g, mu, 0, 0, lim)
  }

  /** The signing loop, iteration by iteration. */
  method SignLoop(ps: Params, hs: Hashes, sk: Bytes, mu: Bytes, rnd: Bytes, lim: Limits) returns (r: Option<(nat,
      Bytes)>)
    requires |sk| == ps.skLen
    ensures r == Sign(ps, hs, sk, mu, rnd, lim)
  {
    hide SignerOf, SignAttempt;
    var g := SignerOf(ps, hs, sk, mu, rnd, lim);
    if g.None? {
      return None;
    }
    var kappa: nat, it: nat := 0, 0;
    while true
      invariant it <= lim.sign
      invariant SignFrom(ps, hs, g.value, mu, kappa, it, lim) == Sign(ps, hs, sk, mu, rnd, lim)
      decreases lim.sign - it
    {
      it := it + 1;
      if it > lim.sign {
        return None;
      }
      var a := SignAttempt(ps, hs, g.value, mu, kappa, lim);
      if a.Failed? {
        return None;
      } else if a.Accepted? {
        return Some((it, a.sig));
      }
      kappa := kappa + ps.l;
    }
  }

  // ---------------------------------------------------------------- verification

  function ShiftUp(t1: Poly): (r: Poly)
    requires |t1| == N
    ensures IsReduced(r)
  {
    seq(N, j requires 0 <= j < N => t1[j] * 0x2000 % Q)
  }

  /** One row of w': A z - c t1 2^13. */
  function VerifyRow(row: seq<Poly>, zh: seq<Poly>, n: nat, ch: Poly, t1: Poly): (r: Poly)
    requires AllReduced(row, n) && AllReduced(zh, n) && |ch| == N && |t1| == N
    ensures IsReduced(r)
  {
    var p := Psub(RowDot(row, zh, n), Pmul(ch, Ntt(ShiftUp(t1))));
    NttReduced(p);
    Intt(p)
  }

  function UseHintPoly(ps: Params, h: Poly, w: Poly): (r: Poly)
    requires |h| == |w| == N
    ensures |r| == N && AreDigits(r, Pow2(ps.w1Bits))
  {
    hide Pow2, HintedCoefficient;
    HighWidth(ps);
    seq(N, j requires 0 <= j < N => HintedCoefficient(ps, h[j], w[j]))
  }

  function HintedCoefficient(ps: Params, h: int, r: int): (x: int)
    ensures 0 <= x < ps.m
  {
    DecomposeReconstructs(ps, r);
    UseHint(ps, h, r)
  }

  function RecoverW1(ps: Params, A: seq<seq<Poly>>, z: seq<Poly>, h: seq<Poly>, ch: Poly,
      t1: seq<Poly>): (w1: seq<Poly>)
    requires IsMatrix(ps, A) && AllReduced(z, ps.l) && HasShape(ps, h) && |ch| == N
    requires |t1| == ps.k && forall i :: 0 <= i < ps.k ==> |t1[i]| == N
    ensures |w1| == ps.k && forall i :: 0 <= i < ps.k ==> |w1[i]| == N && AreDigits(w1[i], Pow2(ps.w1Bits))
  {
    var zh := NttAll(z);
    seq(ps.k, i requires 0 <= i < ps.k => UseHintPoly(ps, h[i], VerifyRow(A[i], zh, ps.l, ch, t1[i])))
  }

  /** None when a bound is passed. */
  function Verify(ps: Params, hs: Hashes, pk: Bytes, mu: Bytes, sig: Bytes, lim: Limits): Option<bool> {
    if |pk| != ps.pkLen then Some(false)
    else
      var (rho, t1) := PkDecode(ps, pk);
      match SigDecode(ps, sig)
      case None => Some(false)
      case Some(d) =>
        match ExpandA(ps, hs, rho, lim)
        case None => None
        case Some(A) =>
          match SampleInBall(ps, hs, d.ct, lim.ball)
          case None => None
          case Some(c) =>
            DecodedSignature(ps, pk, sig);
            var w1 := RecoverW1(ps, A, d.z, d.h, Ntt(c), t1);
            Some(NormBelow(d.z, ps.gamma1 - ps.beta) && d.ct == H(hs, mu + W1Encode(ps, w1), ps.lam / 4))
  }

  lemma DecodedSignature(ps: Params, pk: Bytes, sig: Bytes)
    requires |pk| == ps.pkLen && SigDecode(ps, sig).Some?
    ensures var d := SigDecode(ps, sig).value; AllReduced(d.z, ps.l) && HasShape(ps, d.h)
    ensures |PkDecode(ps, pk).1| == ps.k && forall i :: 0 <= i < ps.k ==> |PkDecode(ps, pk).1[i]| == N
  {
    hide BitUnpackAll, Unpacked, Unpack;
    SigLayout(ps);
    UnpackedLengths(ps, sig);
    UnpackedShape(ps, sig[ps.lam / 4 + ps.l * (32 * ps.zBits)..], SigDecode(ps, sig).value.h);
  }
}
