/** Byte encodings of ML-DSA keys and signatures (FIPS 204 Algorithms 16 to 19 and 22 to 28). */
module MldsaCodec {
  import opened Wrappers
  import opened Modular
  import opened Digits
  import opened Streams
  import opened NttTheory
  import opened MldsaNtt
  import opened MldsaRounding
  import opened MldsaHints

  /** Coefficients in [-a, b]. */
  predicate InRange(w: seq<int>, a: int, b: int) {
    |w| == N && forall i :: 0 <= i < N ==> -a <= w[i] <= b
  }

  function Flip(w: seq<int>, b: int): (v: seq<int>)
    ensures |v| == |w|
  {
    seq(|w|, i requires 0 <= i < |w| => b - w[i])
  }

  /** Each coefficient is stored as b - w[i] in the bits that a + b takes. */
  function BitPack(w: seq<int>, a: nat, b: nat): (bs: Bytes)
    requires InRange(w, a, b)
    ensures |bs| == 32 * BitLen(a + b)
  {
    FlipInRange(w, a, b);
    Pack(Flip(w, b), BitLen(a + b))
  }

  function BitUnpack(bs: Bytes, a: nat, b: nat): (w: seq<int>)
    requires a + b > 0
    ensures |w| == |bs| * 8 / BitLen(a + b)
  {
    Flip(Unpack(bs, BitLen(a + b)), b)
  }

  lemma {:induction false} BelowBitLen(x: nat, y: nat)
    requires x <= y
    ensures x < Pow2(BitLen(y))
  {
    if y > 0 {
      BelowBitLen(x / 2, y / 2);
    }
  }

  lemma FlipInRange(w: seq<int>, a: nat, b: nat)
    requires InRange(w, a, b)
    ensures AreDigits(Flip(w, b), Pow2(BitLen(a + b)))
  {
    forall i | 0 <= i < N
      ensures 0 <= b - w[i] < Pow2(BitLen(a + b))
    {
      BelowBitLen(b - w[i], a + b);
    }
  }

  lemma FlipFlip(w: seq<int>, b: int)
    ensures Flip(Flip(w, b), b) == w
  {
  }

  /** bit_unpack undoes bit_pack on every polynomial with coefficients in [-a, b]. */
  lemma BitUnpackPack(w: seq<int>, a: nat, b: nat)
    requires InRange(w, a, b) && a + b > 0
    ensures BitUnpack(BitPack(w, a, b), a, b) == w
  {
    hide Flip, Pack, Unpack;
    var bits := BitLen(a + b);
    FlipInRange(w, a, b);
    assert |Flip(w, b)| * bits % 8 == 0 by {
      DivModUnique(256 * bits, 8, 32 * bits, 0);
    }
    UnpackPack(Flip(w, b), bits);
    FlipFlip(w, b);
  }

  // ---------------------------------------------------------------- field widths

  lemma Widths(ps: Params)
    ensures BitLen(2 * ps.eta) == ps.etaBits && BitLen(0x1FFF) == 13 && BitLen(2 * ps.gamma1 - 1) == ps.zBits
  {
    hide BitLen, Pow2;
    SmallWidths();
    Pow2Doubles();
    BitLenOnes(13);
    BitLenOnes(18);
    BitLenOnes(20);
  }

  lemma SmallWidths()
    ensures BitLen(4) == 3 && BitLen(8) == 4
  {
  }

  lemma Pow2Doubles()
    ensures Pow2(10) == 1024 && Pow2(13) == 0x2000 && Pow2(18) == 0x40000 && Pow2(20) == 0x100000
    ensures Pow2(4) == 16 && Pow2(6) == 64
  {
    Pow2Values();
    assert Pow2(10) == 1024;
    assert Pow2(12) == 4096;
    assert Pow2(14) == 16384;
    assert Pow2(16) == 65536;
    assert Pow2(18) == 262144;
  }

  // ---------------------------------------------------------------- vectors of polynomials

  /** Encoding f applied to each polynomial, joined. */
  function PackAll(v: seq<seq<int>>, bits: nat): (bs: Bytes)
    requires forall i :: 0 <= i < |v| ==> |v[i]| == N && AreDigits(v[i], Pow2(bits))
  {
    Join(seq(|v|, i requires 0 <= i < |v| => Pack(v[i], bits)))
  }

  function BitPackAll(v: seq<seq<int>>, a: nat, b: nat): (bs: Bytes)
    requires forall i :: 0 <= i < |v| ==> InRange(v[i], a, b)
  {
    Join(seq(|v|, i requires 0 <= i < |v| => BitPack(v[i], a, b)))
  }

  /** Part i of length len, counted from position o. */
  function Part(bs: Bytes, o: nat, len: nat, i: nat): (p: Bytes)
    requires o + (i + 1) * len <= |bs|
    ensures |p| == len
  {
    assert (i + 1) * len == i * len + len;
    bs[o + i * len..o + (i + 1) * len]
  }

  lemma PartsFit(bs: Bytes, o: nat, len: nat, i: nat, n: nat)
    requires i < n && o + n * len <= |bs|
    ensures o + (i + 1) * len <= |bs|
  {
    MulMono(i + 1, n, len);
  }

  function UnpackAll(bs: Bytes, o: nat, n: nat, bits: nat): (v: seq<seq<int>>)
    requires bits > 0 && o + n * (32 * bits) <= |bs|
    ensures |v| == n
  {
    seq(n, i requires 0 <= i < n => PartsFit(bs, o, 32 * bits, i, n); Unpack(Part(bs, o, 32 * bits, i), bits))
  }

  function BitUnpackAll(bs: Bytes, o: nat, n: nat, bits: nat, a: nat, b: nat): (v: seq<seq<int>>)
    requires a + b > 0 && o + n * (32 * bits) <= |bs|
    ensures |v| == n
  {
    seq(n, i requires 0 <= i < n => PartsFit(bs, o, 32 * bits, i, n); BitUnpack(Part(bs, o, 32 * bits, i), a, b))
  }

  lemma PackAllLength(v: seq<seq<int>>, bits: nat)
    requires forall i :: 0 <= i < |v| ==> |v[i]| == N && AreDigits(v[i], Pow2(bits))
    ensures |PackAll(v, bits)| == |v| * (32 * bits)
  {
    DivModUnique(256 * bits, 8, 32 * bits, 0);
    JoinLength(seq(|v|, i requires 0 <= i < |v| => Pack(v[i], bits)), 32 * bits);
  }

  lemma BitPackAllLength(v: seq<seq<int>>, a: nat, b: nat)
    requires forall i :: 0 <= i < |v| ==> InRange(v[i], a, b)
    ensures |BitPackAll(v, a, b)| == |v| * (32 * BitLen(a + b))
  {
    JoinLength(seq(|v|, i requires 0 <= i < |v| => BitPack(v[i], a, b)), 32 * BitLen(a + b));
  }

  lemma PartOfMiddle(pre: Bytes, mid: seq<Bytes>, post: Bytes, len: nat, i: nat)
    requires i < |mid| && forall j :: 0 <= j < |mid| ==> |mid[j]| == len
    ensures |pre| + (i + 1) * len <= |pre + Join(mid) + post|
    ensures Part(pre + Join(mid) + post, |pre|, len, i) == mid[i]
  {
    JoinSlice(mid, len, i);
    var all := pre + Join(mid) + post;
    assert all[|pre|..|pre| + |Join(mid)|] == Join(mid);
    assert all[|pre| + i * len..|pre| + (i + 1) * len] == Join(mid)[i * len..(i + 1) * len];
  }

  /** A packed vector inside a longer string is read back. */
  lemma UnpackAllPacked(pre: Bytes, v: seq<seq<int>>, post: Bytes, bits: nat)
    requires bits > 0 && forall i :: 0 <= i < |v| ==> |v[i]| == N && AreDigits(v[i], Pow2(bits))
    ensures |pre| + |v| * (32 * bits) <= |pre + PackAll(v, bits) + post|
    ensures UnpackAll(pre + PackAll(v, bits) + post, |pre|, |v|, bits) == v
  {
    hide Pack, Unpack, Part;
    PackAllLength(v, bits);
    DivModUnique(256 * bits, 8, 32 * bits, 0);
    DivModUnique(256 * bits, bits, 256, 0);
    var mid := seq(|v|, i requires 0 <= i < |v| => Pack(v[i], bits));
    forall i: nat | i < |v|
      ensures UnpackAll(pre + PackAll(v, bits) + post, |pre|, |v|, bits)[i] == v[i]
    {
      PartOfMiddle(pre, mid, post, 32 * bits, i);
      UnpackPack(v[i], bits);
    }
  }

  lemma BitUnpackAllPacked(pre: Bytes, v: seq<seq<int>>, post: Bytes, bits: nat, a: nat, b: nat)
    requires a + b > 0 && bits == BitLen(a + b) && forall i :: 0 <= i < |v| ==> InRange(v[i], a, b)
    ensures |pre| + |v| * (32 * bits) <= |pre + BitPackAll(v, a, b) + post|
    ensures BitUnpackAll(pre + BitPackAll(v, a, b) + post, |pre|, |v|, bits, a, b) == v
  {
    hide BitPack, BitUnpack, Part, BitLen;
    BitPackAllLength(v, a, b);
    var mid := seq(|v|, i requires 0 <= i < |v| => BitPack(v[i], a, b));
    forall i: nat | i < |v|
      ensures BitUnpackAll(pre + BitPackAll(v, a, b) + post, |pre|, |v|, bits, a, b)[i] == v[i]
    {
      PartOfMiddle(pre, mid, post, 32 * bits, i);
      BitUnpackPack(v[i], a, b);
    }
  }

  // ---------------------------------------------------------------- centring

  /** Coefficients above q/2 become negative. */
  function Centre(p: seq<int>): (r: seq<int>)
    ensures |r| == |p|
  {
    seq(|p|, i requires 0 <= i < |p| => if p[i] > Q / 2 then p[i] - Q else p[i])
  }

  function CentreAll(v: seq<seq<int>>): (r: seq<seq<int>>)
    ensures |r| == |v| && (forall i :: 0 <= i < |v| ==> |r[i]| == |v[i]|)
    ensures (forall i :: 0 <= i < |v| ==> IsReduced(v[i])) ==> forall i :: 0 <= i < |r| ==> |r[i]| == N
  {
    seq(|v|, i requires 0 <= i < |v| => Centre(v[i]))
  }

  function ReduceAll(v: seq<seq<int>>): (r: seq<seq<int>>)
    requires forall i :: 0 <= i < |v| ==> |v[i]| == N
    ensures |r| == |v|
  {
    seq(|v|, i requires 0 <= i < |v| => Reduce(v[i]))
  }

  /** n reduced polynomials whose centred coefficients are in [-a, b]. */
  ghost predicate IsVector(v: seq<seq<int>>, n: nat, a: int, b: int) {
    |v| == n && forall i :: 0 <= i < n ==> IsReduced(v[i]) && InRange(Centre(v[i]), a, b)
  }

  lemma ReduceCentre(p: seq<int>)
    requires IsReduced(p)
    ensures Reduce(Centre(p)) == p
  {
  }

  lemma ReduceCentreAll(v: seq<seq<int>>)
    requires forall i :: 0 <= i < |v| ==> IsReduced(v[i])
    ensures ReduceAll(CentreAll(v)) == v
  {
    hide Reduce, Centre;
    forall i | 0 <= i < |v|
      ensures ReduceAll(CentreAll(v))[i] == v[i]
    {
      ReduceCentre(v[i]);
    }
  }

  // ---------------------------------------------------------------- public key

  function PkEncode(ps: Params, rho: Bytes, t1: seq<seq<int>>): (pk: Bytes)
    requires forall i :: 0 <= i < |t1| ==> |t1[i]| == N && AreDigits(t1[i], Pow2(10))
  {
    rho + PackAll(t1, 10)
  }

  function PkDecode(ps: Params, pk: Bytes): (Bytes, seq<seq<int>>)
    requires |pk| == ps.pkLen
  {
    (pk[..32], UnpackAll(pk, 32, ps.k, 10))
  }

  /** Decoding an encoded public key gives the seed and t1 back. */
  lemma PkRoundTrip(ps: Params, rho: Bytes, t1: seq<seq<int>>)
    requires |rho| == 32 && |t1| == ps.k && forall i :: 0 <= i < |t1| ==> |t1[i]| == N && AreDigits(t1[i], Pow2(10))
    ensures |PkEncode(ps, rho, t1)| == ps.pkLen
    ensures PkDecode(ps, PkEncode(ps, rho, t1)) == (rho, t1)
  {
    PackAllLength(t1, 10);
    UnpackAllPacked(rho, t1, [], 10);
    assert rho + PackAll(t1, 10) + [] == PkEncode(ps, rho, t1);
  }

  // ---------------------------------------------------------------- secret key

  datatype SecretKey = SecretKey(rho: Bytes, key: Bytes, tr: Bytes, s1: seq<seq<int>>, s2: seq<seq<int>>,
      t0: seq<seq<int>>)

  ghost predicate IsSecretKey(ps: Params, s: SecretKey) {
    |s.rho| == 32 && |s.key| == 32 && |s.tr| == 64 &&
    IsVector(s.s1, ps.l, ps.eta, ps.eta) && IsVector(s.s2, ps.k, ps.eta, ps.eta) && IsVector(s.t0, ps.k, 0xFFF, 0x1000)
  }

  function SkEncode(ps: Params, s: SecretKey): Bytes
    requires IsSecretKey(ps, s)
  {
    s.rho + s.key + s.tr + BitPackAll(CentreAll(s.s1), ps.eta, ps.eta) + BitPackAll(CentreAll(s.s2), ps.eta, ps.eta)
    + BitPackAll(CentreAll(s.t0), 0xFFF, 0x1000)
  }

  /** FIPS 204 Algorithm 25 without a range check: coefficients are centred. */
  function SkDecodeRaw(ps: Params, sk: Bytes): SecretKey
    requires |sk| == ps.skLen
  {
    var ln := 32 * ps.etaBits;
    SkLayout(ps);
    SecretKey(sk[..32], sk[32..64], sk[64..128],
              BitUnpackAll(sk, 128, ps.l, ps.etaBits, ps.eta, ps.eta),
              BitUnpackAll(sk, 128 + ps.l * ln, ps.k, ps.etaBits, ps.eta, ps.eta),
              BitUnpackAll(sk, 128 + ps.l * ln + ps.k * ln, ps.k, 13, 0xFFF, 0x1000))
  }

  lemma SkLayout(ps: Params)
    ensures var ln := 32 * ps.etaBits;
            128 + ps.l * ln + ps.k * ln + ps.k * 416 == ps.skLen &&
            ps.l * ln >= 0 && ps.k * ln >= 0
  {
  }

  function SkDecode(ps: Params, sk: Bytes): SecretKey
    requires |sk| == ps.skLen
  {
    var s := SkDecodeRaw(ps, sk);
    DecodedShape(ps, sk);
    s.(s1 := ReduceAll(s.s1), s2 := ReduceAll(s.s2), t0 := ReduceAll(s.t0))
  }

  lemma DecodedShape(ps: Params, sk: Bytes)
    requires |sk| == ps.skLen
    ensures var s := SkDecodeRaw(ps, sk);
            |s.s1| == ps.l && |s.s2| == ps.k && |s.t0| == ps.k &&
            (forall i :: 0 <= i < ps.l ==> |s.s1[i]| == N) && (forall i :: 0 <= i < ps.k ==> |s.s2[i]| == N) &&
            (forall i :: 0 <= i < ps.k ==> |s.t0[i]| == N)
  {
    hide BitLen, Flip, Unpack, Part;
    Widths(ps);
    SkLayout(ps);
    DivModUnique(256 * ps.etaBits, ps.etaBits, 256, 0);
  }

  /** The length and range check on a loaded secret key. */
  predicate SkOk(ps: Params, sk: Bytes) {
    |sk| == ps.skLen &&
    var s := SkDecodeRaw(ps, sk);
    (forall i :: 0 <= i < ps.l ==> InRange(s.s1[i], ps.eta, ps.eta)) &&
    (forall i :: 0 <= i < ps.k ==> InRange(s.s2[i], ps.eta, ps.eta))
  }

  lemma CentredInRange(v: seq<seq<int>>, n: nat, a: int, b: int)
    requires IsVector(v, n, a, b)
    ensures |CentreAll(v)| == n && forall i :: 0 <= i < n ==> InRange(CentreAll(v)[i], a, b)
    ensures forall i :: 0 <= i < |v| ==> IsReduced(v[i])
  {
  }

  /** Three vectors packed one after the other behind a header are read back at their offsets. */
  lemma ThreeVectors(h: Bytes, b1: Bytes, v1: seq<seq<int>>, b2: Bytes, v2: seq<seq<int>>, b3: Bytes, v3: seq<seq<int>>,
      eb: nat, e: nat)
    requires e > 0 && eb == BitLen(2 * e) && BitLen(0x1FFF) == 13
    requires forall i :: 0 <= i < |v1| ==> InRange(v1[i], e, e)
    requires forall i :: 0 <= i < |v2| ==> InRange(v2[i], e, e)
    requires forall i :: 0 <= i < |v3| ==> InRange(v3[i], 0xFFF, 0x1000)
    requires b1 == BitPackAll(v1, e, e) && b2 == BitPackAll(v2, e, e) && b3 == BitPackAll(v3, 0xFFF, 0x1000)
    ensures var all, ln := h + b1 + b2 + b3, 32 * eb;
            |all| == |h| + |v1| * ln + |v2| * ln + |v3| * 416 && |v1| * ln >= 0 && |v2| * ln >= 0 &&
            BitUnpackAll(all, |h|, |v1|, eb, e, e) == v1 &&
            BitUnpackAll(all, |h| + |v1| * ln, |v2|, eb, e, e) == v2 &&
            BitUnpackAll(all, |h| + |v1| * ln + |v2| * ln, |v3|, 13, 0xFFF, 0x1000) == v3
  {
    hide BitLen, BitUnpackAll, BitPackAll;
    BitPackAllLength(v1, e, e);
    BitPackAllLength(v2, e, e);
    BitPackAllLength(v3, 0xFFF, 0x1000);
    BitUnpackAllPacked(h, v1, b2 + b3, eb, e, e);
    BitUnpackAllPacked(h + b1, v2, b3, eb, e, e);
    BitUnpackAllPacked(h + b1 + b2, v3, [], 13, 0xFFF, 0x1000);
    var all := h + b1 + b2 + b3;
    assert all == h + b1 + (b2 + b3) && all == h + b1 + b2 + b3 + [];
  }

  /** Decoding an encoded secret key gives every part back, and the encoding passes the range check. */
  lemma SkRoundTrip(ps: Params, s: SecretKey)
    requires IsSecretKey(ps, s)
    ensures |SkEncode(ps, s)| == ps.skLen && SkDecode(ps, SkEncode(ps, s)) == s && SkOk(ps, SkEncode(ps, s))
  {
    hide BitLen, BitUnpackAll, BitPackAll, CentreAll, ReduceAll;
    Widths(ps);
    CentredInRange(s.s1, ps.l, ps.eta, ps.eta);
    ReduceCentreAll(s.s1);
    CentredInRange(s.s2, ps.k, ps.eta, ps.eta);
    ReduceCentreAll(s.s2);
    CentredInRange(s.t0, ps.k, 0xFFF, 0x1000);
    ReduceCentreAll(s.t0);
    var v1, v2, v3 := CentreAll(s.s1), CentreAll(s.s2), CentreAll(s.t0);
    var h := s.rho + s.key + s.tr;
    ThreeVectors(h, BitPackAll(v1, ps.eta, ps.eta), v1, BitPackAll(v2, ps.eta, ps.eta), v2,
                 BitPackAll(v3, 0xFFF, 0x1000), v3, ps.etaBits, ps.eta);
    SkLayout(ps);
    assert SkEncode(ps, s)[..128] == h;
    assert h[..32] == s.rho && h[32..64] == s.key && h[64..128] == s.tr;
    var sk := SkEncode(ps, s);
    assert sk[..32] == sk[..128][..32] && sk[32..64] == sk[..128][32..64] && sk[64..128] == sk[..128][64..128];
  }

  // ---------------------------------------------------------------- signature

  function W1Encode(ps: Params, w1: seq<seq<int>>): Bytes
    requires forall i :: 0 <= i < |w1| ==> |w1[i]| == N && AreDigits(w1[i], Pow2(ps.w1Bits))
  {
    PackAll(w1, ps.w1Bits)
  }

  lemma PackedBytes(ps: Params, h: seq<seq<int>>)
    requires IsHint(ps, h)
    ensures AreDigits(Packed(ps, h), 256)
  {
    forall i | 0 <= i < ps.k
      ensures 0 <= End(h, i) <= ps.omega
    {
      FlatMonotone(h, i + 1, ps.k);
    }
    FlatBytes(h, ps.k);
  }

  lemma {:induction false} FlatBytes(h: seq<seq<int>>, i: nat)
    requires i <= |h| && forall t :: 0 <= t < |h| ==> |h[t]| == N
    ensures AreDigits(Flat(h, i), 256)
  {
    if i > 0 {
      FlatBytes(h, i - 1);
      OnesProperties(h[i - 1], N);
      var o := Ones(h[i - 1], N);
      assert forall t :: 0 <= t < |o| ==> o[t] in o;
    }
  }

  function SigEncode(ps: Params, ct: Bytes, z: seq<seq<int>>, h: seq<seq<int>>): Bytes
    requires IsVector(z, ps.l, ps.gamma1 - 1, ps.gamma1) && IsHint(ps, h)
  {
    PackedBytes(ps, h);
    ct + BitPackAll(CentreAll(z), ps.gamma1 - 1, ps.gamma1) + Packed(ps, h)
  }

  datatype Signature = Signature(ct: Bytes, z: seq<seq<int>>, h: seq<seq<int>>)

  function SigDecode(ps: Params, sig: Bytes): Option<Signature> {
    if |sig| != ps.sigLen then None
    else
      var lam4, zl := ps.lam / 4, 32 * ps.zBits;
      SigLayout(ps);
      var z := BitUnpackAll(sig, lam4, ps.l, ps.zBits, ps.gamma1 - 1, ps.gamma1);
      UnpackedLengths(ps, sig);
      match Unpacked(ps, sig[lam4 + ps.l * zl..])
      case None => None
      case Some(h) => Some(Signature(sig[..lam4], ReduceAll(z), h))
  }

  lemma SigLayout(ps: Params)
    ensures ps.l * (32 * ps.zBits) >= 0 && ps.lam / 4 + ps.l * (32 * ps.zBits) + ps.omega + ps.k == ps.sigLen
  {
  }

  lemma UnpackedLengths(ps: Params, sig: Bytes)
    requires |sig| == ps.sigLen
    ensures ps.lam / 4 + ps.l * (32 * ps.zBits) <= |sig|
    ensures var z := BitUnpackAll(sig, ps.lam / 4, ps.l, ps.zBits, ps.gamma1 - 1, ps.gamma1);
            forall i :: 0 <= i < ps.l ==> |z[i]| == N
  {
    hide BitLen;
    Widths(ps);
    SigLayout(ps);
  }

  /** Decoding an encoded signature gives the challenge, z and the hints back. */
  lemma SigRoundTrip(ps: Params, ct: Bytes, z: seq<seq<int>>, h: seq<seq<int>>)
    requires |ct| == ps.lam / 4 && IsVector(z, ps.l, ps.gamma1 - 1, ps.gamma1) && IsHint(ps, h)
    ensures |SigEncode(ps, ct, z, h)| == ps.sigLen
    ensures SigDecode(ps, SigEncode(ps, ct, z, h)) == Some(Signature(ct, z, h))
  {
    hide BitLen, BitUnpackAll, BitPackAll, CentreAll, ReduceAll, Packed, Unpacked;
    Widths(ps);
    SigLayout(ps);
    PackedBytes(ps, h);
    CentredInRange(z, ps.l, ps.gamma1 - 1, ps.gamma1);
    ReduceCentreAll(z);
    var v, y := CentreAll(z), Packed(ps, h);
    BitPackAllLength(v, ps.gamma1 - 1, ps.gamma1);
    BitUnpackAllPacked(ct, v, y, ps.zBits, ps.gamma1 - 1, ps.gamma1);
    UnpackPacked(ps, h);
    var sig := SigEncode(ps, ct, z, h);
    UnpackedLengths(ps, sig);
    assert sig[..|ct|] == ct && sig[ps.lam / 4 + ps.l * (32 * ps.zBits)..] == y;
  }
}
