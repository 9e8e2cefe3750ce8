/**
 What ML-DSA verification accepts, and nothing else: encodings of a key and of a signature whose challenge is the hash
 of the message representative and of the hinted high bits of A z - c t1 2^13, computed in the ring.
 */
module MldsaVerify {
  import opened Wrappers
  import opened Modular
  import opened Digits
  import opened Streams
  import opened NttTheory
  import opened MldsaNtt
  import opened MldsaRounding
  import opened MldsaHints
  import opened MldsaCodec
  import opened MldsaSampling
  import opened Mldsa
  import opened MldsaCorrectness

  // ---------------------------------------------------------------- the ring value

  /** The scalar product in the ring of n entries of z with ring elements given by their transforms. */
  function RingDot(row: seq<Poly>, z: seq<Poly>, n: nat): (r: seq<int>)
    requires n <= |row| && n <= |z| && forall s :: 0 <= s < n ==> |row[s]| == |z[s]| == N
    ensures |r| == N
  {
    if n == 0 then Zero()
    else
      var before, term := RingDot(row, z, n - 1), NegMul(Intt(row[n - 1]), z[n - 1]);
      seq(N, j requires 0 <= j < N => before[j] + term[j])
  }

  /** One row of A z - c t1 2^13, modulo q. */
  function RingValue(row: seq<Poly>, z: seq<Poly>, n: nat, c: Poly, t1: Poly): (r: Poly)
    requires n <= |row| && n <= |z| && (forall s :: 0 <= s < n ==> |row[s]| == |z[s]| == N) && |c| == |t1| == N
    ensures IsReduced(r)
  {
    var d, e := RingDot(row, z, n), NegMul(c, t1);
    seq(N, j requires 0 <= j < N => (d[j] - e[j] * 0x2000) % Q)
  }

  lemma ZeroTransform()
    ensures Ntt(Zero()) == Zero()
  {
    hide Ntt;
    var x := Ntt(Zero());
    assert Padd(Zero(), Zero()) == Zero();
    NttAdditive(Zero(), Zero());
    NttReduced(Zero());
    forall j | 0 <= j < N
      ensures x[j] == 0
    {
      assert x[j] == (x[j] + x[j]) % Q;
      OnlyZero(x[j]);
    }
  }

  lemma OnlyZero(v: int)
    requires 0 <= v < Q && v == (v + v) % Q
    ensures v == 0
  {
  }

  /** Transforming a sum or difference that was not reduced. */
  lemma TransformOfSum(a: seq<int>, b: seq<int>, s: seq<int>)
    requires |a| == |b| == |s| == N && forall j :: 0 <= j < N ==> s[j] == a[j] + b[j]
    ensures Ntt(s) == Padd(Ntt(a), Ntt(b))
  {
    hide Ntt;
    NttAdditive(a, b);
    forall j | 0 <= j < N
      ensures Cong(Q, s[j], Padd(a, b)[j])
    {
      CongMod(Q, s[j]);
      CongSelf(Q, s[j]);
      CongJoin(Q, s[j], s[j] % Q, s[j]);
    }
    NttSame(s, Padd(a, b));
  }

  /** The scalar product of transforms is the transform of the scalar product. */
  lemma {:induction false} DotIsRingDot(row: seq<Poly>, z: seq<Poly>, n: nat)
    requires AllReduced(row, |row|) && n <= |row| && n <= |z| && forall s :: 0 <= s < |z| ==> |z[s]| == N
    ensures RowDot(row, NttAll(z), n) == Ntt(RingDot(row, z, n))
  {
    hide Ntt, Intt, NegMul, Padd, Pmul;
    if n == 0 {
      ZeroTransform();
    } else {
      DotIsRingDot(row, z, n - 1);
      var a, term := row[n - 1], NegMul(Intt(row[n - 1]), z[n - 1]);
      NttProduct(Intt(a), z[n - 1]);
      Inverses(a);
      TransformOfSum(RingDot(row, z, n - 1), term, RingDot(row, z, n));
    }
  }

  /** Multiplying by 2^13 and transforming. */
  lemma TransformOfShift(a: seq<int>, i: nat)
    requires |a| == N && i < N
    ensures Ntt(ShiftUp(a))[i] == 0x2000 * Ntt(a)[i] % Q
  {
    hide Eval, Pow, BitRev;
    var c := Pow(ZETA, 2 * BitRev(8, i) + 1);
    EvalScaled(a, ShiftUp(a), 0x2000, c);
    ScaledRemainder(Eval(ShiftUp(a), c), 0x2000, Eval(a, c));
  }

  lemma ScaledRemainder(x: int, k: int, y: int)
    requires Cong(Q, x, k * y)
    ensures x % Q == k * (y % Q) % Q
  {
    hide Cong;
    CongMod(Q, y);
    CongSelf(Q, k);
    CongMul(Q, k, k, y % Q, y);
    SameRemainder(Q, x, k * (y % Q), k * y);
  }

  lemma ShiftedProduct(c: int, t: int)
    ensures c * (0x2000 * t % Q) % Q == 0x2000 * (c * t % Q) % Q
  {
    hide Cong;
    CongMod(Q, 0x2000 * t);
    CongSelf(Q, c);
    CongMul(Q, c, c, 0x2000 * t % Q, 0x2000 * t);
    CongMod(Q, c * t);
    CongSelf(Q, 0x2000);
    CongMul(Q, 0x2000, 0x2000, c * t % Q, c * t);
    assert c * (0x2000 * t) == 0x2000 * (c * t);
    SameRemainder(Q, c * (0x2000 * t % Q), 0x2000 * (c * t % Q), c * (0x2000 * t));
  }

  /** The product of the challenge with t1 2^13, in the transformed domain. */
  lemma ProductWithKey(c: Poly, t1: Poly)
    requires |c| == |t1| == N
    ensures Pmul(Ntt(c), Ntt(ShiftUp(t1))) == Ntt(ShiftUp(NegMul(c, t1)))
  {
    hide Ntt, NegMul, ShiftUp;
    NttProduct(c, t1);
    forall i: nat | i < N
      ensures Pmul(Ntt(c), Ntt(ShiftUp(t1)))[i] == Ntt(ShiftUp(NegMul(c, t1)))[i]
    {
      TransformOfShift(t1, i);
      TransformOfShift(NegMul(c, t1), i);
      ShiftedProduct(Ntt(c)[i], Ntt(t1)[i]);
    }
  }

  lemma DifferenceAt(d: int, e: int)
    ensures (d - e * 0x2000 % Q) % Q == (d - e * 0x2000) % Q
  {
    hide Cong;
    CongMod(Q, e * 0x2000);
    CongSelf(Q, d);
    CongAdd(Q, d, d, e * 0x2000 % Q, e * 0x2000);
    SameRemainder(Q, d - e * 0x2000 % Q, d - e * 0x2000, d - e * 0x2000) by { CongSelf(Q, d - e * 0x2000); }
  }

  /** The row that verification computes through transforms is the row of the ring value. */
  lemma VerifyRowIsRing(row: seq<Poly>, z: seq<Poly>, n: nat, c: Poly, t1: Poly)
    requires AllReduced(row, n) && AllReduced(z, n) && |c| == |t1| == N
    ensures |Ntt(c)| == N && VerifyRow(row, NttAll(z), n, Ntt(c), t1) == RingValue(row, z, n, c, t1)
  {
    hide Ntt, Intt, NegMul, ShiftUp, RowDot, RingDot, Pmul, NttAll;
    NttReduced(c);
    var d, e := RingDot(row, z, n), NegMul(c, t1);
    DotIsRingDot(row, z, n);
    ProductWithKey(c, t1);
    NttAdditive(d, ShiftUp(e));
    var p := Psub(d, ShiftUp(e));
    Inverses(p);
    forall j | 0 <= j < N
      ensures p[j] == RingValue(row, z, n, c, t1)[j]
    {
      ShiftAt(e, j);
      DifferenceAt(d[j], e[j]);
    }
    assert p == RingValue(row, z, n, c, t1);
  }

  lemma ShiftAt(e: Poly, j: nat)
    requires |e| == N && j < N
    ensures ShiftUp(e)[j] == e[j] * 0x2000 % Q
  {
  }

  // ---------------------------------------------------------------- every decoding is of an encoding

  /** Equal parts joined are the whole. */
  lemma {:induction false} JoinParts(bs: Bytes, o: nat, len: nat, n: nat, end: nat, parts: seq<Bytes>)
    requires end == o + n * len <= |bs| && |parts| == n
    requires forall i: nat :: i < n ==> o + (i + 1) * len <= |bs| && parts[i] == Part(bs, o, len, i)
    ensures Join(parts) == bs[o..end]
    decreases n
  {
    hide Part;
    if n > 0 {
      SumOfParts(o, n, len);
      forall i: nat | i < n - 1
        ensures o + len + (i + 1) * len <= |bs| && parts[1..][i] == Part(bs, o + len, len, i)
      {
        assert o + (i + 1 + 1) * len <= |bs|;
        NextPart(bs, o, len, i);
        assert parts[1..][i] == parts[i + 1];
      }
      JoinParts(bs, o + len, len, n - 1, end, parts[1..]);
      assert o + (0 + 1) * len <= |bs|;
      FirstPart(bs, o, len);
      assert bs[o..end] == bs[o..o + len] + bs[o + len..end];
    } else {
      assert parts == [];
    }
  }

  lemma SumOfParts(o: nat, n: nat, len: nat)
    requires n > 0
    ensures o + n * len == o + len + (n - 1) * len && (n - 1) * len >= 0
  {
  }

  lemma NextPart(bs: Bytes, o: nat, len: nat, i: nat)
    requires o + (i + 1 + 1) * len <= |bs|
    ensures o + len + (i + 1) * len <= |bs|
    ensures Part(bs, o + len, len, i) == Part(bs, o, len, i + 1)
  {
    assert (i + 1 + 1) * len == len + (i + 1) * len && (i + 1) * len == len + i * len;
  }

  lemma FirstPart(bs: Bytes, o: nat, len: nat)
    requires o + len <= |bs|
    ensures o + (0 + 1) * len <= |bs| && Part(bs, o, len, 0) == bs[o..o + len]
  {
  }

  lemma PackOfUnpack(bs: Bytes, bits: nat)
    requires bits > 0 && |bs| == 32 * bits
    ensures |Unpack(bs, bits)| == N && Pack(Unpack(bs, bits), bits) == bs
  {
    hide Pack, Unpack;
    DivModUnique(256 * bits, bits, 256, 0);
    PackUnpack(bs, bits);
  }

  lemma PackAllUnpacked(bs: Bytes, o: nat, n: nat, bits: nat)
    requires bits > 0 && o + n * (32 * bits) <= |bs|
    ensures forall i: nat :: i < n ==> |UnpackAll(bs, o, n, bits)[i]| == N && AreDigits(UnpackAll(bs, o, n, bits)[i],
            Pow2(bits))
    ensures PackAll(UnpackAll(bs, o, n, bits), bits) == bs[o..o + n * (32 * bits)]
  {
    hide Pack, Unpack, Part, Join;
    var v, len := UnpackAll(bs, o, n, bits), 32 * bits;
    forall i: nat | i < n
      ensures o + (i + 1) * len <= |bs| && |v[i]| == N && Pack(v[i], bits) == Part(bs, o, len, i)
    {
      PartsFit(bs, o, len, i, n);
      PackOfUnpack(Part(bs, o, len, i), bits);
    }
    JoinParts(bs, o, len, n, o + n * len, seq(n, i requires 0 <= i < n => Pack(v[i], bits)));
  }

  /** A public key of the right length is the encoding of its seed and t1. */
  lemma PkIsEncoding(ps: Params, pk: Bytes)
    requires |pk| == ps.pkLen
    ensures var (rho, t1) := PkDecode(ps, pk);
            |rho| == 32 && |t1| == ps.k && (forall i :: 0 <= i < ps.k ==> |t1[i]| == N && AreDigits(t1[i], Pow2(10))) &&
            PkEncode(ps, rho, t1) == pk
  {
    hide PackAll, UnpackAll;
    PackAllUnpacked(pk, 32, ps.k, 10);
    assert pk == pk[..32] + pk[32..32 + ps.k * 320];
  }

  lemma FlipRange(d: seq<int>, a: nat, b: nat, bits: nat)
    requires |d| == N && AreDigits(d, Pow2(bits)) && Pow2(bits) == a + b + 1
    ensures InRange(Flip(d, b), a, b)
  {
    hide Pow2;
  }

  lemma BitPackOfUnpack(bs: Bytes, a: nat, b: nat, bits: nat)
    requires a + b > 0 && bits == BitLen(a + b) && bits > 0 && Pow2(bits) == a + b + 1 && |bs| == 32 * bits
    ensures InRange(BitUnpack(bs, a, b), a, b) && BitPack(BitUnpack(bs, a, b), a, b) == bs
  {
    hide Pack, Unpack, BitLen, Pow2, Flip;
    PackOfUnpack(bs, bits);
    FlipRange(Unpack(bs, bits), a, b, bits);
    FlipFlip(Unpack(bs, bits), b);
  }

  lemma BitPackAllUnpacked(bs: Bytes, o: nat, end: nat, n: nat, bits: nat, a: nat, b: nat, v: seq<seq<int>>)
    requires a + b > 0 && bits == BitLen(a + b) && bits > 0 && Pow2(bits) == a + b + 1
    requires end == o + n * (32 * bits) <= |bs| && v == BitUnpackAll(bs, o, n, bits, a, b)
    ensures (forall i :: 0 <= i < |v| ==> InRange(v[i], a, b)) && BitPackAll(v, a, b) == bs[o..end]
  {
    hide BitPack, BitUnpack, Part, BitLen, Pow2, Join, InRange;
    var len := 32 * bits;
    forall i: nat | i < n
      ensures o + (i + 1) * len <= |bs| && InRange(v[i], a, b) && BitPack(v[i], a, b) == Part(bs, o, len, i)
    {
      PartsFit(bs, o, len, i, n);
      BitPackOfUnpack(Part(bs, o, len, i), a, b, bits);
    }
    JoinParts(bs, o, len, n, o + n * len, seq(n, i requires 0 <= i < n => BitPack(v[i], a, b)));
  }

  lemma CentreReduce(p: seq<int>, a: int, b: int)
    requires InRange(p, a, b) && a <= Q / 2 && b <= Q / 2
    ensures IsReduced(Reduce(p)) && Centre(Reduce(p)) == p
  {
    forall i | 0 <= i < N
      ensures Centre(Reduce(p))[i] == p[i]
    {
      CentredRemainder(p[i]);
    }
  }

  lemma CentredRemainder(x: int)
    requires -(Q / 2) <= x <= Q / 2
    ensures (if x % Q > Q / 2 then x % Q - Q else x % Q) == x
  {
  }

  lemma CentreReduceAll(v: seq<seq<int>>, a: int, b: int)
    requires (forall i :: 0 <= i < |v| ==> InRange(v[i], a, b)) && a <= Q / 2 && b <= Q / 2
    ensures (forall i :: 0 <= i < |v| ==> |v[i]| == N) && IsVector(ReduceAll(v), |v|, a, b) &&
            CentreAll(ReduceAll(v)) == v
  {
    hide Reduce, Centre;
    forall i | 0 <= i < |v|
      ensures IsReduced(Reduce(v[i])) && Centre(Reduce(v[i])) == v[i]
    {
      CentreReduce(v[i], a, b);
    }
  }

  lemma ZWidth(ps: Params)
    ensures Pow2(ps.zBits) == 2 * ps.gamma1 && ps.zBits > 0 && ps.gamma1 <= Q / 2
  {
    Pow2Doubles();
  }

  ghost predicate IsSignature(ps: Params, d: Signature) {
    |d.ct| == ps.lam / 4 && IsVector(d.z, ps.l, ps.gamma1 - 1, ps.gamma1) && IsHint(ps, d.h)
  }

  /** A signature that decodes is the encoding of its parts. */
  lemma SigIsEncoding(ps: Params, sig: Bytes)
    requires SigDecode(ps, sig).Some?
    ensures var d := SigDecode(ps, sig).value; IsSignature(ps, d) && SigEncode(ps, d.ct, d.z, d.h) == sig
  {
    hide BitUnpackAll, BitPackAll, Packed, Unpacked, ReduceAll, CentreAll, BitLen, Pow2;
    Widths(ps);
    ZWidth(ps);
    SigLayout(ps);
    UnpackedLengths(ps, sig);
    var o, n := ps.lam / 4, ps.l * (32 * ps.zBits);
    var z := BitUnpackAll(sig, o, ps.l, ps.zBits, ps.gamma1 - 1, ps.gamma1);
    BitPackAllUnpacked(sig, o, o + n, ps.l, ps.zBits, ps.gamma1 - 1, ps.gamma1, z);
    CentreReduceAll(z, ps.gamma1 - 1, ps.gamma1);
    var h := SigDecode(ps, sig).value.h;
    PackUnpacked(ps, sig[o + n..], h);
    assert sig == sig[..o] + sig[o..o + n] + sig[o + n..];
  }

  // ---------------------------------------------------------------- what is accepted

  /** What a key, a signature and the expanded seeds say. */
  datatype Claim = Claim(rho: Bytes, t1: seq<Poly>, d: Signature, A: seq<seq<Poly>>, c: Poly)

  ghost predicate IsClaim(ps: Params, p: Claim) {
    && |p.rho| == 32 && |p.t1| == ps.k && (forall i :: 0 <= i < ps.k ==> |p.t1[i]| == N && AreDigits(p.t1[i], Pow2(10)))
    && IsSignature(ps, p.d) && IsMatrix(ps, p.A) && |p.c| == N
  }

  /** The high bits of one row of A z - c t1 2^13, corrected by the hints. */
  function ClaimedRow(ps: Params, p: Claim, i: nat): (r: Poly)
    requires IsClaim(ps, p) && i < ps.k
    ensures |r| == N && AreDigits(r, Pow2(ps.w1Bits))
  {
    hide Pow2, UseHintPoly, RingValue, AreDigits, Flat, InRange;
    UseHintPoly(ps, p.d.h[i], RingValue(p.A[i], p.d.z, ps.l, p.c, p.t1[i]))
  }

  function ClaimedW1(ps: Params, p: Claim): (w1: seq<Poly>)
    requires IsClaim(ps, p)
    ensures |w1| == ps.k && forall i :: 0 <= i < ps.k ==> |w1[i]| == N && AreDigits(w1[i], Pow2(ps.w1Bits))
  {
    hide ClaimedRow, Pow2, IsClaim, AreDigits;
    seq(ps.k, i requires 0 <= i < ps.k => ClaimedRow(ps, p, i))
  }

  /** The conditions of acceptance for the message representative mu. */
  ghost predicate Accepts(ps: Params, hs: Hashes, pk: Bytes, mu: Bytes, sig: Bytes, lim: Limits, p: Claim) {
    && IsClaim(ps, p) && pk == PkEncode(ps, p.rho, p.t1) && sig == SigEncode(ps, p.d.ct, p.d.z, p.d.h)
    && ExpandA(ps, hs, p.rho, lim) == Some(p.A) && SampleInBall(ps, hs, p.d.ct, lim.ball) == Some(p.c)
    && NormBelow(p.d.z, ps.gamma1 - ps.beta) && p.d.ct == H(hs, mu + W1Encode(ps, ClaimedW1(ps, p)), ps.lam / 4)
  }

  lemma W1IsClaimed(ps: Params, p: Claim)
    requires IsClaim(ps, p) && IsReduced(p.c)
    ensures |Ntt(p.c)| == N && RecoverW1(ps, p.A, p.d.z, p.d.h, Ntt(p.c), p.t1) == ClaimedW1(ps, p)
  {
    hide Ntt, VerifyRow, RingValue, UseHintPoly, NttAll, Pow2;
    NttReduced(p.c);
    forall i: nat | i < ps.k
      ensures VerifyRow(p.A[i], NttAll(p.d.z), ps.l, Ntt(p.c), p.t1[i]) == RingValue(p.A[i], p.d.z, ps.l, p.c, p.t1[i])
    {
      VerifyRowIsRing(p.A[i], p.d.z, ps.l, p.c, p.t1[i]);
    }
  }

  /** The parts that verification works with. */
  function ClaimOf(ps: Params, hs: Hashes, pk: Bytes, sig: Bytes, lim: Limits): Option<Claim>
    requires |pk| == ps.pkLen
  {
    var (rho, t1) := PkDecode(ps, pk);
    match SigDecode(ps, sig)
    case None => None
    case Some(d) =>
      match ExpandA(ps, hs, rho, lim)
      case None => None
      case Some(A) =>
        match SampleInBall(ps, hs, d.ct, lim.ball)
        case None => None
        case Some(c) => Some(Claim(rho, t1, d, A, c))
  }

  lemma ClaimIsClaim(ps: Params, hs: Hashes, pk: Bytes, sig: Bytes, lim: Limits)
    requires |pk| == ps.pkLen && ClaimOf(ps, hs, pk, sig, lim).Some?
    ensures var p := ClaimOf(ps, hs, pk, sig, lim).value;
            IsClaim(ps, p) && IsReduced(p.c) && pk == PkEncode(ps, p.rho, p.t1) &&
            sig == SigEncode(ps, p.d.ct, p.d.z, p.d.h)
  {
    hide PkDecode, PkEncode, SigDecode, SigEncode, Ball, IsSignature;
    PkIsEncoding(ps, pk);
    SigIsEncoding(ps, sig);
  }

  lemma VerifyOfClaim(ps: Params, hs: Hashes, pk: Bytes, mu: Bytes, sig: Bytes, lim: Limits)
    requires |pk| == ps.pkLen
    ensures var p := ClaimOf(ps, hs, pk, sig, lim);
            Verify(ps, hs, pk, mu, sig, lim) == Some(true) <==> p.Some? && Accepts(ps, hs, pk, mu, sig, lim, p.value)
  {
    hide PkDecode, PkEncode, SigDecode, SigEncode, ExpandA, SampleInBall, RecoverW1, ClaimedW1, W1Encode, NormBelow, H,
         IsClaim;
    if ClaimOf(ps, hs, pk, sig, lim).Some? {
      ClaimIsClaim(ps, hs, pk, sig, lim);
      W1IsClaimed(ps, ClaimOf(ps, hs, pk, sig, lim).value);
    }
  }

  /** The parts of an encoding are the only ones. */
  lemma ClaimUnique(ps: Params, hs: Hashes, pk: Bytes, mu: Bytes, sig: Bytes, lim: Limits, p: Claim)
    requires Accepts(ps, hs, pk, mu, sig, lim, p)
    ensures |pk| == ps.pkLen && ClaimOf(ps, hs, pk, sig, lim) == Some(p)
  {
    hide PkDecode, PkEncode, SigDecode, SigEncode, ExpandA, SampleInBall, ClaimedW1, W1Encode, NormBelow, H;
    PkRoundTrip(ps, p.rho, p.t1);
    SigRoundTrip(ps, p.d.ct, p.d.z, p.d.h);
  }

  /**
   Verification accepts exactly the encodings whose challenge is the hash of mu and of the hinted high bits of the ring
   value, with every coefficient of z below its bound.
   */
  lemma VerifyIff(ps: Params, hs: Hashes, pk: Bytes, mu: Bytes, sig: Bytes, lim: Limits)
    ensures Verify(ps, hs, pk, mu, sig, lim) == Some(true) <==> exists p :: Accepts(ps, hs, pk, mu, sig, lim, p)
  {
    hide Accepts, Verify, ClaimOf;
    if |pk| == ps.pkLen {
      VerifyOfClaim(ps, hs, pk, mu, sig, lim);
    }
    WrongLength(ps, hs, pk, mu, sig, lim);
    if p :| Accepts(ps, hs, pk, mu, sig, lim, p) {
      ClaimUnique(ps, hs, pk, mu, sig, lim, p);
    }
  }

  lemma WrongLength(ps: Params, hs: Hashes, pk: Bytes, mu: Bytes, sig: Bytes, lim: Limits)
    ensures |pk| != ps.pkLen ==> Verify(ps, hs, pk, mu, sig, lim) == Some(false)
  {
    hide PkDecode, SigDecode, ExpandA, SampleInBall, RecoverW1, W1Encode, NormBelow, H;
  }

  /** A signature accepted for two messages under one key is a collision of the hash, behind the same high bits. */
  lemma TwoMessagesCollide(ps: Params, hs: Hashes, pk: Bytes, mu: Bytes, mu': Bytes, sig: Bytes, lim: Limits)
    returns (w1: Bytes)
    requires Verify(ps, hs, pk, mu, sig, lim) == Some(true) && Verify(ps, hs, pk, mu', sig, lim) == Some(true)
    ensures H(hs, mu + w1, ps.lam / 4) == H(hs, mu' + w1, ps.lam / 4) == sig[..ps.lam / 4]
  {
    hide Verify, PkEncode, ExpandA, SampleInBall, ClaimedW1, W1Encode, NormBelow, H, IsVector, IsHint, Packed,
         BitPackAll,
         IsMatrix;
    VerifyIff(ps, hs, pk, mu, sig, lim);
    VerifyIff(ps, hs, pk, mu', sig, lim);
    var p :| Accepts(ps, hs, pk, mu, sig, lim, p);
    var p' :| Accepts(ps, hs, pk, mu', sig, lim, p');
    ClaimUnique(ps, hs, pk, mu, sig, lim, p);
    ClaimUnique(ps, hs, pk, mu', sig, lim, p');
    w1 := W1Encode(ps, ClaimedW1(ps, p));
    assert sig[..ps.lam / 4] == p.d.ct;
  }

  // ---------------------------------------------------------------- what signing hashes, and which masks it uses

  /** The encoding of the high bits determines them. */
  lemma W1EncodeInjective(ps: Params, w: seq<Poly>, w': seq<Poly>)
    requires |w| == |w'|
    requires forall i :: 0 <= i < |w| ==> |w[i]| == N && AreDigits(w[i], Pow2(ps.w1Bits))
    requires forall i :: 0 <= i < |w'| ==> |w'[i]| == N && AreDigits(w'[i], Pow2(ps.w1Bits))
    requires W1Encode(ps, w) == W1Encode(ps, w')
    ensures w == w'
  {
    hide Pack, Unpack, Pow2, PackAll, UnpackAll;
    UnpackAllPacked([], w, [], ps.w1Bits);
    UnpackAllPacked([], w', [], ps.w1Bits);
    var e := W1Encode(ps, w);
    assert [] + e + [] == e;
  }

  lemma {:induction false} FirstAcceptedFrom(ps: Params, hs: Hashes, g: Signer, mu: Bytes, it: nat, lim: Limits)
    requires IsSigner(ps, g) && SignFrom(ps, hs, g, mu, ps.l * it, it, lim).Some?
    ensures var (total, sig) := SignFrom(ps, hs, g, mu, ps.l * it, it, lim).value;
            total > it && SignAttempt(ps, hs, g, mu, ps.l * (total - 1), lim) == Accepted(sig) &&
            forall t: nat :: it <= t < total - 1 ==> SignAttempt(ps, hs, g, mu, ps.l * t, lim) == Rejected
    decreases lim.sign - it
  {
    hide SignAttempt, IsSigner;
    if SignAttempt(ps, hs, g, mu, ps.l * it, lim).Rejected? {
      assert ps.l * it + ps.l == ps.l * (it + 1);
      FirstAcceptedFrom(ps, hs, g, mu, it + 1, lim);
    }
  }

  /** The signature is that of the first iteration that is accepted; iteration t starts its masks at counter l t. */
  lemma SignIsFirstAccepted(ps: Params, hs: Hashes, sk: Bytes, mu: Bytes, rnd: Bytes, lim: Limits)
    requires |sk| == ps.skLen && Sign(ps, hs, sk, mu, rnd, lim).Some?
    ensures SignerOf(ps, hs, sk, mu, rnd, lim).Some?
    ensures var g := SignerOf(ps, hs, sk, mu, rnd, lim).value;
            var (total, sig) := Sign(ps, hs, sk, mu, rnd, lim).value;
            total > 0 && SignAttempt(ps, hs, g, mu, ps.l * (total - 1), lim) == Accepted(sig) &&
            forall t: nat :: t < total - 1 ==> SignAttempt(ps, hs, g, mu, ps.l * t, lim) == Rejected
  {
    hide SignerOf, SignAttempt, SignFrom;
    var g := SignerOf(ps, hs, sk, mu, rnd, lim).value;
    assert ps.l * 0 == 0;
    FirstAcceptedFrom(ps, hs, g, mu, 0, lim);
  }

  /** No two masks of one signature come from the same seed. */
  lemma MaskSeedsDistinct(ps: Params, rho2: Bytes, t: nat, r: nat, t': nat, r': nat)
    requires r < ps.l && r' < ps.l && ps.l * t + r < 0x10000 && ps.l * t' + r' < 0x10000 && (t, r) != (t', r')
    ensures rho2 + TwoBytes(ps.l * t + r) != rho2 + TwoBytes(ps.l * t' + r')
  {
    var x, y := ps.l * t + r, ps.l * t' + r';
    DifferentCounters(ps.l, t, r, t', r');
    TwoBytesDiffer(x, y);
    var i := if x % 256 != y % 256 then |rho2| else |rho2| + 1;
    assert (rho2 + TwoBytes(x))[i] != (rho2 + TwoBytes(y))[i];
  }

  lemma TwoBytesDiffer(x: nat, y: nat)
    requires x < 0x10000 && y < 0x10000 && x != y
    ensures TwoBytes(x)[0] != TwoBytes(y)[0] || TwoBytes(x)[1] != TwoBytes(y)[1]
  {
  }

  lemma DifferentCounters(l: nat, t: nat, r: nat, t': nat, r': nat)
    requires r < l && r' < l && (t, r) != (t', r')
    ensures l * t + r != l * t' + r'
  {
    if l * t + r == l * t' + r' {
      DivModUnique(l * t + r, l, t, r);
      DivModUnique(l * t' + r', l, t', r');
    }
  }
}
