/**
 Correctness of ML-DSA: every signature that the signing loop returns for a generated key pair is accepted by
 verification.  The algebra happens in the transformed domain, the rounding argument coefficient by coefficient.
 */
module MldsaCorrectness {
  import opened Wrappers
  import opened Modular
  import opened Digits
  import opened Streams
  import opened NttTheory
  import opened MldsaNtt
  import opened MldsaRounding
  import opened MldsaHints
  import opened MldsaCodec
  import opened MldsaSampling
  import opened Mldsa

  // ---------------------------------------------------------------- identities modulo q on one coefficient

  lemma ScaledSum(r: int, a: int, c: int, b: int)
    ensures r * ((a + c * b % Q) % Q) % Q == (r * a % Q + c * (r * b % Q) % Q) % Q
  {
    hide Cong;
    CongMod(Q, c * b);
    CongAdd(Q, a, a, c * b % Q, c * b) by { CongSelf(Q, a); }
    CongMod(Q, a + c * b % Q);
    CongTrans(Q, (a + c * b % Q) % Q, a + c * b % Q, a + c * b);
    CongScale(Q, r, (a + c * b % Q) % Q, a + c * b);
    CongMod(Q, r * a);
    CongMod(Q, r * b);
    CongScale(Q, c, r * b % Q, r * b);
    CongMod(Q, c * (r * b % Q));
    CongTrans(Q, c * (r * b % Q) % Q, c * (r * b % Q), c * (r * b));
    CongAdd(Q, r * a % Q, r * a, c * (r * b % Q) % Q, c * (r * b));
    DistributeOnce(r, a, c, b);
    SameRemainder(Q, r * ((a + c * b % Q) % Q), r * a % Q + c * (r * b % Q) % Q, r * (a + c * b));
  }

  lemma DistributeOnce(r: int, a: int, c: int, b: int)
    ensures r * (a + c * b) == r * a + c * (r * b)
  {
  }

  /** The remainder of a sum, of one factor of it and of a product can be taken at any time. */
  lemma DropMod(c: int, x: int, y: int)
    ensures Cong(Q, (x + y) % Q, x + y) && Cong(Q, (x - y) % Q, x - y) && Cong(Q, c * y % Q, c * y)
  {
    CongMod(Q, x + y);
    CongMod(Q, x - y);
    CongMod(Q, c * y);
  }

  lemma GatherSums(x: int, c: int, y: int, p: int, r: int)
    ensures ((x + c * y % Q) % Q + (p + c * r % Q) % Q) % Q == ((x + p) % Q + c * ((y + r) % Q) % Q) % Q
  {
    hide Cong;
    ReducedSum(x, c, y);
    ReducedSum(p, c, r);
    CongAdd(Q, (x + c * y % Q) % Q, x + c * y, (p + c * r % Q) % Q, p + c * r);
    DropMod(c, x, p);
    DropMod(c, y, r);
    CongScale(Q, c, (y + r) % Q, y + r);
    CongMod(Q, c * ((y + r) % Q));
    CongTrans(Q, c * ((y + r) % Q) % Q, c * ((y + r) % Q), c * (y + r));
    CongAdd(Q, (x + p) % Q, x + p, c * ((y + r) % Q) % Q, c * (y + r));
    assert x + c * y + (p + c * r) == x + p + c * (y + r);
    SameRemainder(Q, (x + c * y % Q) % Q + (p + c * r % Q) % Q, (x + p) % Q + c * ((y + r) % Q) % Q,
        x + p + c * (y + r));
  }

  lemma ReducedSum(x: int, c: int, y: int)
    ensures Cong(Q, (x + c * y % Q) % Q, x + c * y) && Cong(Q, (x - c * y % Q) % Q, x - c * y)
  {
    hide Cong;
    CongSelf(Q, x);
    CongMod(Q, c * y);
    CongAdd(Q, x, x, c * y % Q, c * y);
    CongMod(Q, x + c * y % Q);
    CongMod(Q, x - c * y % Q);
    CongTrans(Q, (x + c * y % Q) % Q, x + c * y % Q, x + c * y);
    CongTrans(Q, (x - c * y % Q) % Q, x - c * y % Q, x - c * y);
  }

  /** A z - c t1 2^13 = (w - c s2) + c t0, for one coefficient of the transforms: t1 2^13 is (d + s) - t. */
  lemma CancelKey(w: int, c: int, d: int, s: int, t: int)
    ensures ((w + c * d % Q) % Q - c * (((d + s) % Q - t) % Q) % Q) % Q == ((w - c * s % Q) % Q + c * t % Q) % Q
  {
    hide Cong;
    ReducedSum(w, c, d);
    ReducedSum(w, c, s);
    CongMod(Q, d + s);
    CongSelf(Q, t);
    CongAdd(Q, (d + s) % Q, d + s, t, t);
    CongMod(Q, (d + s) % Q - t);
    var u := ((d + s) % Q - t) % Q;
    CongTrans(Q, u, (d + s) % Q - t, d + s - t);
    CongScale(Q, c, u, d + s - t);
    CongMod(Q, c * u);
    CongTrans(Q, c * u % Q, c * u, c * (d + s - t));
    CongAdd(Q, (w + c * d % Q) % Q, w + c * d, c * u % Q, c * (d + s - t));
    CongMod(Q, c * t);
    CongAdd(Q, (w - c * s % Q) % Q, w - c * s, c * t % Q, c * t);
    assert w + c * d - c * (d + s - t) == w - c * s + c * t;
    SameRemainder(Q, (w + c * d % Q) % Q - c * u % Q, (w - c * s % Q) % Q + c * t % Q, w - c * s + c * t);
  }

  // ---------------------------------------------------------------- the same on polynomials

  /** Coefficient j of a sum, a difference and a product. */
  lemma AddAt(a: Poly, b: Poly, j: nat)
    requires |a| == |b| == N && j < N
    ensures Padd(a, b)[j] == (a[j] + b[j]) % Q
  {
  }

  lemma SubAt(a: Poly, b: Poly, j: nat)
    requires |a| == |b| == N && j < N
    ensures Psub(a, b)[j] == (a[j] - b[j]) % Q
  {
  }

  lemma MulAt(a: Poly, b: Poly, j: nat)
    requires |a| == |b| == N && j < N
    ensures Pmul(a, b)[j] == a[j] * b[j] % Q
  {
  }

  lemma ScaledSumAt(r: Poly, a: Poly, c: Poly, b: Poly, j: nat)
    requires |r| == |a| == |c| == |b| == N && j < N
    ensures Pmul(r, Padd(a, Pmul(c, b)))[j] == Padd(Pmul(r, a), Pmul(c, Pmul(r, b)))[j]
  {
    hide Padd, Pmul;
    MulAt(c, b, j);
    AddAt(a, Pmul(c, b), j);
    MulAt(r, Padd(a, Pmul(c, b)), j);
    MulAt(r, a, j);
    MulAt(r, b, j);
    MulAt(c, Pmul(r, b), j);
    AddAt(Pmul(r, a), Pmul(c, Pmul(r, b)), j);
    ScaledSum(r[j], a[j], c[j], b[j]);
  }

  lemma ScaledSumPoly(r: Poly, a: Poly, c: Poly, b: Poly)
    requires |r| == |a| == |c| == |b| == N
    ensures Pmul(r, Padd(a, Pmul(c, b))) == Padd(Pmul(r, a), Pmul(c, Pmul(r, b)))
  {
    hide Padd, Pmul;
    forall j: nat | j < N
      ensures Pmul(r, Padd(a, Pmul(c, b)))[j] == Padd(Pmul(r, a), Pmul(c, Pmul(r, b)))[j]
    {
      ScaledSumAt(r, a, c, b, j);
    }
  }

  lemma GatherSumsAt(x: Poly, c: Poly, y: Poly, p: Poly, r: Poly, j: nat)
    requires |x| == |c| == |y| == |p| == |r| == N && j < N
    ensures Padd(Padd(x, Pmul(c, y)), Padd(p, Pmul(c, r)))[j] == Padd(Padd(x, p), Pmul(c, Padd(y, r)))[j]
  {
    hide Padd, Pmul;
    MulAt(c, y, j);
    MulAt(c, r, j);
    AddAt(x, Pmul(c, y), j);
    AddAt(p, Pmul(c, r), j);
    AddAt(Padd(x, Pmul(c, y)), Padd(p, Pmul(c, r)), j);
    AddAt(x, p, j);
    AddAt(y, r, j);
    MulAt(c, Padd(y, r), j);
    AddAt(Padd(x, p), Pmul(c, Padd(y, r)), j);
    GatherSums(x[j], c[j], y[j], p[j], r[j]);
  }

  lemma GatherSumsPoly(x: Poly, c: Poly, y: Poly, p: Poly, r: Poly)
    requires |x| == |c| == |y| == |p| == |r| == N
    ensures Padd(Padd(x, Pmul(c, y)), Padd(p, Pmul(c, r))) == Padd(Padd(x, p), Pmul(c, Padd(y, r)))
  {
    hide Padd, Pmul;
    forall j: nat | j < N
      ensures Padd(Padd(x, Pmul(c, y)), Padd(p, Pmul(c, r)))[j] == Padd(Padd(x, p), Pmul(c, Padd(y, r)))[j]
    {
      GatherSumsAt(x, c, y, p, r, j);
    }
  }

  lemma CancelKeyAt(w: Poly, c: Poly, d: Poly, s: Poly, t: Poly, j: nat)
    requires |w| == |c| == |d| == |s| == |t| == N && j < N
    ensures Psub(Padd(w, Pmul(c, d)), Pmul(c, Psub(Padd(d, s), t)))[j] == Padd(Psub(w, Pmul(c, s)), Pmul(c, t))[j]
  {
    hide Padd, Psub, Pmul;
    MulAt(c, d, j);
    AddAt(w, Pmul(c, d), j);
    AddAt(d, s, j);
    SubAt(Padd(d, s), t, j);
    MulAt(c, Psub(Padd(d, s), t), j);
    SubAt(Padd(w, Pmul(c, d)), Pmul(c, Psub(Padd(d, s), t)), j);
    MulAt(c, s, j);
    SubAt(w, Pmul(c, s), j);
    MulAt(c, t, j);
    AddAt(Psub(w, Pmul(c, s)), Pmul(c, t), j);
    CancelKey(w[j], c[j], d[j], s[j], t[j]);
  }

  lemma CancelKeyPoly(w: Poly, c: Poly, d: Poly, s: Poly, t: Poly)
    requires |w| == |c| == |d| == |s| == |t| == N
    ensures Psub(Padd(w, Pmul(c, d)), Pmul(c, Psub(Padd(d, s), t))) == Padd(Psub(w, Pmul(c, s)), Pmul(c, t))
  {
    hide Padd, Psub, Pmul;
    forall j: nat | j < N
      ensures Psub(Padd(w, Pmul(c, d)), Pmul(c, Psub(Padd(d, s), t)))[j] == Padd(Psub(w, Pmul(c, s)), Pmul(c, t))[j]
    {
      CancelKeyAt(w, c, d, s, t, j);
    }
  }

  /** If every entry of zh is yh + c sh, the scalar product with zh is that with yh plus c times that with sh. */
  lemma {:induction false} RowDotLinear(row: seq<Poly>, zh: seq<Poly>, yh: seq<Poly>, sh: seq<Poly>, c: Poly, n: nat)
    requires AllReduced(row, |row|) && n <= |row| && n <= |zh| && n <= |yh| && n <= |sh| && |c| == N
    requires forall s :: 0 <= s < n ==>
               |row[s]| == |zh[s]| == |yh[s]| == |sh[s]| == N && zh[s] == Padd(yh[s], Pmul(c, sh[s]))
    ensures RowDot(row, zh, n) == Padd(RowDot(row, yh, n), Pmul(c, RowDot(row, sh, n)))
  {
    hide Padd, Pmul;
    if n == 0 {
      ZeroSum(c);
    } else {
      RowDotLinear(row, zh, yh, sh, c, n - 1);
      ScaledSumPoly(row[n - 1], yh[n - 1], c, sh[n - 1]);
      GatherSumsPoly(RowDot(row, yh, n - 1), c, RowDot(row, sh, n - 1), Pmul(row[n - 1], yh[n - 1]), Pmul(row[n - 1],
          sh[n - 1]));
    }
  }

  lemma ZeroSum(c: Poly)
    requires |c| == N
    ensures Padd(Zero(), Pmul(c, Zero())) == Zero()
  {
  }

  // ---------------------------------------------------------------- the row that verification recomputes

  /** t1 2^13 is t - t0. */
  lemma ShiftedT1(t: Poly)
    requires IsReduced(t)
    ensures ShiftUp(T1(t)) == Psub(t, T0(t))
  {
    forall j | 0 <= j < N
      ensures ShiftUp(T1(t))[j] == Psub(t, T0(t))[j]
    {
      ShiftedCoefficient(t[j]);
    }
  }

  lemma ShiftedCoefficient(x: int)
    requires 0 <= x < Q
    ensures Power2Round(x).0 * 0x2000 % Q == (x - Power2Round(x).1 % Q) % Q
  {
    hide Power2Round;
    Power2RoundReconstructs(x);
    var (r1, r0) := Power2Round(x);
    CongMod(Q, r0);
    CongSelf(Q, x);
    CongAdd(Q, x, x, r0 % Q, r0);
  }

  /** What verification computes for a row is w - c s2 + c t0. */
  lemma VerifyRowValue(row: seq<Poly>, l: nat, y: seq<Poly>, s1: seq<Poly>, s2: Poly, ch: Poly, t: Poly, cs1: seq<Poly>)
    requires AllReduced(row, l) && |y| == l && (forall s :: 0 <= s < l ==> |y[s]| == N) && AllReduced(s1, l)
    requires IsReduced(s2) && IsReduced(ch) && cs1 == Times(ch, NttAll(s1))
    requires t == Padd(Intt(RowDot(row, NttAll(s1), l)), s2)
    ensures AllReduced(PaddAll(y, cs1), l)
    ensures VerifyRow(row, NttAll(PaddAll(y, cs1)), l, ch, T1(t)) ==
            Padd(Psub(Intt(RowDot(row, NttAll(y), l)), Intt(Pmul(ch, Ntt(s2)))), Intt(Pmul(ch, Ntt(T0(t)))))
  {
    hide Padd, Psub, Pmul, Ntt, Intt, T1, T0, RowDot;
    var yh, sh, zh := NttAll(y), NttAll(s1), NttAll(PaddAll(y, cs1));
    forall s | 0 <= s < l
      ensures zh[s] == Padd(yh[s], Pmul(ch, sh[s]))
    {
      NttAdditive(y[s], cs1[s]);
      Inverses(Pmul(ch, sh[s]));
    }
    RowDotLinear(row, zh, yh, sh, ch, l);
    var W, d := RowDot(row, yh, l), RowDot(row, sh, l);
    TransformOfT1(d, s2, t);
    NttReduced(s2);
    NttReduced(T0(t));
    CancelKeyPoly(W, ch, d, Ntt(s2), Ntt(T0(t)));
    InttAdditive(Psub(W, Pmul(ch, Ntt(s2))), Pmul(ch, Ntt(T0(t))));
    InttAdditive(W, Pmul(ch, Ntt(s2)));
  }

  lemma TransformOfT1(d: Poly, s2: Poly, t: Poly)
    requires IsReduced(d) && IsReduced(s2) && |Intt(d)| == N && t == Padd(Intt(d), s2)
    ensures Ntt(ShiftUp(T1(t))) == Psub(Padd(d, Ntt(s2)), Ntt(T0(t)))
  {
    hide Padd, Psub, Pmul, Ntt, Intt, T1, T0, ShiftUp;
    ShiftedT1(t);
    NttAdditive(t, T0(t));
    NttAdditive(Intt(d), s2);
    Inverses(d);
  }

  // ---------------------------------------------------------------- the bound on c s2

  lemma NttSame(a: Poly, b: Poly)
    requires |a| == |b| == N && forall i :: 0 <= i < N ==> Cong(Q, a[i], b[i])
    ensures Ntt(a) == Ntt(b)
  {
    forall i | 0 <= i < N
      ensures Ntt(a)[i] == Ntt(b)[i]
    {
      var c := Pow(ZETA, 2 * BitRev(8, i) + 1);
      StridedCong(Q, a, b, 0, 1, c, c);
    }
  }

  /** No coefficient of c s2 exceeds beta = tau eta: c has tau coefficients 1 or -1 and those of s2 are at most eta. */
  lemma ChallengeProductBound(ps: Params, c: Poly, s: Poly)
    requires |c| == N && Ternary(c) && OneNorm(c) == ps.tau
    requires IsReduced(s) && InRange(Centre(s), ps.eta, ps.eta)
    ensures forall j :: 0 <= j < N ==> CNorm(Intt(Pmul(Ntt(Reduce(c)), Ntt(s)))[j]) <= ps.beta
  {
    hide Ntt, Intt, Pmul, NegMul, OneNorm;
    var s' := Centre(s);
    NttSame(Reduce(c), c);
    NttSame(s, s');
    TransformedProduct(c, s');
    NegMulBound(c, s', ps.eta);
    forall j | 0 <= j < N
      ensures CNorm(Intt(Pmul(Ntt(Reduce(c)), Ntt(s)))[j]) <= ps.beta
    {
      SmallNorm(ps, NegMul(c, s')[j]);
    }
  }

  lemma SmallNorm(ps: Params, x: int)
    requires Abs(x) <= ps.tau * ps.eta
    ensures CNorm(x % Q) <= ps.beta
  {
  }

  // ---------------------------------------------------------------- the rounding argument

  /** For one coefficient: the hint computed by signing makes verification recover the high bits of w. */
  lemma RecoveredHighBits(ps: Params, w: int, cs2: int, ct0: int)
    requires 0 <= w < Q && CNorm(cs2) <= ps.beta && CNorm(ct0) < ps.gamma2
    requires -(ps.gamma2 - ps.beta) < LowBits(ps, (w - cs2) % Q) < ps.gamma2 - ps.beta
    ensures UseHint(ps, MakeHint(ps, -ct0 % Q, (w - cs2 + ct0) % Q), ((w - cs2) % Q + ct0) % Q) == HighBits(ps, w)
  {
    hide HighBits, LowBits, UseHint, MakeHint, Cong;
    var r, z, v := (w - cs2 + ct0) % Q, -ct0 % Q, (w - cs2) % Q;
    RowIsHintArgument(w, cs2, ct0);
    NegNorm(ct0);
    HintRecovers(ps, z, r);
    SameHigh(ps, r + z, v) by { UndoCt0(w, cs2, ct0); }
    var d := Centred(cs2);
    CentredValue(cs2);
    HighBitsStable(ps, v, d, ps.gamma2 - ps.beta);
    SameHigh(ps, v + d, w) by { AddBack(w, cs2); }
  }

  lemma RowIsHintArgument(w: int, cs2: int, ct0: int)
    ensures ((w - cs2) % Q + ct0) % Q == (w - cs2 + ct0) % Q
  {
  }

  lemma NegNorm(x: int)
    ensures CNorm(-x % Q) == CNorm(x)
  {
  }

  lemma UndoCt0(w: int, cs2: int, ct0: int)
    ensures Cong(Q, (w - cs2 + ct0) % Q + -ct0 % Q, (w - cs2) % Q)
  {
    hide Cong;
    CongMod(Q, w - cs2 + ct0);
    CongMod(Q, -ct0);
    CongMod(Q, w - cs2);
    CongAdd(Q, (w - cs2 + ct0) % Q, w - cs2 + ct0, -ct0 % Q, -ct0);
    CongJoin(Q, (w - cs2 + ct0) % Q + -ct0 % Q, (w - cs2) % Q, w - cs2);
  }

  lemma AddBack(w: int, cs2: int)
    ensures Cong(Q, (w - cs2) % Q + Centred(cs2), w)
  {
  }

  lemma SameHigh(ps: Params, a: int, b: int)
    requires Cong(Q, a, b)
    ensures HighBits(ps, a) == HighBits(ps, b)
  {
  }

  // ---------------------------------------------------------------- the theorem

  /** One row: the hinted high bits of what verification computes are the high bits of w. */
  lemma RowRecovered(ps: Params, w: Poly, cs2: Poly, ct0: Poly, v: Poly)
    requires IsReduced(w) && IsReduced(cs2) && IsReduced(ct0) && v == Padd(Psub(w, cs2), ct0)
    requires forall j :: 0 <= j < N ==> CNorm(cs2[j]) <= ps.beta && CNorm(ct0[j]) < ps.gamma2
    requires forall j :: 0 <= j < N ==> -(ps.gamma2 - ps.beta) < LowBits(ps, (w[j] - cs2[j]) % Q) < ps.gamma2 - ps.beta
    ensures UseHintPoly(ps, HintPoly(ps, ct0, w, cs2), v) == HighPoly(ps, w)
  {
    hide HighBits, LowBits, UseHint, MakeHint, CNorm, Decompose;
    forall j | 0 <= j < N
      ensures UseHintPoly(ps, HintPoly(ps, ct0, w, cs2), v)[j] == HighPoly(ps, w)[j]
    {
      RecoveredHighBits(ps, w[j], cs2[j], ct0[j]);
    }
  }

  /** The facts about a generated key pair that signing and verification share. */
  ghost predicate IsExpansion(ps: Params, hs: Hashes, x: Expanded, lim: Limits) {
    && IsSecretKey(ps, x.secret) && IsMatrix(ps, x.A) && ExpandA(ps, hs, x.secret.rho, lim) == Some(x.A)
    && x.t == TVector(ps, x.A, x.secret.s1, x.secret.s2) && x.secret.t0 == T0All(x.t)
    && x.pk == PkEncode(ps, x.secret.rho, T1All(x.t)) && x.secret.tr == H(hs, x.pk, 64)
  }

  lemma ExpansionFacts(ps: Params, hs: Hashes, xi: Bytes, lim: Limits)
    ensures Expand(ps, hs, xi, lim).Some? ==> IsExpansion(ps, hs, Expand(ps, hs, xi, lim).value, lim)
  {
    hide TVector, T0All, T1All, PkEncode, ExpandA, ExpandS;
    ExpandedSecret(ps, hs, xi, lim);
  }

  ghost predicate IsRound(ps: Params, hs: Hashes, x: Expanded, r: Round, ch: Poly) {
    && IsSecretKey(ps, x.secret) && IsMatrix(ps, x.A) && |r.y| == ps.l && (forall s :: 0 <= s < ps.l ==>
        |r.y[s]| == N) && |ch| == N
    && r.w == InttAll(MatVec(ps, x.A, NttAll(r.y)))
    && r.cs1 == Times(ch, NttAll(x.secret.s1)) && r.cs2 == Times(ch, NttAll(x.secret.s2))
    && r.ct0 == Times(ch, NttAll(x.secret.t0)) && r.z == PaddAll(r.y, r.cs1)
  }

  /** Row i as verification recomputes it is w - c s2 + c t0, and all parts have their shape. */
  ghost predicate IsRowValue(ps: Params, x: Expanded, r: Round, ch: Poly, i: nat) {
    && IsMatrix(ps, x.A) && |ch| == N && i < ps.k
    && AllReduced(r.z, ps.l) && |r.w| == |r.cs2| == |r.ct0| == |x.t| == ps.k
    && IsReduced(r.w[i]) && IsReduced(r.cs2[i]) && IsReduced(r.ct0[i]) && |x.t[i]| == N
    && VerifyRow(x.A[i], NttAll(r.z), ps.l, ch, T1(x.t[i])) == Padd(Psub(r.w[i], r.cs2[i]), r.ct0[i])
  }

  lemma RowValue(ps: Params, hs: Hashes, x: Expanded, lim: Limits, r: Round, ch: Poly, i: nat)
    requires IsExpansion(ps, hs, x, lim) && IsRound(ps, hs, x, r, ch) && IsReduced(ch) && i < ps.k
    ensures IsRowValue(ps, x, r, ch, i)
  {
    hide Padd, Psub, Pmul, Ntt, Intt, T1, T0, RowDot, VerifyRow, ExpandA;
    VerifyRowValue(x.A[i], ps.l, r.y, x.secret.s1, x.secret.s2[i], ch, x.t[i], r.cs1);
  }

  lemma ChallengeBound(ps: Params, hs: Hashes, ct: Bytes, lim: Limits, s2: seq<Poly>, c: Poly, i: nat)
    requires SampleInBall(ps, hs, ct, lim.ball) == Some(c) && IsVector(s2, ps.k, ps.eta, ps.eta) && i < ps.k
    ensures forall j :: 0 <= j < N ==> CNorm(Times(Ntt(c), NttAll(s2))[i][j]) <= ps.beta
  {
    hide Ntt, Intt, Pmul, CNorm, Ball;
    BallWeight(ps, hs.shake256(ct), lim.ball);
    ChallengeProductBound(ps, Ball(ps, hs.shake256(ct), lim.ball).value, s2[i]);
  }

  /** A round of the signing loop for a generated key pair. */
  ghost predicate IsRoundOf(ps: Params, hs: Hashes, x: Expanded, mu: Bytes, lim: Limits, r: Round) {
    && IsExpansion(ps, hs, x, lim) && IsReduced(r.c) && |Ntt(r.c)| == N && IsRound(ps, hs, x, r, Ntt(r.c))
    && SampleInBall(ps, hs, r.ct, lim.ball) == Some(r.c)
    && AllReduced(r.z, ps.l) && AllReduced(r.w, ps.k) && AllReduced(r.cs2, ps.k) && AllReduced(r.ct0, ps.k)
    && HasShape(ps, r.h) && r.h == HintAll(ps, r.ct0, r.w, r.cs2)
    && r.ct == H(hs, mu + W1Encode(ps, HighAll(ps, r.w)), ps.lam / 4)
  }

  ghost predicate PassesChecks(ps: Params, r: Round) {
    && |r.w| == |r.cs2| == ps.k && (forall i :: 0 <= i < ps.k ==> |r.w[i]| == |r.cs2[i]| == N)
    && LowBitsBelow(ps, r.w, r.cs2, ps.gamma2 - ps.beta) && NormBelow(r.ct0, ps.gamma2)
  }

  /** Verification recovers from the hints the high bits that signing hashed. */
  ghost predicate RecoversW1(ps: Params, x: Expanded, r: Round) {
    && IsMatrix(ps, x.A) && AllReduced(r.z, ps.l) && HasShape(ps, r.h) && AllReduced(x.t, ps.k) && AllReduced(r.w, ps.k)
    && |r.c| == N && |Ntt(r.c)| == N && RecoverW1(ps, x.A, r.z, r.h, Ntt(r.c), T1All(x.t)) == HighAll(ps, r.w)
  }

  ghost predicate RowRecovers(ps: Params, x: Expanded, r: Round, ch: Poly, i: nat) {
    && IsRowValue(ps, x, r, ch, i) && HasShape(ps, r.h)
    && UseHintPoly(ps, r.h[i], VerifyRow(x.A[i], NttAll(r.z), ps.l, ch, T1(x.t[i]))) == HighPoly(ps, r.w[i])
  }

  /** The high bits that verification recovers for one row of an accepted round are those that signing hashed. */
  lemma RecoveredRow(ps: Params, hs: Hashes, x: Expanded, mu: Bytes, lim: Limits, r: Round, i: nat)
    requires IsRoundOf(ps, hs, x, mu, lim, r) && PassesChecks(ps, r) && i < ps.k
    ensures RowRecovers(ps, x, r, Ntt(r.c), i)
  {
    hide Ntt, Intt, Padd, Psub, Pmul, T1, HighPoly, UseHintPoly, HintPoly, CNorm, LowBits, VerifyRow, ExpandA,
         SampleInBall,
         H, W1Encode, HighAll;
    NttReduced(r.c);
    RowValue(ps, hs, x, lim, r, Ntt(r.c), i);
    ChallengeBound(ps, hs, r.ct, lim, x.secret.s2, r.c, i);
    RowRecovered(ps, r.w[i], r.cs2[i], r.ct0[i], Padd(Psub(r.w[i], r.cs2[i]), r.ct0[i]));
  }

  lemma SameW1(ps: Params, hs: Hashes, x: Expanded, mu: Bytes, lim: Limits, r: Round)
    requires IsRoundOf(ps, hs, x, mu, lim, r) && PassesChecks(ps, r)
    ensures RecoversW1(ps, x, r)
  {
    hide Ntt, HintAll, ExpandA, SampleInBall, LowBitsBelow, NormBelow, IsRound, UseHintPoly, HighPoly, VerifyRow, H,
         W1Encode,
         T1, IsRowValue, TVector, T0All, NttAll;
    forall i: nat | i < ps.k
      ensures RecoverW1(ps, x.A, r.z, r.h, Ntt(r.c), T1All(x.t))[i] == HighAll(ps, r.w)[i]
    {
      RecoveredRow(ps, hs, x, mu, lim, r, i);
    }
  }

  lemma RoundFacts(ps: Params, hs: Hashes, x: Expanded, g: Signer, mu: Bytes, kappa: nat, lim: Limits)
    requires IsExpansion(ps, hs, x, lim) && g.A == x.A && g.s == x.secret && IsSigner(ps, g)
    ensures var r := RoundOf(ps, hs, g, mu, kappa, lim); r.Some? ==> IsRoundOf(ps, hs, x, mu, lim, r.value)
  {
    hide Ntt, Intt, SampleInBall, HighAll, HintAll, ExpandA, MatVec, NttAll, InttAll, PaddAll, Times, IsExpansion;
    SecretOf(ps, hs, x, lim);
    var r := RoundOf(ps, hs, g, mu, kappa, lim);
    if r.Some? {
      NttReduced(r.value.c);
    }
  }

  lemma SecretOf(ps: Params, hs: Hashes, x: Expanded, lim: Limits)
    requires IsExpansion(ps, hs, x, lim)
    ensures IsSecretKey(ps, x.secret) && IsMatrix(ps, x.A)
  {
    hide IsSecretKey, IsMatrix, ExpandA, TVector, T0All, T1All, PkEncode, H;
  }

  /** A signature that one iteration accepts is verified. */
  lemma AttemptVerified(ps: Params, hs: Hashes, x: Expanded, g: Signer, mu: Bytes, kappa: nat, lim: Limits)
    requires IsExpansion(ps, hs, x, lim) && g.A == x.A && g.s == x.secret && IsSigner(ps, g)
    requires SignAttempt(ps, hs, g, mu, kappa, lim).Accepted?
    ensures Verify(ps, hs, x.pk, mu, SignAttempt(ps, hs, g, mu, kappa, lim).sig, lim) == Some(true)
  {
    hide RoundOf, Ntt, SampleInBall, HighAll, HintAll, ExpandA, RecoverW1, SigEncode, SigDecode, PkEncode, PkDecode,
         TVector,
         LowBitsBelow, T1All, T0All;
    var r := RoundOf(ps, hs, g, mu, kappa, lim).value;
    RoundFacts(ps, hs, x, g, mu, kappa, lim);
    EncodableZ(ps, r.z);
    SumIsCount(ps, r.h);
    SigRoundTrip(ps, r.ct, r.z, r.h);
    PkRoundTrip(ps, x.secret.rho, T1All(x.t));
    SameW1(ps, hs, x, mu, lim, r);
  }

  lemma {:induction false} SignFromAccepted(ps: Params, hs: Hashes, g: Signer, mu: Bytes, kappa: nat, it: nat,
      lim: Limits)
    returns (k: nat)
    requires IsSigner(ps, g) && SignFrom(ps, hs, g, mu, kappa, it, lim).Some?
    ensures SignAttempt(ps, hs, g, mu, k, lim) == Accepted(SignFrom(ps, hs, g, mu, kappa, it, lim).value.1)
    decreases lim.sign - it
  {
    hide SignAttempt;
    if SignAttempt(ps, hs, g, mu, kappa, lim).Accepted? {
      k := kappa;
    } else {
      k := SignFromAccepted(ps, hs, g, mu, kappa + ps.l, it + 1, lim);
    }
  }

  /** Every signature returned for a generated key pair is accepted with its public key and the same mu. */
  lemma SignedIsVerified(ps: Params, hs: Hashes, xi: Bytes, mu: Bytes, rnd: Bytes, lim: Limits)
    requires KeyGen(ps, hs, xi, lim).Some?
    ensures var (pk, sk) := KeyGen(ps, hs, xi, lim).value;
            |pk| == ps.pkLen && |sk| == ps.skLen &&
            (Sign(ps, hs, sk, mu, rnd, lim).Some? ==>
              Verify(ps, hs, pk, mu, Sign(ps, hs, sk, mu, rnd, lim).value.1, lim) == Some(true))
  {
    hide SkEncode, SkDecode, Verify, SignFrom, ExpandA, Expand, SkOk, IsExpansion;
    var x := Expand(ps, hs, xi, lim).value;
    ExpansionFacts(ps, hs, xi, lim);
    KeyLengths(ps, hs, x, lim);
    SkRoundTrip(ps, x.secret);
    var sk := SkEncode(ps, x.secret);
    if Sign(ps, hs, sk, mu, rnd, lim).Some? {
      var g := SignerOf(ps, hs, sk, mu, rnd, lim).value;
      SignerIsExpansion(ps, hs, x, mu, rnd, lim);
      var k := SignFromAccepted(ps, hs, g, mu, 0, 0, lim);
      AttemptVerified(ps, hs, x, g, mu, k, lim);
    }
  }

  lemma KeyLengths(ps: Params, hs: Hashes, x: Expanded, lim: Limits)
    requires IsExpansion(ps, hs, x, lim)
    ensures IsSecretKey(ps, x.secret) && |x.pk| == ps.pkLen
  {
    hide TVector, T1All, ExpandA, T0All, PkEncode;
    PkRoundTrip(ps, x.secret.rho, T1All(x.t));
  }

  lemma SignerIsExpansion(ps: Params, hs: Hashes, x: Expanded, mu: Bytes, rnd: Bytes, lim: Limits)
    requires IsExpansion(ps, hs, x, lim)
    ensures IsSecretKey(ps, x.secret) && |SkEncode(ps, x.secret)| == ps.skLen
    ensures SignerOf(ps, hs, SkEncode(ps, x.secret), mu, rnd, lim) == Some(Signer(x.A, x.secret, H(hs,
            x.secret.key + rnd + mu, 64)))
  {
    hide SkEncode, SkDecode, ExpandA, TVector, T1All, T0All, PkEncode;
    SkRoundTrip(ps, x.secret);
  }

  /** The public key can be derived from the generated secret key, and tr is its hash. */
  lemma PublicFromSecret(ps: Params, hs: Hashes, xi: Bytes, lim: Limits)
    requires KeyGen(ps, hs, xi, lim).Some?
    ensures var (pk, sk) := KeyGen(ps, hs, xi, lim).value;
            |sk| == ps.skLen && SkOk(ps, sk) && PkFromSk(ps, hs, sk, lim) == Some(pk) && sk[64..128] == H(hs, pk, 64)
  {
    hide ExpandA, TVector, T1All, T0All, PkEncode, Expand, BitPackAll, SkDecode, SkOk;
    var x := Expand(ps, hs, xi, lim).value;
    ExpansionFacts(ps, hs, xi, lim);
    SkRoundTrip(ps, x.secret);
    var s := x.secret;
    assert SkEncode(ps, s)[64..128] == s.tr by {
      assert SkEncode(ps, s)[..128] == s.rho + s.key + s.tr;
      assert SkEncode(ps, s)[64..128] == SkEncode(ps, s)[..128][64..];
    }
  }

  /** A returned signature has its length, and took at most the admitted number of iterations, at least one. */
  lemma SignatureShape(ps: Params, hs: Hashes, sk: Bytes, mu: Bytes, rnd: Bytes, lim: Limits)
    requires |sk| == ps.skLen && Sign(ps, hs, sk, mu, rnd, lim).Some?
    ensures var (total, sig) := Sign(ps, hs, sk, mu, rnd, lim).value; |sig| == ps.sigLen && 1 <= total <= lim.sign
  {
    hide SignerOf, SignFrom, SignAttempt;
    var g := SignerOf(ps, hs, sk, mu, rnd, lim).value;
    var k := SignFromAccepted(ps, hs, g, mu, 0, 0, lim);
    IterationsBounded(ps, hs, g, mu, 0, 0, lim);
    AcceptedLength(ps, hs, g, mu, k, lim);
  }

  lemma AcceptedLength(ps: Params, hs: Hashes, g: Signer, mu: Bytes, kappa: nat, lim: Limits)
    requires IsSigner(ps, g) && SignAttempt(ps, hs, g, mu, kappa, lim).Accepted?
    ensures |SignAttempt(ps, hs, g, mu, kappa, lim).sig| == ps.sigLen
  {
    hide RoundOf, SigEncode, LowBitsBelow;
    var r := RoundOf(ps, hs, g, mu, kappa, lim).value;
    ChallengeLength(ps, hs, g, mu, kappa, lim);
    EncodableZ(ps, r.z);
    SumIsCount(ps, r.h);
    SigRoundTrip(ps, r.ct, r.z, r.h);
  }

  lemma ChallengeLength(ps: Params, hs: Hashes, g: Signer, mu: Bytes, kappa: nat, lim: Limits)
    requires IsSigner(ps, g) && RoundOf(ps, hs, g, mu, kappa, lim).Some?
    ensures |RoundOf(ps, hs, g, mu, kappa, lim).value.ct| == ps.lam / 4
  {
    hide Ntt, SampleInBall, HighAll, HintAll, MatVec, NttAll, InttAll, PaddAll, Times, W1Encode;
  }

  lemma {:induction false} IterationsBounded(ps: Params, hs: Hashes, g: Signer, mu: Bytes, kappa: nat, it: nat,
      lim: Limits)
    requires IsSigner(ps, g) && SignFrom(ps, hs, g, mu, kappa, it, lim).Some?
    ensures it < SignFrom(ps, hs, g, mu, kappa, it, lim).value.0 <= lim.sign
    decreases lim.sign - it
  {
    hide SignAttempt;
    if SignAttempt(ps, hs, g, mu, kappa, lim).Rejected? {
      IterationsBounded(ps, hs, g, mu, kappa + ps.l, it + 1, lim);
    }
  }
}
