/** The ring Z_q[x]/(x^256 + 1) of ML-DSA (FIPS 204) and its transforms, as the in-place loops compute them. */
module MldsaNtt {
  import opened Modular
  import opened NttTheory
  import opened NttLoops

  const Q: int := 8380417
  const ZETA: int := 1753
  const INV256: int := 8347681
  const R: Ring := Ring(Q, ZETA, 8)

  lemma ZetaOrder()
    ensures R.Valid()
  {
    hide Pow;
    PowOne(ZETA);
    PowSquare(Q, ZETA, 1, 1753, 3073009);
    PowSquare(Q, ZETA, 2, 3073009, 3602218);
    PowSquare(Q, ZETA, 4, 3602218, 5010068);
    PowSquare(Q, ZETA, 8, 5010068, 7778734);
    PowSquare(Q, ZETA, 16, 7778734, 5178923);
    PowSquare(Q, ZETA, 32, 5178923, 3765607);
    PowSquare(Q, ZETA, 64, 3765607, 4808194);
    PowSquare(Q, ZETA, 128, 4808194, 8380416);
    Pow2Values();
  }

  lemma PowNext(b: int, e: nat)
    ensures Pow(b, e + 1) == b * Pow(b, e)
  {
  }

  lemma PowStep(e: nat, v: int, bit: nat, v': int)
    requires Cong(Q, Pow(256, e), v) && bit < 2
    requires Cong(Q, if bit == 1 then 256 * (v * v) else v * v, v')
    ensures Cong(Q, Pow(256, 2 * e + bit), v')
  {
    hide Pow;
    PowSquare(Q, 256, e, v, v * v);
    PowNext(256, 2 * e);
    if bit == 1 {
      CongMul(Q, 256, 256, Pow(256, 2 * e), v * v);
    }
  }

  /** The scaling constant is 256 to the power q - 2, the inverse of 256. */
  lemma InverseOf256()
    ensures Pow(256, Q - 2) % Q == INV256
    ensures Cong(Q, 256 * INV256, 1)
  {
    hide Pow;
    PowOne(256);
    PowStep(1, 256, 1, 16382);
    PowStep(3, 16382, 1, 41978);
    PowStep(7, 41978, 1, 1569211);
    PowStep(15, 1569211, 1, 7778913);
    PowStep(31, 7778913, 1, 1620757);
    PowStep(63, 1620757, 1, 5459360);
    PowStep(127, 5459360, 1, 4699327);
    PowStep(255, 4699327, 1, 7803087);
    PowStep(511, 7803087, 0, 3983976);
    PowStep(1022, 3983976, 1, 4236571);
    PowStep(2045, 4236571, 1, 679363);
    PowStep(4091, 679363, 1, 591891);
    PowStep(8183, 591891, 1, 924928);
    PowStep(16367, 924928, 1, 3743169);
    PowStep(32735, 3743169, 1, 3357099);
    PowStep(65471, 3357099, 1, 8333727);
    PowStep(130943, 8333727, 1, 32736);
    PowStep(261887, 32736, 1, 8347681);
    PowStep(523775, 8347681, 1, 8347681);
    PowStep(1047551, 8347681, 1, 8347681);
    PowStep(2095103, 8347681, 1, 8347681);
    PowStep(4190207, 8347681, 1, 8347681);
  }

  // ---------------------------------------------------------------- specification

  /** FIPS 204 section 7.5: entry i of the transform is the value at zeta^(2 brv(i) + 1). */
  function Ntt(a: seq<int>): (r: seq<int>)
    requires |a| == N
    ensures |r| == N
  {
    seq(N, i requires 0 <= i < N => Eval(a, Pow(ZETA, 2 * BitRev(8, i) + 1)) % Q)
  }

  function Intt(w: seq<int>): (r: seq<int>)
    requires |w| == N
    ensures |r| == N
  {
    seq(N, i requires 0 <= i < N => InvLayer(R, w, 1, 1, N, i) * INV256 % Q)
  }

  lemma LayerLeaf(a: seq<int>, i: nat)
    requires i < N
    ensures Pow2(8) == 256 && Layer(R, a, 256, 1, i) == Eval(a, Pow(ZETA, 2 * BitRev(8, i) + 1))
  {
    Pow2Values();
  }

  // ---------------------------------------------------------------- the loops

  lemma ForwardEnd(s: seq<int>, a: seq<int>)
    requires |s| == |a| == N && Shape(256, 1) && 256 <= Pow2(8) && Holds(R, s, a, 256, 1, 0, N)
    ensures s == Ntt(a)
  {
    hide Layer, Eval;
    forall i: nat | i < N
      ensures s[i] == Ntt(a)[i]
    {
      LayerLeaf(a, i);
    }
  }

  lemma ShapeEnd(nb: nat, L: nat)
    requires Shape(nb, L) && L / 2 < 1
    ensures nb == 256 && L == 1
  {
  }

  /** The in-place transform: layers of halving block length, starting from a copy of a. */
  method NttInPlace(a: seq<int>) returns (w: array<int>)
    requires |a| == N
    ensures fresh(w) && w[..] == Ntt(a)
  {
    hide Layer, Twiddle, Shape, Pow2, Cong, Factor, Ntt, Holds;
    ZetaOrder();
    w := new int[N](i requires 0 <= i < N => a[i]);
    assert w[..] == a;
    var m, ln := 0, 128;
    ghost var nb: nat, L: nat := 1, 256;
    ForwardStart(R, a);
    while ln >= 1
      invariant Shape(nb, L) && ln == L / 2 && m == nb - 1 && nb <= Pow2(R.k)
      invariant Holds(R, w[..], a, nb, L, 0, N)
      decreases ln
    {
      ShapeSplit(nb, L);
      ShapeFits(nb, L, ln);
      m := ForwardLayer(R, w, a, nb, ln, m);
      nb, L := 2 * nb, ln;
      ln := ln / 2;
    }
    ShapeEnd(nb, L);
    ForwardEnd(w[..], a);
  }

  lemma ShapeFits(nb: nat, L: nat, ln: nat)
    requires Shape(nb, L) && ln == L / 2 && ln >= 1
    ensures 2 * nb <= Pow2(8)
  {
    Pow2Values();
  }

  /** Inverse butterflies of one block; z is the negated factor. */
  method InverseBlock(w: array<int>, start: nat, ln: nat, z: int)
    requires w.Length == N && ln > 0 && start + 2 * ln <= N
    modifies w
    ensures forall i :: start <= i < start + ln ==> w[i] == MergedLow(Q, old(w[i]), old(w[i + ln]))
    ensures forall i :: start + ln <= i < start + 2 * ln ==> w[i] == MergedHigh(Q, -z, old(w[i - ln]), old(w[i]))
    ensures forall i :: 0 <= i < N && !(start <= i < start + 2 * ln) ==> w[i] == old(w[i])
  {
    for j := start to start + ln
      invariant forall i :: start <= i < j ==> w[i] == MergedLow(Q, old(w[i]), old(w[i + ln]))
      invariant forall i :: start + ln <= i < j + ln ==> w[i] == MergedHigh(Q, -z, old(w[i - ln]), old(w[i]))
      invariant forall i :: 0 <= i < N && !(start <= i < j || start + ln <= i < j + ln) ==> w[i] == old(w[i])
    {
      var t := w[j];
      w[j] := (t + w[j + ln]) % Q;
      w[j + ln] := z * (t - w[j + ln]) % Q;
    }
  }

  /** One inverse layer: the table index m counts down, the factors are negated. */
  method InverseLayer(w: array<int>, ghost a: seq<int>, ghost nb: nat, ln: nat, m0: nat) returns (m: nat)
    requires w.Length == |a| == N && ln > 0 && Shape(nb, 2 * ln) && Shape(2 * nb, ln) && nb * (2 * ln) == N
    requires m0 == 2 * nb && Merged(R, w[..], a, 1, 2 * nb, ln, 0, N) && 1 < 2 * ln
    modifies w
    ensures m == nb && Merged(R, w[..], a, 1, nb, 2 * ln, 0, N)
  {
    hide InvLayer, Shape, Pow2, MergedLow, MergedHigh, Factor, Merged;
    m := m0;
    MergedEmpty(R, w[..], a, 1, nb, 2 * ln, 0);
    var start := 0;
    ghost var b := 0;
    while start < 256
      invariant b <= nb && start == b * (2 * ln) <= N && m == 2 * nb - b
      invariant Merged(R, w[..], a, 1, nb, 2 * ln, 0, start)
      invariant Merged(R, w[..], a, 1, 2 * nb, ln, start, N)
      decreases N - start
    {
      BlocksFit(b, nb, 2 * ln);
      m := m - 1;
      var z := -Factor(R, m);
      ghost var s := w[..];
      InverseBlock(w, start, ln, z);
      InverseStep(R, s, w[..], a, 1, nb, 2 * ln, ln, b, start);
      start, b := start + 2 * ln, b + 1;
    }
    AllBlocks(b, nb, 2 * ln);
  }

  /** The in-place inverse transform: layers of doubling block length, and the factor 1/256 last. */
  method InttInPlace(a: seq<int>) returns (w: array<int>)
    requires |a| == N
    ensures fresh(w) && w[..] == Intt(a)
  {
    hide InvLayer, Shape, Pow2, Factor, Merged;
    w := new int[N](i requires 0 <= i < N => a[i]);
    assert w[..] == a;
    var m, ln := 256, 1;
    ghost var nb: nat := 256;
    MergedStart(R, a, 1, 256);
    while ln < 256
      invariant Shape(nb, ln) && m == nb && ln >= 1
      invariant Merged(R, w[..], a, 1, nb, ln, 0, N)
      decreases 256 - ln
    {
      ShapeJoin(nb, ln);
      m := InverseLayer(w, a, nb / 2, ln, m);
      nb, ln := nb / 2, 2 * ln;
    }
    ShapeWhole(nb, ln);
    MergedEnd(w[..], a);
    ghost var s := w[..];
    for i := 0 to N
      invariant forall k :: 0 <= k < i ==> w[k] == s[k] * INV256 % Q
      invariant forall k :: i <= k < N ==> w[k] == s[k]
    {
      w[i] := w[i] * INV256 % Q;
    }
  }

  lemma MergedEnd(s: seq<int>, a: seq<int>)
    requires |s| == |a| == N && Shape(1, N) && Merged(R, s, a, 1, 1, N, 0, N)
    ensures forall k :: 0 <= k < N ==> Intt(a)[k] == s[k] * INV256 % Q
  {
    hide InvLayer;
  }

  // ---------------------------------------------------------------- theorems

  lemma ScaleFull()
    ensures Scale(1, N) == 256
  {
    assert Scale(1, 4) == 4;
    assert Scale(1, 16) == 16;
    assert Scale(1, 64) == 64;
  }

  /** The inverse transform undoes the transform, modulo q. */
  lemma InttNtt(a: seq<int>)
    requires |a| == N
    ensures forall i :: 0 <= i < N ==> Intt(Ntt(a))[i] == a[i] % Q
  {
    hide InvLayer, Layer, Eval;
    ZetaOrder();
    Pow2Values();
    var w := Ntt(a);
    assert IsTransform(R, a, w, 1) by {
      forall j: nat | j < N
        ensures Cong(Q, w[j], Layer(R, a, Pow2(8), 1, j))
      {
        LayerLeaf(a, j);
        CongMod(Q, Eval(a, Pow(ZETA, 2 * BitRev(8, j) + 1)));
      }
    }
    ScaleFull();
    InverseOf256();
    forall i: nat | i < N
      ensures Intt(w)[i] == a[i] % Q
    {
      InvLayerOfTransform(R, a, w, 1, 1, N, i);
      LayerTop(R, a, i);
      Unscale(InvLayer(R, w, 1, 1, N, i), a[i]);
    }
  }

  lemma Unscale(x: int, y: int)
    requires Cong(Q, x, 256 * y) && Cong(Q, 256 * INV256, 1)
    ensures x * INV256 % Q == y % Q
  {
    CongMul(Q, x, 256 * y, INV256, INV256);
    CongMul(Q, 256 * INV256, 1, y, y);
    assert (256 * y) * INV256 == (256 * INV256) * y;
  }

  lemma InvAllLeaf(w: seq<int>, i: nat)
    requires |w| == N && i < N
    ensures Cong(Q, Layer(R, InvAll(R, w, 1), 256, 1, i), 256 * w[i])
  {
    hide Layer;
    ZetaOrder();
    Pow2Values();
    LayerOfInverse(R, w, 1, 256, 1, i);
  }

  lemma EvalScaled(x: seq<int>, y: seq<int>, k: int, c: int)
    requires |x| == |y| && forall j :: 0 <= j < |x| ==> y[j] == x[j] * k % Q
    ensures Cong(Q, Eval(y, c), k * Eval(x, c))
  {
    var s := seq(|x|, j requires 0 <= j < |x| => x[j] * k);
    StridedLinear(s, x, k, x, 0, 0, 1, c);
    forall j | 0 <= j < |x|
      ensures Cong(Q, y[j], s[j])
    {
      CongMod(Q, s[j]);
    }
    StridedCong(Q, y, s, 0, 1, c, c);
  }

  /**
   The transform undoes the inverse transform, modulo q: together with InttNtt, the two loops are mutually inverse.
   */
  lemma NttIntt(w: seq<int>)
    requires |w| == N
    ensures forall i :: 0 <= i < N ==> Ntt(Intt(w))[i] == w[i] % Q
  {
    hide InvLayer, Layer, Eval, BitRev;
    var x := InvAll(R, w, 1);
    InverseOf256();
    forall i: nat | i < N
      ensures Ntt(Intt(w))[i] == w[i] % Q
    {
      var c := Pow(ZETA, 2 * BitRev(8, i) + 1);
      EvalScaled(x, Intt(w), INV256, c);
      InvAllLeaf(w, i);
      LayerLeaf(x, i);
      Rescale(Eval(Intt(w), c), Eval(x, c), w[i]);
    }
  }

  lemma Rescale(v: int, e: int, y: int)
    requires Cong(Q, v, INV256 * e) && Cong(Q, e, 256 * y) && Cong(Q, 256 * INV256, 1)
    ensures v % Q == y % Q
  {
    CongMul(Q, INV256, INV256, e, 256 * y);
    CongMul(Q, 256 * INV256, 1, y, y);
    assert INV256 * (256 * y) == (256 * INV256) * y;
  }

  // ---------------------------------------------------------------- arithmetic on polynomials

  ghost predicate IsReduced(a: seq<int>) {
    |a| == N && forall i :: 0 <= i < N ==> 0 <= a[i] < Q
  }

  function Padd(a: seq<int>, b: seq<int>): (r: seq<int>)
    requires |a| == |b| == N
    ensures IsReduced(r)
  {
    seq(N, i requires 0 <= i < N => (a[i] + b[i]) % Q)
  }

  function Psub(a: seq<int>, b: seq<int>): (r: seq<int>)
    requires |a| == |b| == N
    ensures IsReduced(r)
  {
    seq(N, i requires 0 <= i < N => (a[i] - b[i]) % Q)
  }

  /** Product in the transformed domain. */
  function Pmul(a: seq<int>, b: seq<int>): (r: seq<int>)
    requires |a| == |b| == N
    ensures IsReduced(r)
  {
    seq(N, i requires 0 <= i < N => a[i] * b[i] % Q)
  }

  function Reduce(a: seq<int>): (r: seq<int>)
    requires |a| == N
    ensures IsReduced(r)
  {
    seq(N, i requires 0 <= i < N => a[i] % Q)
  }

  lemma RootPower(i: nat)
    ensures Cong(Q, Pow(Pow(ZETA, 2 * i + 1), N), -1)
  {
    hide Pow;
    var h := Pow(ZETA, 256);
    ZetaOrder();
    Pow2Values();
    PowMul(ZETA, 2 * i + 1, 256);
    PowMul(ZETA, 256, 2 * i + 1);
    PowCong(Q, h, -1, 2 * i + 1);
    PowOdd(i);
  }

  /** The transform of a negacyclic product is the pointwise product of the transforms. */
  lemma NttProduct(a: seq<int>, b: seq<int>)
    requires |a| == |b| == N
    ensures Ntt(NegMul(a, b)) == Pmul(Ntt(a), Ntt(b))
  {
    hide Eval, NegMul, Pow, BitRev;
    forall i: nat | i < N
      ensures Ntt(NegMul(a, b))[i] == Pmul(Ntt(a), Ntt(b))[i]
    {
      var c := Pow(ZETA, 2 * BitRev(8, i) + 1);
      RootPower(BitRev(8, i));
      EvalProduct(Q, a, b, c);
      ProductOfRemainders(Eval(NegMul(a, b), c), Eval(a, c), Eval(b, c));
    }
  }

  lemma ProductOfRemainders(p: int, x: int, y: int)
    requires Cong(Q, p, x * y)
    ensures p % Q == (x % Q) * (y % Q) % Q
  {
    CongMod(Q, x);
    CongMod(Q, y);
    CongMul(Q, x % Q, x, y % Q, y);
  }

  /** The product theorem: pointwise multiplication between the transforms is multiplication modulo x^256 + 1 and q. */
  lemma TransformedProduct(a: seq<int>, b: seq<int>)
    requires |a| == |b| == N
    ensures Intt(Pmul(Ntt(a), Ntt(b))) == Reduce(NegMul(a, b))
  {
    hide NegMul, Ntt, Intt, Pmul;
    NttProduct(a, b);
    InttNtt(NegMul(a, b));
    assert forall i :: 0 <= i < N ==> Intt(Pmul(Ntt(a), Ntt(b)))[i] == Reduce(NegMul(a, b))[i];
  }

  lemma EvalCombination(s: seq<int>, a: seq<int>, u: int, b: seq<int>, v: int, c: int)
    requires |s| == |a| == |b| && forall j :: 0 <= j < |a| ==> s[j] == (u * a[j] + v * b[j]) % Q
    ensures Eval(s, c) % Q == (u * (Eval(a, c) % Q) + v * (Eval(b, c) % Q)) % Q
  {
    var t := seq(|a|, j requires 0 <= j < |a| => u * a[j] + v * b[j]);
    StridedLinear(t, a, u, b, v, 0, 1, c);
    forall j | 0 <= j < |a|
      ensures Cong(Q, s[j], t[j])
    {
      CongMod(Q, t[j]);
    }
    StridedCong(Q, s, t, 0, 1, c, c);
    var x, y := Eval(a, c), Eval(b, c);
    CongMod(Q, x);
    CongMod(Q, y);
    CongMul(Q, u, u, x % Q, x);
    CongMul(Q, v, v, y % Q, y);
    CongAdd(Q, u * (x % Q), u * x, v * (y % Q), v * y);
  }

  /** The transform is additive. */
  lemma NttAdditive(a: seq<int>, b: seq<int>)
    requires |a| == |b| == N
    ensures Ntt(Padd(a, b)) == Padd(Ntt(a), Ntt(b))
    ensures Ntt(Psub(a, b)) == Psub(Ntt(a), Ntt(b))
  {
    hide Eval, Pow, BitRev;
    forall i: nat | i < N
      ensures Ntt(Padd(a, b))[i] == Padd(Ntt(a), Ntt(b))[i]
      ensures Ntt(Psub(a, b))[i] == Psub(Ntt(a), Ntt(b))[i]
    {
      var c := Pow(ZETA, 2 * BitRev(8, i) + 1);
      EvalCombination(Padd(a, b), a, 1, b, 1, c);
      EvalCombination(Psub(a, b), a, 1, b, -1, c);
    }
  }

  lemma NttReduced(a: seq<int>)
    requires |a| == N
    ensures IsReduced(Ntt(a)) && IsReduced(Intt(a))
  {
  }

  /** The two transforms are inverse on reduced polynomials. */
  lemma Inverses(a: seq<int>)
    requires IsReduced(a)
    ensures Ntt(Intt(a)) == a && Intt(Ntt(a)) == a
  {
    hide Ntt, Intt;
    NttIntt(a);
    InttNtt(a);
    assert forall i :: 0 <= i < N ==> a[i] % Q == a[i];
  }

  lemma InttAdditive(a: seq<int>, b: seq<int>)
    requires IsReduced(a) && IsReduced(b)
    ensures Intt(Padd(a, b)) == Padd(Intt(a), Intt(b))
    ensures Intt(Psub(a, b)) == Psub(Intt(a), Intt(b))
  {
    hide Ntt, Intt, Padd, Psub;
    NttAdditive(Intt(a), Intt(b));
    Inverses(a);
    Inverses(b);
    Inverses(Padd(Intt(a), Intt(b)));
    Inverses(Psub(Intt(a), Intt(b)));
  }
}
