/** The ring Z_q[x]/(x^256 + 1) of ML-KEM (FIPS 203): the incomplete transform and the product of transforms. */
module MlkemNtt {
  import opened Modular
  import opened NttTheory
  import opened NttLoops

  const Q: int := 3329
  const ZETA: int := 17
  const INV128: int := 3303
  const R: Ring := Ring(Q, ZETA, 7)

  lemma ZetaOrder()
    ensures R.Valid() && Pow2(7) == 128
  {
    hide Pow;
    PowOne(ZETA);
    PowSquare(Q, ZETA, 1, 17, 289);
    PowSquare(Q, ZETA, 2, 289, 296);
    PowSquare(Q, ZETA, 4, 296, 1062);
    PowSquare(Q, ZETA, 8, 1062, 2642);
    PowSquare(Q, ZETA, 16, 2642, 2580);
    PowSquare(Q, ZETA, 32, 2580, 1729);
    PowSquare(Q, ZETA, 64, 1729, 3328);
    Pow2Values();
  }

  // ---------------------------------------------------------------- specification

  /** Positions 2i and 2i + 1 hold the remainder modulo x^2 - zeta^(2 brv(i) + 1). */
  function Ntt(a: seq<int>): (r: seq<int>)
    requires |a| == N
    ensures IsReduced(r)
  {
    Pow2Values();
    seq(N, i requires 0 <= i < N => Layer(R, a, 128, 2, i) % Q)
  }

  function NttInv(w: seq<int>): (r: seq<int>)
    requires |w| == N
    ensures IsReduced(r)
  {
    seq(N, i requires 0 <= i < N => InvLayer(R, w, 2, 1, N, i) * INV128 % Q)
  }

  ghost predicate IsReduced(a: seq<int>) {
    |a| == N && forall i :: 0 <= i < N ==> 0 <= a[i] < Q
  }

  // ---------------------------------------------------------------- the loops

  lemma ForwardEnd(s: seq<int>, a: seq<int>)
    requires |s| == |a| == N && Shape(128, 2) && 128 <= Pow2(7) && Holds(R, s, a, 128, 2, 0, N)
    ensures s == Ntt(a)
  {
    hide Layer;
    forall i: nat | i < N
      ensures s[i] == Ntt(a)[i]
    {
    }
  }

  lemma ShapeEnd(nb: nat, L: nat)
    requires Shape(nb, L) && 2 <= L && L / 2 < 2
    ensures nb == 128 && L == 2
  {
  }

  lemma ShapeFits(nb: nat, L: nat, ln: nat)
    requires Shape(nb, L) && ln == L / 2 && ln >= 2
    ensures 2 * nb <= Pow2(7)
  {
    Pow2Values();
  }

  /** The transform stops when the blocks have two coefficients. */
  method NttLoop(a: seq<int>) returns (f: array<int>)
    requires |a| == N
    ensures fresh(f) && f[..] == Ntt(a)
  {
    hide Layer, Twiddle, Shape, Pow2, Cong, Factor, Ntt, Holds;
    ZetaOrder();
    f := new int[N](i requires 0 <= i < N => a[i]);
    assert f[..] == a;
    var i, ln := 0, 128;
    ghost var nb: nat, L: nat := 1, 256;
    ForwardStart(R, a);
    while ln >= 2
      invariant Shape(nb, L) && ln == L / 2 && i == nb - 1 && nb <= Pow2(R.k) && L >= 2
      invariant Holds(R, f[..], a, nb, L, 0, N)
      decreases ln
    {
      ShapeSplit(nb, L);
      ShapeFits(nb, L, ln);
      i := ForwardLayer(R, f, a, nb, ln, i);
      nb, L := 2 * nb, ln;
      ln := ln / 2;
    }
    ShapeEnd(nb, L);
    ForwardEnd(f[..], a);
  }

  method InverseBlock(f: array<int>, start: nat, ln: nat, z: int)
    requires f.Length == N && ln > 0 && start + 2 * ln <= N
    modifies f
    ensures forall i :: start <= i < start + ln ==> f[i] == MergedLow(Q, old(f[i]), old(f[i + ln]))
    ensures forall i :: start + ln <= i < start + 2 * ln ==> f[i] == MergedHigh(Q, z, old(f[i - ln]), old(f[i]))
    ensures forall i :: 0 <= i < N && !(start <= i < start + 2 * ln) ==> f[i] == old(f[i])
  {
    hide MergedLow, MergedHigh;
    for j := start to start + ln
      invariant forall i :: start <= i < j ==> f[i] == MergedLow(Q, old(f[i]), old(f[i + ln]))
      invariant forall i :: start + ln <= i < j + ln ==> f[i] == MergedHigh(Q, z, old(f[i - ln]), old(f[i]))
      invariant forall i :: 0 <= i < N && !(start <= i < j || start + ln <= i < j + ln) ==> f[i] == old(f[i])
    {
      MergedValues(z, f[j], f[j + ln]);
      var t := f[j];
      f[j] := (t + f[j + ln]) % Q;
      f[j + ln] := z * (f[j + ln] - t) % Q;
    }
  }

  lemma MergedValues(z: int, x: int, y: int)
    ensures (x + y) % Q == MergedLow(Q, x, y) && z * (y - x) % Q == MergedHigh(Q, z, x, y)
  {
    assert z * (y - x) == -z * (x - y);
  }

  method InverseLayer(f: array<int>, ghost a: seq<int>, ghost nb: nat, ln: nat, i0: nat) returns (i: nat)
    requires f.Length == |a| == N && ln >= 2 && Shape(nb, 2 * ln) && Shape(2 * nb, ln) && nb * (2 * ln) == N
    requires i0 == 2 * nb - 1 && Merged(R, f[..], a, 2, 2 * nb, ln, 0, N)
    modifies f
    ensures i == nb - 1 && Merged(R, f[..], a, 2, nb, 2 * ln, 0, N)
  {
    hide InvLayer, Shape, Pow2, MergedLow, MergedHigh, Factor, Merged;
    i := i0;
    MergedEmpty(R, f[..], a, 2, nb, 2 * ln, 0);
    var start := 0;
    ghost var b := 0;
    while start < 256
      invariant b <= nb && start == b * (2 * ln) <= N && i == 2 * nb - 1 - b
      invariant Merged(R, f[..], a, 2, nb, 2 * ln, 0, start)
      invariant Merged(R, f[..], a, 2, 2 * nb, ln, start, N)
      decreases N - start
    {
      BlocksFit(b, nb, 2 * ln);
      var z := Factor(R, i);
      i := i - 1;
      ghost var s := f[..];
      InverseBlock(f, start, ln, z);
      InverseStep(R, s, f[..], a, 2, nb, 2 * ln, ln, b, start);
      start, b := start + 2 * ln, b + 1;
    }
    AllBlocks(b, nb, 2 * ln);
  }

  method NttInvLoop(a: seq<int>) returns (f: array<int>)
    requires |a| == N
    ensures fresh(f) && f[..] == NttInv(a)
  {
    hide InvLayer, Shape, Pow2, Factor, Merged;
    f := new int[N](i requires 0 <= i < N => a[i]);
    assert f[..] == a;
    var i, ln := 127, 2;
    ghost var nb: nat := 128;
    MergedStart(R, a, 2, 128);
    while ln <= 128
      invariant Shape(nb, ln) && i == nb - 1 && ln >= 2
      invariant Merged(R, f[..], a, 2, nb, ln, 0, N)
      decreases 256 - ln
    {
      ShapeJoin(nb, ln);
      i := InverseLayer(f, a, nb / 2, ln, i);
      nb, ln := nb / 2, 2 * ln;
    }
    ShapeLast(nb, ln);
    MergedEnd(f[..], a);
    ghost var s := f[..];
    for k := 0 to N
      invariant forall t :: 0 <= t < k ==> f[t] == s[t] * INV128 % Q
      invariant forall t :: k <= t < N ==> f[t] == s[t]
    {
      f[k] := f[k] * INV128 % Q;
    }
  }

  lemma ShapeLast(nb: nat, L: nat)
    requires Shape(nb, L) && L > 128
    ensures nb == 1 && L == N
  {
  }

  lemma MergedEnd(s: seq<int>, a: seq<int>)
    requires |s| == |a| == N && Shape(1, N) && Merged(R, s, a, 2, 1, N, 0, N)
    ensures forall k :: 0 <= k < N ==> NttInv(a)[k] == s[k] * INV128 % Q
  {
    hide InvLayer;
  }

  // ---------------------------------------------------------------- inverse transforms

  lemma ScaleFull()
    ensures Scale(2, N) == 128
  {
    assert Scale(2, 8) == 4;
    assert Scale(2, 32) == 16;
    assert Scale(2, 128) == 64;
  }

  lemma IsItsTransform(a: seq<int>)
    requires |a| == N
    ensures IsTransform(R, a, Ntt(a), 2)
  {
    hide Layer;
    ZetaOrder();
    forall j: nat | j < N
      ensures Cong(Q, Ntt(a)[j], Layer(R, a, Pow2(7), 2, j))
    {
      CongMod(Q, Layer(R, a, 128, 2, j));
    }
  }

  /** The inverse transform undoes the transform, modulo q. */
  lemma InverseOfTransform(a: seq<int>)
    requires |a| == N
    ensures forall i :: 0 <= i < N ==> NttInv(Ntt(a))[i] == a[i] % Q
  {
    hide InvLayer, Layer, Ntt;
    ZetaOrder();
    IsItsTransform(a);
    ScaleFull();
    var w := Ntt(a);
    forall i: nat | i < N
      ensures NttInv(w)[i] == a[i] % Q
    {
      InvLayerOfTransform(R, a, w, 2, 1, N, i);
      LayerTop(R, a, i);
      Unscale(InvLayer(R, w, 2, 1, N, i), a[i]);
    }
  }

  lemma Unscale(x: int, y: int)
    requires Cong(Q, x, 128 * y)
    ensures x * INV128 % Q == y % Q
  {
    CongMul(Q, x, 128 * y, INV128, INV128);
    CongMul(Q, 128 * INV128, 1, y, y);
    assert (128 * y) * INV128 == (128 * INV128) * y;
  }

  lemma ScaledLayer(x: seq<int>, y: seq<int>, k: int, i: nat)
    requires |x| == |y| == N && i < N && 128 <= Pow2(7) && forall j :: 0 <= j < N ==> y[j] == x[j] * k % Q
    ensures Cong(Q, Layer(R, y, 128, 2, i), k * Layer(R, x, 128, 2, i))
  {
    BlockIndex(128, 2, i);
    var c, t := Root(R, 128 + Block(i, 2)), Place(i, 2);
    var s := seq(N, j requires 0 <= j < N => x[j] * k);
    StridedLinear(s, x, k, x, 0, t, 2, c);
    forall j | 0 <= j < N
      ensures Cong(Q, y[j], s[j])
    {
      CongMod(Q, s[j]);
    }
    StridedCong(Q, y, s, t, 2, c, c);
  }

  /** The transform undoes the inverse transform, modulo q. */
  lemma TransformOfInverse(w: seq<int>)
    requires |w| == N
    ensures forall i :: 0 <= i < N ==> Ntt(NttInv(w))[i] == w[i] % Q
  {
    hide InvLayer, Layer;
    ZetaOrder();
    var x := InvAll(R, w, 2);
    forall i: nat | i < N
      ensures Ntt(NttInv(w))[i] == w[i] % Q
    {
      ScaledLayer(x, NttInv(w), INV128, i);
      LayerOfInverse(R, w, 2, 128, 2, i);
      InvLeaf(w, i);
      Rescale(Layer(R, NttInv(w), 128, 2, i), Layer(R, x, 128, 2, i), w[i]);
    }
  }

  lemma InvLeaf(w: seq<int>, i: nat)
    requires |w| == N && i < N
    ensures InvLayer(R, w, 2, 128, 2, i) == w[i]
  {
  }

  lemma Rescale(v: int, e: int, y: int)
    requires Cong(Q, v, INV128 * e) && Cong(Q, e, 128 * y)
    ensures v % Q == y % Q
  {
    CongMul(Q, INV128, INV128, e, 128 * y);
    CongMul(Q, 128 * INV128, 1, y, y);
    assert INV128 * (128 * y) == (128 * INV128) * y;
  }

  /** The two transforms are inverse on reduced polynomials. */
  lemma Inverses(a: seq<int>)
    requires IsReduced(a)
    ensures NttInv(Ntt(a)) == a && Ntt(NttInv(a)) == a
  {
    hide Ntt, NttInv;
    InverseOfTransform(a);
    TransformOfInverse(a);
    assert forall i :: 0 <= i < N ==> a[i] % Q == a[i];
  }

  // ---------------------------------------------------------------- sums and products

  function Vadd(a: seq<int>, b: seq<int>): (r: seq<int>)
    requires |a| == |b| == N
    ensures IsReduced(r)
  {
    seq(N, i requires 0 <= i < N => (a[i] + b[i]) % Q)
  }

  function Vsub(a: seq<int>, b: seq<int>): (r: seq<int>)
    requires |a| == |b| == N
    ensures IsReduced(r)
  {
    seq(N, i requires 0 <= i < N => (a[i] - b[i]) % Q)
  }

  function Reduce(a: seq<int>): (r: seq<int>)
    requires |a| == N
    ensures IsReduced(r)
  {
    seq(N, i requires 0 <= i < N => a[i] % Q)
  }

  /** The constant term of the modulus of pair i. */
  function Gamma(i: nat): int {
    Pow(ZETA, 2 * BitRev(7, i) + 1) % Q
  }

  function PairLow(a0: int, a1: int, b0: int, b1: int, z: int): int {
    (a0 * b0 + a1 * b1 % Q * z) % Q
  }

  function PairHigh(a0: int, a1: int, b0: int, b1: int): int {
    (a0 * b1 + a1 * b0) % Q
  }

  /** The product in the transformed domain: pair by pair, modulo x^2 - gamma. */
  function MulNtt(f: seq<int>, g: seq<int>): (h: seq<int>)
    requires |f| == |g| == N
    ensures IsReduced(h)
  {
    seq(N, i requires 0 <= i < N =>
      if i % 2 == 0 then PairLow(f[i], f[i + 1], g[i], g[i + 1], Gamma(i / 2))
          else PairHigh(f[i - 1], f[i], g[i - 1], g[i]))
  }

  /** The pair i of a product. */
  lemma MulPair(f: seq<int>, g: seq<int>, i: nat)
    requires |f| == |g| == N && i < 128
    ensures MulNtt(f, g)[2 * i] == PairLow(f[2 * i], f[2 * i + 1], g[2 * i], g[2 * i + 1], Gamma(i))
    ensures MulNtt(f, g)[2 * i + 1] == PairHigh(f[2 * i], f[2 * i + 1], g[2 * i], g[2 * i + 1])
  {
    hide Gamma, PairLow, PairHigh;
  }

  method MulNttLoop(f: seq<int>, g: seq<int>) returns (h: array<int>)
    requires |f| == |g| == N
    ensures fresh(h) && h[..] == MulNtt(f, g)
  {
    hide MulNtt, Gamma, PairLow, PairHigh;
    h := new int[N](_ => 0);
    for i := 0 to 128
      invariant forall j :: 0 <= j < 2 * i ==> h[j] == MulNtt(f, g)[j]
    {
      MulPair(f, g, i);
      var z := Gamma(i);
      var a0, a1, b0, b1 := f[2 * i], f[2 * i + 1], g[2 * i], g[2 * i + 1];
      h[2 * i] := PairLow(a0, a1, b0, b1, z);
      h[2 * i + 1] := PairHigh(a0, a1, b0, b1);
    }
  }

  /** Polynomials with equal pairs are equal. */
  lemma SamePairs(a: seq<int>, b: seq<int>)
    requires |a| == |b| == N && forall i: nat :: i < 128 ==> SamePair(a, b, i)
    ensures a == b
  {
    forall k: nat | k < N
      ensures a[k] == b[k]
    {
      assert SamePair(a, b, k / 2);
      assert k == 2 * (k / 2) || k == 2 * (k / 2) + 1;
    }
  }

  ghost predicate SamePair(a: seq<int>, b: seq<int>, i: nat)
    requires |a| == |b| == N && i < 128
  {
    a[2 * i] == b[2 * i] && a[2 * i + 1] == b[2 * i + 1]
  }

  // ---------------------------------------------------------------- the transform respects sums and products

  /** A combination of two polynomials modulo q has the same combination of transforms. */
  lemma CombinedLayer(s: seq<int>, a: seq<int>, u: int, b: seq<int>, v: int, i: nat)
    requires |s| == |a| == |b| == N && i < N && 128 <= Pow2(7)
    requires forall j :: 0 <= j < N ==> s[j] == (u * a[j] + v * b[j]) % Q
    ensures Layer(R, s, 128, 2, i) % Q == (u * (Layer(R, a, 128, 2, i) % Q) + v * (Layer(R, b, 128, 2, i) % Q)) % Q
  {
    BlockIndex(128, 2, i);
    var c, t := Root(R, 128 + Block(i, 2)), Place(i, 2);
    var w := seq(N, j requires 0 <= j < N => u * a[j] + v * b[j]);
    StridedLinear(w, a, u, b, v, t, 2, c);
    forall j | 0 <= j < N
      ensures Cong(Q, s[j], w[j])
    {
      CongMod(Q, w[j]);
    }
    StridedCong(Q, s, w, t, 2, c, c);
    CombinedRemainders(u, Strided(a, t, 2, c), v, Strided(b, t, 2, c), Strided(s, t, 2, c));
  }

  lemma CombinedRemainders(u: int, x: int, v: int, y: int, s: int)
    requires Cong(Q, s, u * x + v * y)
    ensures s % Q == (u * (x % Q) + v * (y % Q)) % Q
  {
    CongMod(Q, x);
    CongMod(Q, y);
    CongMul(Q, u, u, x % Q, x);
    CongMul(Q, v, v, y % Q, y);
    CongAdd(Q, u * (x % Q), u * x, v * (y % Q), v * y);
  }

  lemma NttAdditive(a: seq<int>, b: seq<int>)
    requires |a| == |b| == N
    ensures Ntt(Vadd(a, b)) == Vadd(Ntt(a), Ntt(b))
    ensures Ntt(Vsub(a, b)) == Vsub(Ntt(a), Ntt(b))
  {
    hide Layer;
    ZetaOrder();
    forall i: nat | i < N
      ensures Ntt(Vadd(a, b))[i] == Vadd(Ntt(a), Ntt(b))[i]
      ensures Ntt(Vsub(a, b))[i] == Vsub(Ntt(a), Ntt(b))[i]
    {
      CombinedLayer(Vadd(a, b), a, 1, b, 1, i);
      CombinedLayer(Vsub(a, b), a, 1, b, -1, i);
    }
  }

  lemma NttInvAdditive(a: seq<int>, b: seq<int>)
    requires IsReduced(a) && IsReduced(b)
    ensures NttInv(Vadd(a, b)) == Vadd(NttInv(a), NttInv(b))
    ensures NttInv(Vsub(a, b)) == Vsub(NttInv(a), NttInv(b))
  {
    hide Ntt, NttInv, Vadd, Vsub;
    NttAdditive(NttInv(a), NttInv(b));
    Inverses(a);
    Inverses(b);
    Inverses(Vadd(NttInv(a), NttInv(b)));
    Inverses(Vsub(NttInv(a), NttInv(b)));
  }

  lemma RootPower(e: nat)
    ensures Cong(Q, Pow(Pow(ZETA, 2 * e + 1), 128), -1)
  {
    hide Pow;
    ZetaOrder();
    PowMul(ZETA, 2 * e + 1, 128);
    PowMul(ZETA, 128, 2 * e + 1);
    PowCong(Q, Pow(ZETA, 128), -1, 2 * e + 1);
    PowOdd(e);
  }

  /** The power of zeta that pair i of a transform reduces by. */
  function PairRoot(i: nat): int {
    Pow(ZETA, 2 * BitRev(7, i) + 1)
  }

  lemma RootOfPair(i: nat)
    requires i < 128
    ensures Pow2(7) == 128 && Root(R, 128 + i) == PairRoot(i)
  {
    hide Pow, BitRev;
    Pow2Values();
  }

  lemma NttAt(a: seq<int>, i: nat, b: nat, t: nat)
    requires |a| == N && b < 128 && t < 2 && i == b * 2 + t
    ensures Ntt(a)[i] == Strided(a, t, 2, PairRoot(b)) % Q
  {
    hide Strided, PairRoot, Root, Block, Place, Pow2;
    RootOfPair(b);
    BlockPlace(i, 2, b, t);
  }

  /** The two positions of pair i. */
  lemma NttPairValue(a: seq<int>, i: nat)
    requires |a| == N && i < 128
    ensures Ntt(a)[2 * i] == Strided(a, 0, 2, PairRoot(i)) % Q && Ntt(a)[2 * i + 1] == Strided(a, 1, 2, PairRoot(i)) % Q
  {
    hide Strided, PairRoot, Ntt;
    NttAt(a, 2 * i, i, 0);
    NttAt(a, 2 * i + 1, i, 1);
  }

  lemma PairRemainders(p0: int, p1: int, A0: int, A1: int, B0: int, B1: int, c: int)
    requires Cong(Q, p0, A0 * B0 + A1 * B1 * c) && Cong(Q, p1, A0 * B1 + A1 * B0)
    ensures p0 % Q == PairLow(A0 % Q, A1 % Q, B0 % Q, B1 % Q, c % Q)
    ensures p1 % Q == PairHigh(A0 % Q, A1 % Q, B0 % Q, B1 % Q)
  {
    hide Cong;
    var a0, a1, b0, b1, z := A0 % Q, A1 % Q, B0 % Q, B1 % Q, c % Q;
    CongMod(Q, A0);
    CongMod(Q, A1);
    CongMod(Q, B0);
    CongMod(Q, B1);
    CongMod(Q, c);
    CongMul(Q, a0, A0, b0, B0);
    CongMul(Q, a0, A0, b1, B1);
    CongMul(Q, a1, A1, b0, B0);
    CongMul(Q, a1, A1, b1, B1);
    CongMod(Q, a1 * b1);
    CongTrans(Q, a1 * b1 % Q, a1 * b1, A1 * B1);
    CongMul(Q, a1 * b1 % Q, A1 * B1, z, c);
    CongAdd(Q, a0 * b0, A0 * B0, a1 * b1 % Q * z, A1 * B1 * c);
    CongAdd(Q, a0 * b1, A0 * B1, a1 * b0, A1 * B0);
    SameRemainder(Q, p0, a0 * b0 + a1 * b1 % Q * z, A0 * B0 + A1 * B1 * c);
    SameRemainder(Q, p1, a0 * b1 + a1 * b0, A0 * B1 + A1 * B0);
  }

  /** The transform of a product modulo x^256 + 1 is the product of the transforms, pair by pair. */
  lemma NttProduct(a: seq<int>, b: seq<int>)
    requires |a| == |b| == N
    ensures Ntt(NegMul(a, b)) == MulNtt(Ntt(a), Ntt(b))
  {
    hide NegMul, Ntt, MulNtt;
    forall i: nat | i < 128
      ensures SamePair(Ntt(NegMul(a, b)), MulNtt(Ntt(a), Ntt(b)), i)
    {
      NttPair(a, b, i);
    }
    SamePairs(Ntt(NegMul(a, b)), MulNtt(Ntt(a), Ntt(b)));
  }

  lemma NttPair(a: seq<int>, b: seq<int>, i: nat)
    requires |a| == |b| == N && i < 128
    ensures SamePair(Ntt(NegMul(a, b)), MulNtt(Ntt(a), Ntt(b)), i)
  {
    hide NegMul, Strided, Ntt, PairLow, PairHigh, MulNtt, PairRoot, Gamma;
    var c, p := PairRoot(i), NegMul(a, b);
    PairRootPower(i);
    PairProduct(Q, a, b, c);
    NttPairValue(a, i);
    NttPairValue(b, i);
    NttPairValue(p, i);
    MulPair(Ntt(a), Ntt(b), i);
    PairRemainders(Strided(p, 0, 2, c), Strided(p, 1, 2, c), Strided(a, 0, 2, c), Strided(a, 1, 2, c),
                   Strided(b, 0, 2, c), Strided(b, 1, 2, c), c);
  }

  lemma PairRootPower(i: nat)
    ensures Cong(Q, Pow(PairRoot(i), N / 2), -1) && Gamma(i) == PairRoot(i) % Q
  {
    RootPower(BitRev(7, i));
  }

  /** Multiplying transforms multiplies polynomials modulo x^256 + 1 and q. */
  lemma TransformedProduct(a: seq<int>, b: seq<int>)
    requires |a| == |b| == N
    ensures NttInv(MulNtt(Ntt(a), Ntt(b))) == Reduce(NegMul(a, b))
  {
    hide NegMul, Ntt, NttInv, MulNtt;
    NttProduct(a, b);
    InverseOfTransform(NegMul(a, b));
    assert forall i :: 0 <= i < N ==> NttInv(MulNtt(Ntt(a), Ntt(b)))[i] == Reduce(NegMul(a, b))[i];
  }

  // ---------------------------------------------------------------- laws of the product

  lemma MulCommutes(f: seq<int>, g: seq<int>)
    requires |f| == |g| == N
    ensures MulNtt(f, g) == MulNtt(g, f)
  {
    hide Gamma;
  }

  /** The value of a low coefficient before reduction. */
  lemma LowValue(a0: int, a1: int, b0: int, b1: int, z: int)
    ensures Cong(Q, PairLow(a0, a1, b0, b1, z), a0 * b0 + a1 * b1 * z)
    ensures Cong(Q, PairHigh(a0, a1, b0, b1), a0 * b1 + a1 * b0)
  {
    hide Cong;
    CongMod(Q, a1 * b1);
    CongScale(Q, z, a1 * b1 % Q, a1 * b1);
    CongSelf(Q, a0 * b0);
    assert z * (a1 * b1 % Q) == a1 * b1 % Q * z && z * (a1 * b1) == a1 * b1 * z;
    CongAdd(Q, a0 * b0, a0 * b0, a1 * b1 % Q * z, a1 * b1 * z);
    CongMod(Q, a0 * b0 + a1 * b1 % Q * z);
    CongTrans(Q, PairLow(a0, a1, b0, b1, z), a0 * b0 + a1 * b1 % Q * z, a0 * b0 + a1 * b1 * z);
    CongMod(Q, a0 * b1 + a1 * b0);
  }

  /** Products of pairs with congruent factors are equal. */
  lemma LowOf(a0: int, a1: int, b0: int, b1: int, z: int, B0: int, B1: int)
    requires Cong(Q, b0, B0) && Cong(Q, b1, B1)
    ensures Cong(Q, PairLow(a0, a1, b0, b1, z), a0 * B0 + a1 * B1 * z)
    ensures Cong(Q, PairHigh(a0, a1, b0, b1), a0 * B1 + a1 * B0)
  {
    hide Cong, PairLow, PairHigh;
    LowValue(a0, a1, b0, b1, z);
    CongScale(Q, a0, b0, B0);
    CongScale(Q, a0, b1, B1);
    CongScale(Q, a1, b0, B0);
    CongScale(Q, a1 * z, b1, B1);
    assert a1 * z * b1 == a1 * b1 * z && a1 * z * B1 == a1 * B1 * z;
    CongAdd(Q, a0 * b0, a0 * B0, a1 * b1 * z, a1 * B1 * z);
    CongAdd(Q, a0 * b1, a0 * B1, a1 * b0, a1 * B0);
    CongTrans(Q, PairLow(a0, a1, b0, b1, z), a0 * b0 + a1 * b1 * z, a0 * B0 + a1 * B1 * z);
    CongTrans(Q, PairHigh(a0, a1, b0, b1), a0 * b1 + a1 * b0, a0 * B1 + a1 * B0);
  }

  lemma AssociatePair(a0: int, a1: int, b0: int, b1: int, c0: int, c1: int, z: int)
    ensures PairLow(a0, a1, PairLow(b0, b1, c0, c1, z), PairHigh(b0, b1, c0, c1), z) ==
            PairLow(c0, c1, PairLow(a0, a1, b0, b1, z), PairHigh(a0, a1, b0, b1), z)
    ensures PairHigh(a0, a1, PairLow(b0, b1, c0, c1, z), PairHigh(b0, b1, c0, c1)) ==
            PairHigh(c0, c1, PairLow(a0, a1, b0, b1, z), PairHigh(a0, a1, b0, b1))
  {
    hide Cong, PairLow, PairHigh;
    var l, h := PairLow(b0, b1, c0, c1, z), PairHigh(b0, b1, c0, c1);
    var l', h' := PairLow(a0, a1, b0, b1, z), PairHigh(a0, a1, b0, b1);
    LowValue(b0, b1, c0, c1, z);
    LowValue(a0, a1, b0, b1, z);
    LowOf(a0, a1, l, h, z, b0 * c0 + b1 * c1 * z, b0 * c1 + b1 * c0);
    LowOf(c0, c1, l', h', z, a0 * b0 + a1 * b1 * z, a0 * b1 + a1 * b0);
    AssociateIdentity(a0, a1, b0, b1, c0, c1, z);
    PairsReduced(a0, a1, l, h, z);
    PairsReduced(c0, c1, l', h', z);
    SameRemainder(Q, PairLow(a0, a1, l, h, z), PairLow(c0, c1, l', h', z),
        a0 * (b0 * c0 + b1 * c1 * z) + a1 * (b0 * c1 + b1 * c0) * z);
    SameRemainder(Q, PairHigh(a0, a1, l, h), PairHigh(c0, c1, l', h'),
        a0 * (b0 * c1 + b1 * c0) + a1 * (b0 * c0 + b1 * c1 * z));
  }

  lemma PairsReduced(a0: int, a1: int, b0: int, b1: int, z: int)
    ensures PairLow(a0, a1, b0, b1, z) % Q == PairLow(a0, a1, b0, b1, z)
    ensures PairHigh(a0, a1, b0, b1) % Q == PairHigh(a0, a1, b0, b1)
  {
  }

  lemma AssociateIdentity(a0: int, a1: int, b0: int, b1: int, c0: int, c1: int, z: int)
    ensures a0 * (b0 * c0 + b1 * c1 * z) + a1 * (b0 * c1 + b1 * c0) * z ==
            c0 * (a0 * b0 + a1 * b1 * z) + c1 * (a0 * b1 + a1 * b0) * z
    ensures a0 * (b0 * c1 + b1 * c0) + a1 * (b0 * c0 + b1 * c1 * z) ==
            c0 * (a0 * b1 + a1 * b0) + c1 * (a0 * b0 + a1 * b1 * z)
  {
    Distribute(a0, b0 * c0, b1 * c1 * z);
    Distribute(a1, b0 * c1, b1 * c0);
    Distribute(z, a1 * (b0 * c1), a1 * (b1 * c0));
    Distribute(c0, a0 * b0, a1 * b1 * z);
    Distribute(c1, a0 * b1, a1 * b0);
    Distribute(z, c1 * (a0 * b1), c1 * (a1 * b0));
    Distribute(a0, b0 * c1, b1 * c0);
    Distribute(a1, b0 * c0, b1 * c1 * z);
    Distribute(c0, a0 * b1, a1 * b0);
    Distribute(c1, a0 * b0, a1 * b1 * z);
    Rotate(a0, b0, c0);
    Rotate(a1, b1, c0);
    Rotate(a0, b1, c1);
    Rotate(a1, b0, c1);
    Rotate(a0, b0, c1);
    Rotate(a0, b1, c0);
    Rotate(a1, b0, c0);
    Rotate(a1, b1, c1);
    MoveFactor(a0, b1 * c1, z);
    MoveFactor(c0, a1 * b1, z);
    MoveFactor(a1, b1 * c1, z);
    MoveFactor(c1, a1 * b1, z);
  }

  lemma Distribute(x: int, y: int, w: int)
    ensures x * (y + w) == x * y + x * w && (y + w) * x == x * y + x * w
  {
  }

  lemma Rotate(a: int, b: int, c: int)
    ensures a * (b * c) == c * (a * b)
  {
  }

  lemma MoveFactor(a: int, p: int, z: int)
    ensures a * (p * z) == z * (a * p)
  {
  }

  /** a (b c) = c (a b). */
  lemma MulRotates(a: seq<int>, b: seq<int>, c: seq<int>)
    requires |a| == |b| == |c| == N
    ensures MulNtt(a, MulNtt(b, c)) == MulNtt(c, MulNtt(a, b))
  {
    hide MulNtt, Gamma, PairLow, PairHigh;
    forall i: nat | i < 128
      ensures SamePair(MulNtt(a, MulNtt(b, c)), MulNtt(c, MulNtt(a, b)), i)
    {
      MulPair(b, c, i);
      MulPair(a, b, i);
      MulPair(a, MulNtt(b, c), i);
      MulPair(c, MulNtt(a, b), i);
      AssociatePair(a[2 * i], a[2 * i + 1], b[2 * i], b[2 * i + 1], c[2 * i], c[2 * i + 1], Gamma(i));
    }
    SamePairs(MulNtt(a, MulNtt(b, c)), MulNtt(c, MulNtt(a, b)));
  }

  lemma DistributePair(a0: int, a1: int, b0: int, b1: int, c0: int, c1: int, z: int)
    ensures PairLow(a0, a1, (b0 + c0) % Q, (b1 + c1) % Q, z) == (PairLow(a0, a1, b0, b1, z) + PairLow(a0, a1, c0, c1,
            z)) % Q
    ensures PairHigh(a0, a1, (b0 + c0) % Q, (b1 + c1) % Q) == (PairHigh(a0, a1, b0, b1) + PairHigh(a0, a1, c0, c1)) % Q
  {
    hide Cong, PairLow, PairHigh;
    CongMod(Q, b0 + c0);
    CongMod(Q, b1 + c1);
    LowOf(a0, a1, (b0 + c0) % Q, (b1 + c1) % Q, z, b0 + c0, b1 + c1);
    LowValue(a0, a1, b0, b1, z);
    LowValue(a0, a1, c0, c1, z);
    CongAdd(Q, PairLow(a0, a1, b0, b1, z), a0 * b0 + a1 * b1 * z, PairLow(a0, a1, c0, c1, z), a0 * c0 + a1 * c1 * z);
    CongAdd(Q, PairHigh(a0, a1, b0, b1), a0 * b1 + a1 * b0, PairHigh(a0, a1, c0, c1), a0 * c1 + a1 * c0);
    DistributeIdentity(a0, a1, b0, b1, c0, c1, z);
    PairsReduced(a0, a1, (b0 + c0) % Q, (b1 + c1) % Q, z);
    SameRemainder(Q, PairLow(a0, a1, (b0 + c0) % Q, (b1 + c1) % Q, z), PairLow(a0, a1, b0, b1, z) + PairLow(a0, a1, c0,
        c1, z),
                  a0 * (b0 + c0) + a1 * (b1 + c1) * z);
    SameRemainder(Q, PairHigh(a0, a1, (b0 + c0) % Q, (b1 + c1) % Q), PairHigh(a0, a1, b0, b1) + PairHigh(a0, a1, c0,
        c1),
                  a0 * (b1 + c1) + a1 * (b0 + c0));
  }

  lemma DistributeIdentity(a0: int, a1: int, b0: int, b1: int, c0: int, c1: int, z: int)
    ensures a0 * (b0 + c0) + a1 * (b1 + c1) * z == a0 * b0 + a1 * b1 * z + (a0 * c0 + a1 * c1 * z)
    ensures a0 * (b1 + c1) + a1 * (b0 + c0) == a0 * b1 + a1 * b0 + (a0 * c1 + a1 * c0)
  {
  }

  /** The product distributes over sums. */
  lemma MulDistributes(a: seq<int>, b: seq<int>, c: seq<int>)
    requires |a| == |b| == |c| == N
    ensures MulNtt(a, Vadd(b, c)) == Vadd(MulNtt(a, b), MulNtt(a, c))
  {
    hide MulNtt, Gamma, PairLow, PairHigh;
    forall i: nat | i < 128
      ensures SamePair(MulNtt(a, Vadd(b, c)), Vadd(MulNtt(a, b), MulNtt(a, c)), i)
    {
      MulPair(a, b, i);
      MulPair(a, c, i);
      MulPair(a, Vadd(b, c), i);
      DistributePair(a[2 * i], a[2 * i + 1], b[2 * i], b[2 * i + 1], c[2 * i], c[2 * i + 1], Gamma(i));
    }
    SamePairs(MulNtt(a, Vadd(b, c)), Vadd(MulNtt(a, b), MulNtt(a, c)));
  }
}
