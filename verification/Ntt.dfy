/**
 The theory behind the number-theoretic transforms of ML-DSA (complete, q = 8380417) and ML-KEM (incomplete, q = 3329).

 Both transforms work on 256 coefficients in place.  When the blocks have length L, block b holds the remainder of the
 polynomial modulo x^L - c for one power c of the root of unity; coefficient j of that remainder is the strided sum
 a[j] + a[j+L]*c + a[j+2L]*c^2 + ..., which `Strided` defines on the integers.
 */
module NttTheory {
  import opened Modular

  /** The prime, a root zeta with zeta^(2^k) = -1 modulo q, and k: 8 for ML-DSA, 7 for ML-KEM. */
  datatype Ring = Ring(q: int, zeta: int, k: nat) {
    ghost predicate Valid() {
      q > 2 && k <= 8 && Cong(q, Pow(zeta, Pow2(k)), -1)
    }
  }

  const N: nat := 256

  // ---------------------------------------------------------------- bit reversal

  function BitRev(k: nat, x: nat): nat {
    if k == 0 then 0 else (if x % 2 == 1 then Pow2(k - 1) else 0) + BitRev(k - 1, x / 2)
  }

  lemma {:induction false} BitRevLow(k: nat, x: nat)
    requires x < Pow2(k)
    ensures BitRev(k + 1, x) == 2 * BitRev(k, x)
    ensures BitRev(k + 1, Pow2(k) + x) == 2 * BitRev(k, x) + 1
  {
    if k > 0 {
      BitRevLow(k - 1, x / 2);
      assert (Pow2(k) + x) % 2 == x % 2 && (Pow2(k) + x) / 2 == Pow2(k - 1) + x / 2;
    }
  }

  /** The twiddle factors that the forward and the inverse loop pair up have exponents that add up to 2^k. */
  lemma {:induction false} BitRevComplement(k: nat, e: nat, b: nat)
    requires e < k && b < Pow2(e)
    ensures Pow2(e + 1) - 1 - b >= 0
    ensures BitRev(k, Pow2(e) + b) + BitRev(k, Pow2(e + 1) - 1 - b) == Pow2(k)
  {
    var x, y := Pow2(e) + b, Pow2(e + 1) - 1 - b;
    if e == 0 {
      BitRevZero(k - 1);
    } else {
      BitRevComplement(k - 1, e - 1, b / 2);
      assert x / 2 == Pow2(e - 1) + b / 2 && y / 2 == Pow2(e) - 1 - b / 2;
      assert x % 2 + y % 2 == 1;
    }
  }

  lemma BitRevZero(k: nat)
    ensures BitRev(k, 0) == 0
  {
  }

  // ---------------------------------------------------------------- moduli of the blocks

  /** Exponent of the root of block m: block 1 is x^256 + 1 and blocks 2m, 2m+1 are the two halves of block m. */
  function RootExp(k: nat, m: nat): nat
    requires m < 2 * Pow2(k)
  {
    if m < Pow2(k) then 2 * BitRev(k, m) else 2 * BitRev(k, m - Pow2(k)) + 1
  }

  function Root(R: Ring, m: nat): int
    requires m < 2 * Pow2(R.k)
  {
    Pow(R.zeta, RootExp(R.k, m))
  }

  /** The entry m of the table of twiddle factors, zeta^brv(m), before reduction. */
  function Twiddle(R: Ring, m: nat): int {
    Pow(R.zeta, BitRev(R.k, m))
  }

  lemma RootExpSplit(k: nat, m: nat)
    requires 1 <= m < Pow2(k)
    ensures RootExp(k, 2 * m) == BitRev(k, m)
    ensures RootExp(k, 2 * m + 1) == BitRev(k, m) + Pow2(k)
  {
    hide BitRev, RootExp;
    if m < Pow2(k - 1) {
      RootExpSplitLow(k, m);
    } else {
      RootExpSplitHigh(k, m - Pow2(k - 1));
    }
  }

  lemma RootExpSplitLow(k: nat, m: nat)
    requires k > 0 && m < Pow2(k - 1)
    ensures RootExp(k, 2 * m) == BitRev(k, m)
    ensures RootExp(k, 2 * m + 1) == BitRev(k, m) + Pow2(k)
  {
    BitRevLow(k - 1, m);
    BitRevStep(k, m);
  }

  lemma RootExpSplitHigh(k: nat, x: nat)
    requires k > 0 && x < Pow2(k - 1)
    ensures var m := Pow2(k - 1) + x;
            RootExp(k, 2 * m) == BitRev(k, m) && RootExp(k, 2 * m + 1) == BitRev(k, m) + Pow2(k)
  {
    BitRevLow(k - 1, x);
    BitRevStep(k, x);
    assert 2 * (Pow2(k - 1) + x) - Pow2(k) == 2 * x;
  }

  lemma BitRevStep(k: nat, x: nat)
    requires k > 0
    ensures BitRev(k, 2 * x) == BitRev(k - 1, x)
    ensures BitRev(k, 2 * x + 1) == Pow2(k - 1) + BitRev(k - 1, x)
  {
    Halves(x);
  }

  lemma Halves(x: nat)
    ensures (2 * x) % 2 == 0 && (2 * x) / 2 == x && (2 * x + 1) % 2 == 1 && (2 * x + 1) / 2 == x
  {
  }

  lemma RootSplit(R: Ring, m: nat)
    requires R.Valid() && 1 <= m < Pow2(R.k)
    ensures Root(R, m) == Twiddle(R, m) * Twiddle(R, m)
    ensures Root(R, 2 * m) == Twiddle(R, m)
    ensures Cong(R.q, Root(R, 2 * m + 1), -Twiddle(R, m))
  {
    PowAdd(R.zeta, BitRev(R.k, m), BitRev(R.k, m));
    RootExpSplit(R.k, m);
    PowAdd(R.zeta, BitRev(R.k, m), Pow2(R.k));
    CongMul(R.q, Twiddle(R, m), Twiddle(R, m), Pow(R.zeta, Pow2(R.k)), -1);
  }

  /** Forward factor of block 2^e + b times inverse factor 2^(e+1) - 1 - b is -1. */
  lemma TwiddleInverse(R: Ring, e: nat, b: nat)
    requires R.Valid() && e < R.k && b < Pow2(e)
    ensures Pow2(e + 1) - 1 - b >= 0
    ensures Cong(R.q, Twiddle(R, Pow2(e) + b) * Twiddle(R, Pow2(e + 1) - 1 - b), -1)
  {
    BitRevComplement(R.k, e, b);
    PowAdd(R.zeta, BitRev(R.k, Pow2(e) + b), BitRev(R.k, Pow2(e + 1) - 1 - b));
  }

  // ---------------------------------------------------------------- strided sums

  function Strided(a: seq<int>, j: nat, n: nat, c: int): int
    requires n > 0
    decreases |a| - j
  {
    if j >= |a| then 0 else a[j] + c * Strided(a, j + n, n, c)
  }

  /** Value of the polynomial a at c. */
  function Eval(a: seq<int>, c: int): int {
    Strided(a, 0, 1, c)
  }

  lemma {:induction false} StridedSplit(a: seq<int>, j: nat, n: nat, z: int)
    requires n > 0
    ensures Strided(a, j, n, z) == Strided(a, j, 2 * n, z * z) + z * Strided(a, j + n, 2 * n, z * z)
    decreases |a| - j
  {
    if j < |a| {
      StridedSplit(a, j + n, n, z);
      assert Strided(a, j, 2 * n, z * z) == a[j] + (z * z) * Strided(a, j + n + n, 2 * n, z * z);
      var u, v := Strided(a, j + n, 2 * n, z * z), Strided(a, j + n + n, 2 * n, z * z);
      assert z * (u + z * v) == z * u + (z * z) * v;
    }
  }

  lemma {:induction false} StridedCong(q: int, a: seq<int>, b: seq<int>, j: nat, n: nat, c: int, d: int)
    requires n > 0 && q > 0 && Cong(q, c, d)
    requires |a| == |b| && forall i :: 0 <= i < |a| ==> Cong(q, a[i], b[i])
    ensures Cong(q, Strided(a, j, n, c), Strided(b, j, n, d))
    decreases |a| - j
  {
    if j < |a| {
      StridedCong(q, a, b, j + n, n, c, d);
      CongMul(q, c, d, Strided(a, j + n, n, c), Strided(b, j + n, n, d));
      CongAdd(q, a[j], b[j], c * Strided(a, j + n, n, c), d * Strided(b, j + n, n, d));
    }
  }

  /** Strided sums are linear: s is the combination u*a + v*b coefficient by coefficient. */
  lemma {:induction false} StridedLinear(s: seq<int>, a: seq<int>, u: int, b: seq<int>, v: int, j: nat, n: nat, c: int)
    requires n > 0 && |s| == |a| == |b| && forall i :: 0 <= i < |a| ==> s[i] == u * a[i] + v * b[i]
    ensures Strided(s, j, n, c) == u * Strided(a, j, n, c) + v * Strided(b, j, n, c)
    decreases |a| - j
  {
    if j < |a| {
      StridedLinear(s, a, u, b, v, j + n, n, c);
      LinearStep(c, u, Strided(a, j + n, n, c), a[j], v, Strided(b, j + n, n, c), b[j]);
    }
  }

  lemma LinearStep(c: int, u: int, x: int, a: int, v: int, y: int, b: int)
    ensures u * a + v * b + c * (u * x + v * y) == u * (a + c * x) + v * (b + c * y)
  {
  }

  // ---------------------------------------------------------------- one layer

  /** nb blocks of length L make up the 256 coefficients, and both are powers of two. */
  predicate Shape(nb: nat, L: nat) {
    || (nb == 1 && L == 256) || (nb == 2 && L == 128) || (nb == 4 && L == 64)
    || (nb == 8 && L == 32) || (nb == 16 && L == 16) || (nb == 32 && L == 8)
    || (nb == 64 && L == 4) || (nb == 128 && L == 2) || (nb == 256 && L == 1)
  }

  /** The block that position i lies in, and its place there. */
  function Block(i: nat, L: nat): nat
    requires L > 0
  {
    i / L
  }

  function Place(i: nat, L: nat): nat
    requires L > 0
  {
    i % L
  }

  lemma BlockPlace(i: nat, L: nat, b: nat, t: nat)
    requires t < L && i == b * L + t
    ensures Block(i, L) == b && Place(i, L) == t
  {
    DivModUnique(i, L, b, t);
  }

  lemma BlockIndex(nb: nat, L: nat, i: nat)
    requires Shape(nb, L) && i < N
    ensures L > 0 && Block(i, L) < nb && i == Block(i, L) * L + Place(i, L) && Place(i, L) < L
  {
  }

  /** Contents of position i when there are nb blocks of length L. */
  function Layer(R: Ring, a: seq<int>, nb: nat, L: nat, i: nat): int
    requires Shape(nb, L) && i < N && nb <= Pow2(R.k)
  {
    BlockIndex(nb, L, i);
    Strided(a, Place(i, L), L, Root(R, nb + Block(i, L)))
  }

  /** Positions i and i + L of the same block of length 2L, as positions of blocks of length L. */
  lemma PairIndex(nb: nat, L: nat, i: nat)
    requires L > 0 && Shape(nb, 2 * L) && i < N && Place(i, 2 * L) < L
    ensures Shape(2 * nb, L) && i + L < N && Block(i, 2 * L) < nb
    ensures var b, t := Block(i, 2 * L), Place(i, 2 * L);
            Block(i + L, 2 * L) == b && Place(i + L, 2 * L) == t + L &&
            Block(i, L) == 2 * b && Place(i, L) == t && Block(i + L, L) == 2 * b + 1 && Place(i + L, L) == t
  {
    hide Shape, Block, Place;
    var b, t := Block(i, 2 * L), Place(i, 2 * L);
    BlockIndex(nb, 2 * L, i);
    PairFits(nb, L, b, t);
    PairBlocks(i, b, L, t);
  }

  lemma PairFits(nb: nat, L: nat, b: nat, t: nat)
    requires L > 0 && Shape(nb, 2 * L) && b < nb && t < L
    ensures Shape(2 * nb, L) && b * (2 * L) + t + L < N
  {
    MulMono(b + 1, nb, 2 * L);
  }

  lemma PairBlocks(i: nat, b: nat, L: nat, t: nat)
    requires t < L && i == b * (2 * L) + t
    ensures Block(i + L, 2 * L) == b && Place(i + L, 2 * L) == t + L
    ensures Block(i, L) == 2 * b && Place(i, L) == t
    ensures Block(i + L, L) == 2 * b + 1 && Place(i + L, L) == t
  {
    hide Block, Place;
    assert i == (2 * b) * L + t && i + L == (2 * b + 1) * L + t;
    BlockPlace(i + L, 2 * L, b, t + L);
    BlockPlace(i, L, 2 * b, t);
    BlockPlace(i + L, L, 2 * b + 1, t);
  }

  /** The Cooley-Tukey butterfly: from blocks of length 2L to blocks of length L. */
  lemma Butterfly(R: Ring, a: seq<int>, nb: nat, L: nat, i: nat)
    requires R.Valid() && L > 0 && Shape(nb, 2 * L) && 2 * nb <= Pow2(R.k) && i < N && Place(i, 2 * L) < L
    ensures Shape(2 * nb, L) && i + L < N && Block(i, 2 * L) < nb
    ensures var z := Twiddle(R, nb + Block(i, 2 * L));
            Cong(R.q, Layer(R, a, 2 * nb, L, i), Layer(R, a, nb, 2 * L, i) + z * Layer(R, a, nb, 2 * L, i + L)) &&
            Cong(R.q, Layer(R, a, 2 * nb, L, i + L), Layer(R, a, nb, 2 * L, i) - z * Layer(R, a, nb, 2 * L, i + L))
  {
    hide Shape, Strided, Root, Twiddle, RootExp, BitRev, Pow2, Block, Place, Cong;
    PairIndex(nb, L, i);
    NbPositive(nb, 2 * L);
    var m, t := nb + Block(i, 2 * L), Place(i, L);
    var z := Twiddle(R, m);
    RootSplit(R, m);
    SplitBoth(R.q, a, t, L, z, Root(R, 2 * m + 1));
  }

  lemma NbPositive(nb: nat, L: nat)
    requires Shape(nb, L)
    ensures nb > 0
  {
  }

  lemma SplitBoth(q: int, a: seq<int>, t: nat, L: nat, z: int, z': int)
    requires q > 0 && L > 0 && Cong(q, z', -z)
    ensures Cong(q, Strided(a, t, L, z), Strided(a, t, 2 * L, z * z) + z * Strided(a, t + L, 2 * L, z * z))
    ensures Cong(q, Strided(a, t, L, z'), Strided(a, t, 2 * L, z * z) - z * Strided(a, t + L, 2 * L, z * z))
  {
    hide Strided;
    StridedSplit(a, t, L, z);
    SplitNegative(a, t, L, z);
    StridedCong(q, a, a, t, L, z', -z);
  }

  lemma SplitNegative(a: seq<int>, t: nat, L: nat, z: int)
    requires L > 0
    ensures Strided(a, t, L, -z) == Strided(a, t, 2 * L, z * z) - z * Strided(a, t + L, 2 * L, z * z)
  {
    hide Strided;
    StridedSplit(a, t, L, -z);
    assert (-z) * (-z) == z * z;
  }

  /** With blocks of length 256 the layer is the polynomial itself. */
  lemma LayerTop(R: Ring, a: seq<int>, i: nat)
    requires |a| == N && i < N
    ensures Layer(R, a, 1, N, i) == a[i]
  {
    assert Strided(a, i + N, N, Root(R, 1)) == 0;
  }

  // ---------------------------------------------------------------- the inverse layers

  /** Position i once the inverse loop has merged blocks of length L0 into nb blocks of length L (Gentleman-Sande). */
  function InvLayer(R: Ring, w: seq<int>, L0: nat, nb: nat, L: nat, i: nat): int
    requires |w| == N && i < N && R.q > 0 && Shape(nb, L)
    decreases L
  {
    if L <= L0 || L == 1 then w[i]
    else
      var h := L / 2;
      PairPosition(nb, L, i);
      if Place(i, L) < h then MergedLow(R.q, InvLayer(R, w, L0, 2 * nb, h, i), InvLayer(R, w, L0, 2 * nb, h, i + h))
      else MergedHigh(R.q, Twiddle(R, 2 * nb - 1 - Block(i, L)),
                      InvLayer(R, w, L0, 2 * nb, h, i - h), InvLayer(R, w, L0, 2 * nb, h, i))
  }

  /** The two results of an inverse butterfly on x and y. */
  function MergedLow(q: int, x: int, y: int): int
    requires q > 0
  {
    (x + y) % q
  }

  function MergedHigh(q: int, z: int, x: int, y: int): int
    requires q > 0
  {
    (-z * (x - y)) % q
  }

  /** i belongs to a pair of its block whose lower position is i or i - L/2. */
  lemma PairPosition(nb: nat, L: nat, i: nat)
    requires Shape(nb, L) && i < N && L != 1
    ensures L > 1 && L % 2 == 0 && Shape(2 * nb, L / 2) && Block(i, L) < nb
    ensures var h := L / 2;
            (Place(i, L) < h ==> i + h < N) &&
            (Place(i, L) >= h ==> i >= h && Place(i - h, L) < h && Block(i - h, L) == Block(i, L))
  {
    hide Shape, Block, Place;
    ShapeHalf(nb, L);
    var h, b, t := L / 2, Block(i, L), Place(i, L);
    BlockIndex(nb, L, i);
    PairFits(nb, h, b, if t < h then t else t - h);
    if t >= h {
      BlockPlace(i - h, L, b, t - h);
    }
  }

  lemma ShapeHalf(nb: nat, L: nat)
    requires Shape(nb, L) && L != 1
    ensures L > 1 && L % 2 == 0 && L == 2 * (L / 2) && Shape(2 * nb, L / 2)
  {
  }

  /** Factor by which the inverse loop has scaled the blocks of length L. */
  function Scale(L0: nat, L: nat): nat {
    if L <= L0 || L <= 1 then 1 else 2 * Scale(L0, L / 2)
  }

  lemma ScaleDouble(L0: nat, L: nat)
    requires L0 < L && L > 1
    ensures Scale(L0, L) == 2 * Scale(L0, L / 2)
  {
  }

  lemma Pow2Mono(e: nat, k: nat)
    requires Pow2(e) < Pow2(k)
    ensures e < k
  {
    if k <= e {
      Pow2AtLeast(k, e);
    }
  }

  lemma {:induction false} Pow2AtLeast(k: nat, e: nat)
    requires k <= e
    ensures Pow2(k) <= Pow2(e)
  {
    if k < e {
      Pow2AtLeast(k, e - 1);
    }
  }

  lemma ShapeLog(nb: nat, L: nat) returns (e: nat)
    requires Shape(nb, L)
    ensures nb == Pow2(e)
  {
    Pow2Values();
    if
    case nb == 1 => e := 0;
    case nb == 2 => e := 1;
    case nb == 4 => e := 2;
    case nb == 8 => e := 3;
    case nb == 16 => e := 4;
    case nb == 32 => e := 5;
    case nb == 64 => e := 6;
    case nb == 128 => e := 7;
    case nb == 256 => e := 8;
  }

  lemma Pow2Values()
    ensures Pow2(0) == 1 && Pow2(1) == 2 && Pow2(2) == 4 && Pow2(3) == 8 && Pow2(4) == 16
    ensures Pow2(5) == 32 && Pow2(6) == 64 && Pow2(7) == 128 && Pow2(8) == 256
  {
    assert Pow2(2) == 4;
    assert Pow2(4) == 16;
    assert Pow2(6) == 64;
  }

  /** The factors of one butterfly and of the inverse butterfly on the same pair cancel to -1. */
  lemma PairTwiddle(R: Ring, nb: nat, L: nat, i: nat)
    requires R.Valid() && Shape(nb, L) && 2 * nb <= Pow2(R.k) && i < N
    ensures L > 0 && Block(i, L) < nb
    ensures Cong(R.q, Twiddle(R, nb + Block(i, L)) * Twiddle(R, 2 * nb - 1 - Block(i, L)), -1)
  {
    hide Twiddle, Shape, Cong, Block, Place;
    BlockIndex(nb, L, i);
    var e := ShapeLog(nb, L);
    Pow2Mono(e, R.k);
    TwiddleInverse(R, e, Block(i, L));
    assert Pow2(e + 1) == 2 * nb;
  }

  lemma CongScale(q: int, c: int, a: int, b: int)
    requires q > 0 && Cong(q, a, b)
    ensures Cong(q, c * a, c * b)
  {
    CongMul(q, c, c, a, b);
  }

  lemma CongTrans(q: int, a: int, b: int, c: int)
    requires q > 0 && Cong(q, a, b) && Cong(q, b, c)
    ensures Cong(q, a, c)
  {
  }

  /** z and z' are inverse up to the sign, so they cancel in front of anything. */
  lemma CongCancel(q: int, z: int, z': int, v: int)
    requires q > 0 && Cong(q, z * z', -1)
    ensures Cong(q, -z' * (z * v), v)
  {
    hide Cong;
    CongScale(q, -v, z * z', -1);
    CancelIdentity(z, z', v);
  }

  lemma CancelIdentity(z: int, z': int, v: int)
    ensures -v * (z * z') == -z' * (z * v) && -v * -1 == v
  {
  }

  lemma MergeSum(q: int, x: int, y: int, s: int, u: int, v: int)
    requires q > 0 && Cong(q, x, s * (u + v)) && Cong(q, y, s * (u - v))
    ensures Cong(q, (x + y) % q, (2 * s) * u)
  {
    hide Cong;
    CongAdd(q, x, s * (u + v), y, s * (u - v));
    SumDifference(s, u, v);
    CongMod(q, x + y);
    CongTrans(q, (x + y) % q, x + y, (2 * s) * u);
  }

  lemma SumDifference(s: int, u: int, v: int)
    ensures s * (u + v) + s * (u - v) == (2 * s) * u
    ensures s * (u + v) - s * (u - v) == (2 * s) * v
  {
  }

  lemma MergeDifference(q: int, x: int, y: int, s: int, u: int, z: int, v: int, z': int)
    requires q > 0 && Cong(q, x, s * (u + z * v)) && Cong(q, y, s * (u - z * v)) && Cong(q, z * z', -1)
    ensures Cong(q, (-z' * (x - y)) % q, (2 * s) * v)
  {
    hide Cong;
    CongAdd(q, x, s * (u + z * v), y, s * (u - z * v));
    SumDifference(s, u, z * v);
    CongScale(q, -z', x - y, (2 * s) * (z * v));
    CongCancel(q, z, z', (2 * s) * v);
    Commute(s, z, v, z');
    CongMod(q, -z' * (x - y));
    CongTrans(q, -z' * (x - y), -z' * ((2 * s) * (z * v)), (2 * s) * v);
    CongTrans(q, (-z' * (x - y)) % q, -z' * (x - y), (2 * s) * v);
  }

  lemma Commute(s: int, z: int, v: int, z': int)
    ensures -z' * (z * ((2 * s) * v)) == -z' * ((2 * s) * (z * v))
  {
  }

  ghost predicate IsTransform(R: Ring, a: seq<int>, w: seq<int>, L0: nat)
    requires R.q > 0
  {
    |w| == N && Shape(Pow2(R.k), L0) &&
    forall j: nat :: j < N ==> Cong(R.q, w[j], Layer(R, a, Pow2(R.k), L0, j))
  }

  /** The inverse loop run on the transform of a produces, layer by layer, the layers of a times a power of two. */
  lemma {:induction false} InvLayerOfTransform(R: Ring, a: seq<int>, w: seq<int>, L0: nat, nb: nat, L: nat, i: nat)
    requires R.Valid() && |w| == N && L0 <= L && Shape(nb, L) && i < N && nb <= Pow2(R.k)
    requires IsTransform(R, a, w, L0)
    ensures Cong(R.q, InvLayer(R, w, L0, nb, L, i), Scale(L0, L) * Layer(R, a, nb, L, i))
    decreases L
  {
    hide Layer, Twiddle, Shape, InvLayer, Scale, Pow2, Block, Place, Cong, IsTransform, MergedLow, MergedHigh;
    if L == L0 {
      InvLayerBase(R, a, w, L0, nb, i);
    } else {
      var h := L / 2;
      TransformDown(R, a, w, nb, L, L0);
      PairPosition(nb, L, i);
      var p := if Place(i, L) < h then i else i - h;
      InvLayerOfTransform(R, a, w, L0, 2 * nb, h, p);
      InvLayerOfTransform(R, a, w, L0, 2 * nb, h, p + h);
      Butterfly(R, a, nb, h, p);
      PairTwiddle(R, nb, L, i);
      InvLayerUnfold(R, w, L0, nb, L, i, p);
      MergePair(R.q, InvLayer(R, w, L0, 2 * nb, h, p), Layer(R, a, 2 * nb, h, p),
                InvLayer(R, w, L0, 2 * nb, h, p + h), Layer(R, a, 2 * nb, h, p + h),
                Scale(L0, h), Layer(R, a, nb, L, p), Twiddle(R, nb + Block(i, L)), Layer(R, a, nb, L, p + h),
                Twiddle(R, 2 * nb - 1 - Block(i, L)));
      ScaleDouble(L0, L);
    }
  }

  lemma TransformDown(R: Ring, a: seq<int>, w: seq<int>, nb: nat, L: nat, L0: nat)
    requires R.Valid() && IsTransform(R, a, w, L0) && Shape(nb, L) && L0 < L
    ensures L > 1 && L0 <= L / 2 && L == 2 * (L / 2) && 2 * nb <= Pow2(R.k)
  {
    hide Layer, Pow2;
  }

  lemma InvLayerBase(R: Ring, a: seq<int>, w: seq<int>, L0: nat, nb: nat, i: nat)
    requires R.Valid() && |w| == N && Shape(nb, L0) && i < N && nb <= Pow2(R.k) && IsTransform(R, a, w, L0)
    ensures Cong(R.q, InvLayer(R, w, L0, nb, L0, i), Scale(L0, L0) * Layer(R, a, nb, L0, i))
  {
    hide Layer, Pow2;
    ShapeUnique(nb, Pow2(R.k), L0);
  }

  lemma ShapeUnique(nb: nat, nb': nat, L: nat)
    requires Shape(nb, L) && Shape(nb', L)
    ensures nb == nb'
  {
  }

  /** One step of the inverse loop in terms of the lower position p of the pair that i belongs to. */
  lemma InvLayerUnfold(R: Ring, w: seq<int>, L0: nat, nb: nat, L: nat, i: nat, p: nat)
    requires R.q > 0 && |w| == N && L0 < L && Shape(nb, L) && L > 1 && i < N
    requires Shape(2 * nb, L / 2) && p + L / 2 < N && Block(i, L) < nb
    requires p == if Place(i, L) < L / 2 then i else i - L / 2
    ensures var x, y := InvLayer(R, w, L0, 2 * nb, L / 2, p), InvLayer(R, w, L0, 2 * nb, L / 2, p + L / 2);
            InvLayer(R, w, L0, nb, L, i) ==
            if Place(i, L) < L / 2 then MergedLow(R.q, x, y)
                else MergedHigh(R.q, Twiddle(R, 2 * nb - 1 - Block(i, L)), x, y)
  {
    hide Twiddle, Shape, Block, Place, MergedLow, MergedHigh;
  }

  lemma MergePair(q: int, x: int, lx: int, y: int, ly: int, s: int, u: int, z: int, v: int, z': int)
    requires q > 0 && Cong(q, x, s * lx) && Cong(q, lx, u + z * v) && Cong(q, y, s * ly) && Cong(q, ly, u - z * v)
    requires Cong(q, z * z', -1)
    ensures Cong(q, MergedLow(q, x, y), (2 * s) * u)
    ensures Cong(q, MergedHigh(q, z', x, y), (2 * s) * v)
  {
    hide Cong;
    CongScale(q, s, lx, u + z * v);
    CongScale(q, s, ly, u - z * v);
    CongTrans(q, x, s * lx, s * (u + z * v));
    CongTrans(q, y, s * ly, s * (u - z * v));
    MergeSum(q, x, y, s, u, z * v);
    MergeDifference(q, x, y, s, u, z, v, z');
  }

  /** All 256 positions after the inverse loop. */
  function InvAll(R: Ring, w: seq<int>, L0: nat): (x: seq<int>)
    requires |w| == N && R.q > 0
    ensures |x| == N
  {
    seq(N, i requires 0 <= i < N => InvLayer(R, w, L0, 1, N, i))
  }

  lemma SplitPair(q: int, s: int, l: int, r: int, p: int, m: int, z: int, z': int, u: int, v: int, x: int, y: int)
    requires q > 0 && Cong(q, z * z', -1)
    requires p == MergedLow(q, l, r) && m == MergedHigh(q, z', l, r)
    requires Cong(q, u, s * p) && Cong(q, v, s * m)
    requires Cong(q, x, u + z * v) && Cong(q, y, u - z * v)
    ensures Cong(q, x, (2 * s) * l) && Cong(q, y, (2 * s) * r)
  {
    hide Cong;
    SplitSum(q, s, l + r, p, u);
    SplitDifference(q, s, l - r, m, z, z', v);
    CongAdd(q, u, s * (l + r), z * v, s * (l - r));
    SumAndDifference(s, l, r);
    CongTrans(q, x, u + z * v, (2 * s) * l);
    CongTrans(q, y, u - z * v, (2 * s) * r);
  }

  lemma SumAndDifference(s: int, l: int, r: int)
    ensures s * (l + r) + s * (l - r) == (2 * s) * l
    ensures s * (l + r) - s * (l - r) == (2 * s) * r
  {
  }

  lemma SplitSum(q: int, s: int, t: int, p: int, u: int)
    requires q > 0 && p == t % q && Cong(q, u, s * p)
    ensures Cong(q, u, s * t)
  {
    hide Cong;
    CongMod(q, t);
    CongScale(q, s, p, t);
    CongTrans(q, u, s * p, s * t);
  }

  lemma SplitDifference(q: int, s: int, d: int, m: int, z: int, z': int, v: int)
    requires q > 0 && Cong(q, z * z', -1) && m == (-z' * d) % q && Cong(q, v, s * m)
    ensures Cong(q, z * v, s * d)
  {
    hide Cong;
    SplitSum(q, s, -z' * d, m, v);
    CongScale(q, z, v, s * (-z' * d));
    CongCancel(q, z, z', s * d);
    CommuteAll(s, z, z', d);
    CongTrans(q, z * v, z * (s * (-z' * d)), s * d);
  }

  lemma CommuteAll(s: int, z: int, z': int, d: int)
    ensures z * (s * (-z' * d)) == -z' * (z * (s * d))
  {
  }

  ghost predicate Undoes(R: Ring, x: seq<int>, w: seq<int>, L0: nat, nb: nat, L: nat, i: nat)
    requires R.q > 0 && |w| == N && Shape(nb, L) && i < N && nb <= Pow2(R.k)
  {
    Cong(R.q, Layer(R, x, nb, L, i), nb * InvLayer(R, w, L0, nb, L, i))
  }

  /** The layers of the polynomial that the inverse loop computes are the inverse loop's own layers, times nb. */
  lemma {:induction false} LayerOfInverse(R: Ring, w: seq<int>, L0: nat, nb: nat, L: nat, i: nat)
    requires R.Valid() && |w| == N && L0 <= L && Shape(nb, L) && i < N && nb <= Pow2(R.k)
    ensures Undoes(R, InvAll(R, w, L0), w, L0, nb, L, i)
    decreases nb
  {
    hide Layer, Twiddle, Shape, InvLayer, Pow2, Undoes, InvAll, Block, Place;
    if nb == 1 {
      LayerOfInverseTop(R, w, L0, L, i);
    } else {
      ShapeUp(nb, L);
      PairPosition(nb / 2, 2 * L, i);
      var p := if Place(i, 2 * L) < L then i else i - L;
      LayerOfInverse(R, w, L0, nb / 2, 2 * L, p);
      LayerOfInverse(R, w, L0, nb / 2, 2 * L, p + L);
      InverseSplit(R, w, L0, nb / 2, L, p, InvAll(R, w, L0));
    }
  }

  lemma LayerOfInverseTop(R: Ring, w: seq<int>, L0: nat, L: nat, i: nat)
    requires R.Valid() && |w| == N && Shape(1, L) && i < N && 1 <= Pow2(R.k)
    ensures Undoes(R, InvAll(R, w, L0), w, L0, 1, L, i)
  {
    hide Layer, Twiddle, InvLayer, Pow2;
    LayerTop(R, InvAll(R, w, L0), i);
  }

  lemma InverseSplit(R: Ring, w: seq<int>, L0: nat, n2: nat, L: nat, p: nat, x: seq<int>)
    requires R.Valid() && |w| == N && L0 < 2 * L && Shape(n2, 2 * L) && Shape(2 * n2, L) && L > 0
    requires p + L < N && Place(p, 2 * L) < L && 2 * n2 <= Pow2(R.k)
    requires Undoes(R, x, w, L0, n2, 2 * L, p) && Undoes(R, x, w, L0, n2, 2 * L, p + L)
    ensures Undoes(R, x, w, L0, 2 * n2, L, p) && Undoes(R, x, w, L0, 2 * n2, L, p + L)
  {
    hide Layer, Twiddle, Shape, InvLayer, Pow2, Cong, Block, Place, MergedLow, MergedHigh;
    Butterfly(R, x, n2, L, p);
    PairTwiddle(R, n2, 2 * L, p);
    InvPairUnfold(R, w, L0, n2, 2 * L, L, p);
    SplitPair(R.q, n2, InvLayer(R, w, L0, 2 * n2, L, p), InvLayer(R, w, L0, 2 * n2, L, p + L),
              InvLayer(R, w, L0, n2, 2 * L, p), InvLayer(R, w, L0, n2, 2 * L, p + L),
              Twiddle(R, n2 + Block(p, 2 * L)), Twiddle(R, 2 * n2 - 1 - Block(p, 2 * L)),
              Layer(R, x, n2, 2 * L, p), Layer(R, x, n2, 2 * L, p + L),
              Layer(R, x, 2 * n2, L, p), Layer(R, x, 2 * n2, L, p + L));
  }

  lemma InvPairUnfold(R: Ring, w: seq<int>, L0: nat, nb: nat, L: nat, h: nat, p: nat)
    requires R.q > 0 && |w| == N && L0 < L && Shape(nb, L) && L > 1 && L == 2 * h && Shape(2 * nb, h)
    requires p + h < N && Place(p, L) < h && Block(p, L) < nb
    ensures var x, y := InvLayer(R, w, L0, 2 * nb, h, p), InvLayer(R, w, L0, 2 * nb, h, p + h);
            InvLayer(R, w, L0, nb, L, p) == MergedLow(R.q, x, y) &&
            InvLayer(R, w, L0, nb, L, p + h) == MergedHigh(R.q, Twiddle(R, 2 * nb - 1 - Block(p, L)), x, y)
  {
    hide Twiddle, Shape, InvLayer, Block, Place, MergedLow, MergedHigh;
    PairIndex(nb, h, p);
    InvLayerUnfold(R, w, L0, nb, L, p, p);
    InvLayerUnfold(R, w, L0, nb, L, p + h, p);
  }

  lemma ShapeUp(nb: nat, L: nat)
    requires Shape(nb, L) && nb != 1
    ensures nb > 1 && nb % 2 == 0 && Shape(nb / 2, 2 * L) && L > 0
  {
  }

  // ---------------------------------------------------------------- the product modulo x^256 + 1

  /** x times b modulo x^256 + 1. */
  function ShiftNeg(b: seq<int>): (r: seq<int>)
    requires |b| == N
    ensures |r| == N
  {
    [-b[N - 1]] + b[..N - 1]
  }

  /** a times b modulo x^256 + 1, by Horner's rule on a. */
  function NegMul(a: seq<int>, b: seq<int>): (r: seq<int>)
    requires |b| == N
    ensures |r| == N
  {
    if a == [] then seq(N, _ => 0)
    else
      var s := ShiftNeg(NegMul(a[1..], b));
      seq(N, i requires 0 <= i < N => a[0] * b[i] + s[i])
  }

  /** The factor of a[i] in coefficient i + d of the product: b[d], or -b[d + 256] once x^256 = -1 has been used. */
  function Wrapped(b: seq<int>, d: int): int
    requires |b| == N && 0 <= d + N && d < N
  {
    if d >= 0 then b[d] else -b[d + N]
  }

  function CoeffSum(a: seq<int>, b: seq<int>, k: int): int
    requires |b| == N && k < N && |a| <= k + N + 1
  {
    if a == [] then 0 else a[0] * Wrapped(b, k) + CoeffSum(a[1..], b, k - 1)
  }

  /**
   Textbook form of the negacyclic product: coefficient k is the sum over i of a[i] times b[k - i], wrapped with a
   sign.
   */
  lemma {:induction false} NegMulCoefficient(a: seq<int>, b: seq<int>, k: nat)
    requires |b| == N && k < N && |a| <= N
    ensures NegMul(a, b)[k] == CoeffSum(a, b, k)
  {
    if a != [] {
      var p := NegMul(a[1..], b);
      if k > 0 {
        NegMulCoefficient(a[1..], b, k - 1);
      } else {
        NegMulCoefficient(a[1..], b, N - 1);
        CoeffSumWrap(a[1..], b, N - 1);
      }
    }
  }

  lemma {:induction false} CoeffSumWrap(a: seq<int>, b: seq<int>, k: int)
    requires |b| == N && 0 <= k < N && |a| <= k + 1
    ensures CoeffSum(a, b, k - N) == -CoeffSum(a, b, k)
  {
    if a != [] {
      if k > 0 {
        CoeffSumWrap(a[1..], b, k - 1);
      }
      assert Wrapped(b, k - N) == -Wrapped(b, k);
      assert a[0] * -Wrapped(b, k) == -(a[0] * Wrapped(b, k));
    }
  }

  function OneNorm(a: seq<int>): nat {
    if a == [] then 0 else Abs(a[0]) + OneNorm(a[1..])
  }

  function Abs(x: int): nat {
    if x < 0 then -x else x
  }

  /** No coefficient of a product exceeds the sum of the |a[i]| times the largest |b[i]|. */
  lemma {:induction false} NegMulBound(a: seq<int>, b: seq<int>, B: nat)
    requires |b| == N && forall i :: 0 <= i < N ==> Abs(b[i]) <= B
    ensures forall i :: 0 <= i < N ==> Abs(NegMul(a, b)[i]) <= OneNorm(a) * B
  {
    if a != [] {
      NegMulBound(a[1..], b, B);
      var p := NegMul(a[1..], b);
      assert OneNorm(a) * B == Abs(a[0]) * B + OneNorm(a[1..]) * B;
      forall i | 0 <= i < N
        ensures Abs(NegMul(a, b)[i]) <= OneNorm(a) * B
      {
        ProductBound(a[0], b[i], B);
        assert Abs(ShiftNeg(p)[i]) <= OneNorm(a[1..]) * B by {
          assert ShiftNeg(p)[i] == if i == 0 then -p[N - 1] else p[i - 1];
        }
        assert NegMul(a, b)[i] == a[0] * b[i] + ShiftNeg(p)[i];
      }
    }
  }

  lemma ProductBound(x: int, y: int, B: nat)
    requires Abs(y) <= B
    ensures Abs(x * y) <= Abs(x) * B
  {
    MulMono(Abs(y), B, Abs(x));
    AbsProduct(x, y);
  }

  lemma AbsProduct(x: int, y: int)
    ensures Abs(x * y) == Abs(y) * Abs(x)
  {
    if x >= 0 && y >= 0 {
    } else if x >= 0 {
      assert x * y == -(x * -y);
    } else if y >= 0 {
      assert x * y == -(-x * y);
    } else {
      assert x * y == -x * -y;
    }
  }

  lemma {:induction false} StridedSnoc(s: seq<int>, y: int, j: nat, n: nat, c: int, cnt: nat)
    requires n > 0 && |s| == j + n * cnt
    ensures Strided(s + [y], j, n, c) == Strided(s, j, n, c) + Pow(c, cnt) * y
    decreases cnt
  {
    var s' := s + [y];
    if cnt == 0 {
      assert |s| == j && s'[j] == y;
      assert Strided(s', j + n, n, c) == 0;
      assert Pow(c, 0) * y == y;
    } else {
      SnocIndex(j, n, cnt, |s|);
      StridedSnoc(s, y, j + n, n, c, cnt - 1);
      StridedHead(s, j, n, c);
      StridedHead(s', j, n, c);
      SnocStep(c, Strided(s, j + n, n, c), Pow(c, cnt - 1), y);
      assert Pow(c, cnt) == c * Pow(c, cnt - 1);
    }
  }

  lemma SnocIndex(j: nat, n: nat, cnt: nat, len: nat)
    requires n > 0 && cnt > 0 && len == j + n * cnt
    ensures len == j + n + n * (cnt - 1) && j < len
  {
  }

  lemma SnocStep(c: int, u: int, e: int, y: int)
    ensures c * (u + e * y) == c * u + (c * e) * y
  {
  }

  lemma {:induction false} StridedCons(x: int, s: seq<int>, j: nat, n: nat, c: int)
    requires n > 0
    ensures Strided([x] + s, j + 1, n, c) == Strided(s, j, n, c)
    decreases |s| - j
  {
    if j < |s| {
      StridedCons(x, s, j + n, n, c);
    }
  }

  /** Multiplying by x shifts the remainders modulo x^n - c by one place: c times the last one becomes the first. */
  lemma StridedShiftFirst(q: int, p: seq<int>, n: nat, c: int)
    requires q > 0 && |p| == N && (n == 1 || n == 2) && Cong(q, Pow(c, N / n), -1)
    ensures Cong(q, Strided(ShiftNeg(p), 0, n, c), c * Strided(p, n - 1, n, c))
  {
    hide Strided;
    var y, s := p[N - 1], p[..N - 1];
    var cnt := N / n - 1;
    assert p == s + [y];
    var u := Strided(s, n - 1, n, c);
    StridedSnoc(s, y, n - 1, n, c, cnt);
    StridedHead([-y] + s, 0, n, c);
    StridedCons(-y, s, n - 1, n, c);
    assert c * Strided(p, n - 1, n, c) == c * u + Pow(c, N / n) * y by {
      assert c * (u + Pow(c, cnt) * y) == c * u + (c * Pow(c, cnt)) * y;
    }
    CongMul(q, Pow(c, N / n), -1, y, y);
    CongAdd(q, c * u, c * u, Pow(c, N / n) * y, -1 * y);
  }

  lemma StridedHead(a: seq<int>, j: nat, n: nat, c: int)
    requires n > 0 && j < |a|
    ensures Strided(a, j, n, c) == a[j] + c * Strided(a, j + n, n, c)
  {
  }

  /** Evaluation at a root of x^256 + 1 is multiplicative. */
  lemma {:induction false} EvalProduct(q: int, a: seq<int>, b: seq<int>, c: int)
    requires q > 0 && |b| == N && Cong(q, Pow(c, N), -1)
    ensures Cong(q, Eval(NegMul(a, b), c), Eval(a, c) * Eval(b, c))
  {
    hide Strided;
    if a == [] {
      StridedZero(NegMul(a, b), 0, 1, c);
      StridedZero(a, 0, 1, c);
    } else {
      var p := NegMul(a[1..], b);
      EvalProduct(q, a[1..], b, c);
      StridedLinear(NegMul(a, b), b, a[0], ShiftNeg(p), 1, 0, 1, c);
      StridedShiftFirst(q, p, 1, c);
      StridedTail(a, 0, 1, c);
      var A, B := Eval(a[1..], c), Eval(b, c);
      CongMul(q, c, c, Eval(p, c), A * B);
      CongAdd(q, a[0] * B, a[0] * B, Eval(ShiftNeg(p), c), c * (A * B));
      assert (a[0] + c * A) * B == a[0] * B + c * (A * B);
    }
  }

  lemma {:induction false} StridedZero(a: seq<int>, j: nat, n: nat, c: int)
    requires n > 0 && forall i :: 0 <= i < |a| ==> a[i] == 0
    ensures Strided(a, j, n, c) == 0
    decreases |a| - j
  {
    if j < |a| {
      StridedZero(a, j + n, n, c);
    }
  }

  lemma StridedTail(a: seq<int>, j: nat, n: nat, c: int)
    requires n > 0 && j < |a|
    ensures Strided(a, j, n, c) == a[j] + c * Strided(a[1..], j + n - 1, n, c)
  {
    StridedCons(a[0], a[1..], j + n - 1, n, c);
    assert a == [a[0]] + a[1..];
  }

  /** Remainders modulo x^2 - c multiply as pairs: the base multiplication of the incomplete transform. */
  lemma {:induction false} PairProduct(q: int, a: seq<int>, b: seq<int>, c: int)
    requires q > 0 && |b| == N && Cong(q, Pow(c, N / 2), -1)
    ensures var p, A0, A1, B0, B1 := NegMul(a, b), Strided(a, 0, 2, c), Strided(a, 1, 2, c), Strided(b, 0, 2, c),
            Strided(b, 1, 2, c);
            Cong(q, Strided(p, 0, 2, c), A0 * B0 + A1 * B1 * c) && Cong(q, Strided(p, 1, 2, c), A0 * B1 + A1 * B0)
  {
    hide Strided;
    var B0, B1 := Strided(b, 0, 2, c), Strided(b, 1, 2, c);
    if a == [] {
      StridedZero(NegMul(a, b), 0, 2, c);
      StridedZero(NegMul(a, b), 1, 2, c);
      StridedZero(a, 0, 2, c);
      StridedZero(a, 1, 2, c);
    } else {
      var p := NegMul(a[1..], b);
      PairProduct(q, a[1..], b, c);
      var A0, A1 := Strided(a[1..], 0, 2, c), Strided(a[1..], 1, 2, c);
      StridedLinear(NegMul(a, b), b, a[0], ShiftNeg(p), 1, 0, 2, c);
      StridedLinear(NegMul(a, b), b, a[0], ShiftNeg(p), 1, 1, 2, c);
      StridedShiftFirst(q, p, 2, c);
      StridedShiftSecond(p, c);
      StridedTail(a, 0, 2, c);
      StridedSecond(a, c);
      PairStep(q, a[0], A0, A1, B0, B1, c, Strided(p, 0, 2, c), Strided(p, 1, 2, c), Strided(ShiftNeg(p), 0, 2, c));
    }
  }

  lemma PairStep(q: int, x: int, A0: int, A1: int, B0: int, B1: int, c: int, p0: int, p1: int, s0: int)
    requires q > 0 && Cong(q, p0, A0 * B0 + A1 * B1 * c) && Cong(q, p1, A0 * B1 + A1 * B0) && Cong(q, s0, c * p1)
    ensures Cong(q, x * B0 + s0, (x + c * A1) * B0 + A0 * B1 * c)
    ensures Cong(q, x * B1 + p0, (x + c * A1) * B1 + A0 * B0)
  {
    CongMul(q, c, c, p1, A0 * B1 + A1 * B0);
    CongAdd(q, x * B0, x * B0, s0, c * (A0 * B1 + A1 * B0));
    assert (x + c * A1) * B0 + A0 * B1 * c == x * B0 + c * (A0 * B1 + A1 * B0);
    CongAdd(q, x * B1, x * B1, p0, A0 * B0 + A1 * B1 * c);
    assert (x + c * A1) * B1 + A0 * B0 == x * B1 + (A0 * B0 + A1 * B1 * c);
  }

  lemma StridedShiftSecond(p: seq<int>, c: int)
    requires |p| == N
    ensures Strided(ShiftNeg(p), 1, 2, c) == Strided(p, 0, 2, c)
  {
    StridedCons(-p[N - 1], p[..N - 1], 0, 2, c);
    StridedPrefix(p, 0, c);
  }

  lemma {:induction false} StridedPrefix(p: seq<int>, j: nat, c: int)
    requires |p| == N && j % 2 == 0
    ensures Strided(p[..N - 1], j, 2, c) == Strided(p, j, 2, c)
    decreases N - j
  {
    if j < N {
      StridedPrefix(p, j + 2, c);
    }
  }

  lemma StridedSecond(a: seq<int>, c: int)
    requires |a| > 0
    ensures Strided(a, 1, 2, c) == Strided(a[1..], 0, 2, c)
  {
    StridedCons(a[0], a[1..], 0, 2, c);
    assert a == [a[0]] + a[1..];
  }
}
