/** The loops that the transforms of ML-DSA and ML-KEM share, on an array of 256 coefficients. */
module NttLoops {
  import opened Modular
  import opened NttTheory

  /** Entry m of the table of powers of zeta in bit-reversed order. */
  function Factor(R: Ring, m: nat): int
    requires R.q > 0
  {
    Twiddle(R, m) % R.q
  }

  // ---------------------------------------------------------------- the forward loop

  /** The two results of a butterfly with factor z. */
  function Up(q: int, x: int, z: int, y: int): int
    requires q > 0
  {
    (x + z * y % q) % q
  }

  function Down(q: int, x: int, z: int, y: int): int
    requires q > 0
  {
    (x - z * y % q) % q
  }

  /** Butterflies of one block: positions start.. and start + ln.. are combined with factor z. */
  method ForwardBlock(q: int, w: array<int>, start: nat, ln: nat, z: int)
    requires q > 0 && w.Length == N && ln > 0 && start + 2 * ln <= N
    modifies w
    ensures forall i :: start <= i < start + ln ==> w[i] == Up(q, old(w[i]), z, old(w[i + ln]))
    ensures forall i :: start + ln <= i < start + 2 * ln ==> w[i] == Down(q, old(w[i - ln]), z, old(w[i]))
    ensures forall i :: 0 <= i < N && !(start <= i < start + 2 * ln) ==> w[i] == old(w[i])
  {
    hide Up, Down;
    for j := start to start + ln
      invariant forall i :: start <= i < j ==> w[i] == Up(q, old(w[i]), z, old(w[i + ln]))
      invariant forall i :: start + ln <= i < j + ln ==> w[i] == Down(q, old(w[i - ln]), z, old(w[i]))
      invariant forall i :: 0 <= i < N && !(start <= i < j || start + ln <= i < j + ln) ==> w[i] == old(w[i])
    {
      ButterflyValues(q, w[j], z, w[j + ln]);
      var t := z * w[j + ln] % q;
      w[j + ln] := (w[j] - t) % q;
      w[j] := (w[j] + t) % q;
    }
  }

  lemma ButterflyValues(q: int, x: int, z: int, y: int)
    requires q > 0
    ensures Up(q, x, z, y) == (x + z * y % q) % q && Down(q, x, z, y) == (x - z * y % q) % q
  {
  }

  /** Positions lo.. of s hold layer (nb, L) of a modulo q, reduced once a layer has been computed. */
  ghost predicate Holds(R: Ring, s: seq<int>, a: seq<int>, nb: nat, L: nat, lo: nat, hi: nat)
    requires R.q > 0 && Shape(nb, L) && nb <= Pow2(R.k) && |s| == N && hi <= N
  {
    forall i: nat :: lo <= i < hi ==> Cong(R.q, s[i], Layer(R, a, nb, L, i)) && (nb > 1 ==> 0 <= s[i] < R.q)
  }

  lemma UpDownReduced(q: int, x: int, z: int, y: int)
    requires q > 0
    ensures 0 <= Up(q, x, z, y) < q && 0 <= Down(q, x, z, y) < q
  {
  }

  lemma UpDown(q: int, z: int, z': int, x: int, y: int, u: int, v: int)
    requires q > 0 && z' == z % q && Cong(q, x, u) && Cong(q, y, v)
    ensures Cong(q, Up(q, x, z', y), u + z * v) && Cong(q, Down(q, x, z', y), u - z * v)
  {
    hide Cong;
    CongMod(q, z);
    CongMul(q, z', z, y, v);
    CongMod(q, z' * y);
    CongTrans(q, z' * y % q, z' * y, z * v);
    CongAdd(q, x, u, z' * y % q, z * v);
    CongMod(q, x + z' * y % q);
    CongMod(q, x - z' * y % q);
    CongTrans(q, Up(q, x, z', y), x + z' * y % q, u + z * v);
    CongTrans(q, Down(q, x, z', y), x - z' * y % q, u - z * v);
  }

  lemma ForwardPair(R: Ring, a: seq<int>, nb: nat, ln: nat, b: nat, i: nat, x: int, y: int)
    requires R.Valid() && ln > 0 && Shape(nb, 2 * ln) && Shape(2 * nb, ln) && 2 * nb <= Pow2(R.k)
    requires i + ln < N && Block(i, 2 * ln) == b < nb && Place(i, 2 * ln) < ln
    requires Cong(R.q, x, Layer(R, a, nb, 2 * ln, i)) && Cong(R.q, y, Layer(R, a, nb, 2 * ln, i + ln))
    ensures Cong(R.q, Up(R.q, x, Factor(R, nb + b), y), Layer(R, a, 2 * nb, ln, i))
    ensures Cong(R.q, Down(R.q, x, Factor(R, nb + b), y), Layer(R, a, 2 * nb, ln, i + ln))
  {
    hide Layer, Twiddle, Shape, Pow2, Up, Down, Cong, Factor, Block, Place;
    Butterfly(R, a, nb, ln, i);
    var z, t, u, v := Factor(R, nb + b), Twiddle(R, nb + b), Layer(R, a, nb, 2 * ln, i), Layer(R, a, nb, 2 * ln,
        i + ln);
    FactorValue(R, nb + b);
    UpDown(R.q, t, z, x, y, u, v);
    CongJoin(R.q, Up(R.q, x, z, y), Layer(R, a, 2 * nb, ln, i), u + t * v);
    CongJoin(R.q, Down(R.q, x, z, y), Layer(R, a, 2 * nb, ln, i + ln), u - t * v);
  }

  lemma FactorValue(R: Ring, m: nat)
    requires R.q > 0
    ensures Factor(R, m) == Twiddle(R, m) % R.q
  {
  }

  /** After the butterflies of block b, its 2 * ln positions hold two blocks of the next layer. */
  lemma ForwardBlockDone(R: Ring, s: seq<int>, s': seq<int>, a: seq<int>, nb: nat, ln: nat, b: nat, start: nat)
    requires R.Valid() && |s| == |s'| == N && ln > 0 && Shape(nb, 2 * ln) && Shape(2 * nb, ln) && 2 * nb <= Pow2(R.k)
    requires start == b * (2 * ln) && b < nb && start + 2 * ln <= N
    requires Holds(R, s, a, nb, 2 * ln, start, start + 2 * ln)
    requires forall i :: start <= i < start + ln ==> s'[i] == Up(R.q, s[i], Factor(R, nb + b), s[i + ln])
    requires forall i :: start + ln <= i < start + 2 * ln ==> s'[i] == Down(R.q, s[i - ln], Factor(R, nb + b), s[i])
    ensures Holds(R, s', a, 2 * nb, ln, start, start + 2 * ln)
  {
    hide Layer, Twiddle, Shape, Pow2, Cong, Factor, Up, Down, Block, Place;
    forall i: nat | start <= i < start + 2 * ln
      ensures Cong(R.q, s'[i], Layer(R, a, 2 * nb, ln, i)) && 0 <= s'[i] < R.q
    {
      var p := if i < start + ln then i else i - ln;
      BlockPlace(p, 2 * ln, b, p - start);
      ForwardPair(R, a, nb, ln, b, p, s[p], s[p + ln]);
      UpDownReduced(R.q, s[p], Factor(R, nb + b), s[p + ln]);
    }
  }

  lemma ForwardStart(R: Ring, a: seq<int>)
    requires R.q > 0 && |a| == N
    ensures Shape(1, N) && 1 <= Pow2(R.k) && Holds(R, a, a, 1, N, 0, N)
  {
    hide Layer;
    forall i: nat | i < N
      ensures Layer(R, a, 1, N, i) == a[i]
    {
      LayerTop(R, a, i);
    }
  }

  lemma ShapeSplit(nb: nat, L: nat)
    requires Shape(nb, L) && L >= 2
    ensures L == 2 * (L / 2) && Shape(2 * nb, L / 2) && nb * L == N
  {
  }

  lemma ForwardStep(R: Ring, s: seq<int>, s': seq<int>, a: seq<int>, nb: nat, L: nat, ln: nat, b: nat, start: nat)
    requires R.Valid() && |s| == |s'| == N && ln > 0 && L == 2 * ln && Shape(nb, L) && Shape(2 * nb, ln) &&
             2 * nb <= Pow2(R.k)
    requires start == b * L && b < nb && start + L <= N
    requires Holds(R, s, a, 2 * nb, ln, 0, start) && Holds(R, s, a, nb, L, start, N)
    requires forall i :: start <= i < start + ln ==> s'[i] == Up(R.q, s[i], Factor(R, nb + b), s[i + ln])
    requires forall i :: start + ln <= i < start + 2 * ln ==> s'[i] == Down(R.q, s[i - ln], Factor(R, nb + b), s[i])
    requires forall i :: 0 <= i < N && !(start <= i < start + 2 * ln) ==> s'[i] == s[i]
    ensures Holds(R, s', a, 2 * nb, ln, 0, start + L) && Holds(R, s', a, nb, L, start + L, N)
  {
    hide Layer, Shape, Pow2, Up, Down, Cong, Factor;
    assert Holds(R, s, a, nb, L, start, start + L);
    ForwardBlockDone(R, s, s', a, nb, ln, b, start);
  }

  lemma BlocksFit(b: nat, nb: nat, L: nat)
    requires nb * L == N && b <= nb && b * L < N
    ensures b < nb && (b + 1) * L == b * L + L <= N
  {
    MulMono(b + 1, nb, L);
  }

  /** One layer: the blocks in order, the table index m counting up. */
  method ForwardLayer(R: Ring, w: array<int>, ghost a: seq<int>, ghost nb: nat, ln: nat, m0: nat) returns (m: nat)
    requires R.Valid() && w.Length == |a| == N && ln > 0 && Shape(nb, 2 * ln) && Shape(2 * nb, ln) && nb * (2 * ln) == N
    requires 2 * nb <= Pow2(R.k) && m0 == nb - 1 && Holds(R, w[..], a, nb, 2 * ln, 0, N)
    modifies w
    ensures m == 2 * nb - 1 && Holds(R, w[..], a, 2 * nb, ln, 0, N)
  {
    hide Layer, Twiddle, Shape, Pow2, Up, Down, Cong, Factor, Holds;
    m := m0;
    HoldsEmpty(R, w[..], a, 2 * nb, ln, 0);
    var start := 0;
    ghost var b := 0;
    while start < 256
      invariant b <= nb && start == b * (2 * ln) <= N && m == nb - 1 + b
      invariant Holds(R, w[..], a, 2 * nb, ln, 0, start)
      invariant Holds(R, w[..], a, nb, 2 * ln, start, N)
      decreases N - start
    {
      BlocksFit(b, nb, 2 * ln);
      m := m + 1;
      var z := Factor(R, m);
      ghost var s := w[..];
      ForwardBlock(R.q, w, start, ln, z);
      ForwardStep(R, s, w[..], a, nb, 2 * ln, ln, b, start);
      start, b := start + 2 * ln, b + 1;
    }
    AllBlocks(b, nb, 2 * ln);
  }

  lemma AllBlocks(b: nat, nb: nat, L: nat)
    requires nb * L == N && b <= nb && b * L >= N
    ensures b == nb
  {
    assert (b + 1) * L == b * L + L;
    if b < nb {
      MulMono(b + 1, nb, L);
      assert false;
    }
  }

  lemma HoldsEmpty(R: Ring, s: seq<int>, a: seq<int>, nb: nat, L: nat, lo: nat)
    requires R.q > 0 && Shape(nb, L) && nb <= Pow2(R.k) && |s| == N && lo <= N
    ensures Holds(R, s, a, nb, L, lo, lo)
  {
  }

  // ---------------------------------------------------------------- the inverse loop

  /** Positions lo.. of s hold the values of the inverse loop started on a, once the blocks have length L. */
  ghost predicate Merged(R: Ring, s: seq<int>, a: seq<int>, L0: nat, nb: nat, L: nat, lo: nat, hi: nat)
    requires R.q > 0 && Shape(nb, L) && |s| == |a| == N && hi <= N
  {
    forall i: nat :: lo <= i < hi ==> s[i] == InvLayer(R, a, L0, nb, L, i)
  }

  /** The table holds reduced factors. */
  lemma ReducedFactor(R: Ring, m: nat, x: int, y: int)
    requires R.q > 0
    ensures MergedHigh(R.q, Factor(R, m), x, y) == MergedHigh(R.q, Twiddle(R, m), x, y)
  {
    hide Twiddle;
    var T := Twiddle(R, m);
    CongMod(R.q, T);
    CongMul(R.q, T % R.q, T, -(x - y), -(x - y));
    assert -(T % R.q) * (x - y) == (T % R.q) * -(x - y) && -T * (x - y) == T * -(x - y);
  }

  lemma InverseBlockDone(R: Ring, s: seq<int>, s': seq<int>, a: seq<int>, L0: nat, nb: nat, ln: nat, b: nat, start: nat)
    requires R.q > 0 && |s| == |s'| == |a| == N && ln > 0 && L0 < 2 * ln && Shape(nb, 2 * ln) && Shape(2 * nb, ln)
    requires start == b * (2 * ln) && b < nb && start + 2 * ln <= N
    requires Merged(R, s, a, L0, 2 * nb, ln, start, start + 2 * ln)
    requires forall i :: start <= i < start + ln ==> s'[i] == MergedLow(R.q, s[i], s[i + ln])
    requires forall i :: start + ln <= i < start + 2 * ln ==>
             s'[i] == MergedHigh(R.q, Factor(R, 2 * nb - 1 - b), s[i - ln], s[i])
    ensures Merged(R, s', a, L0, nb, 2 * ln, start, start + 2 * ln)
  {
    hide InvLayer, Twiddle, Shape, Pow2, Factor, Block, Place, MergedLow, MergedHigh;
    forall i: nat | start <= i < start + 2 * ln
      ensures s'[i] == InvLayer(R, a, L0, nb, 2 * ln, i)
    {
      var p := if i < start + ln then i else i - ln;
      BlockPlace(p, 2 * ln, b, p - start);
      BlockPlace(i, 2 * ln, b, i - start);
      InvLayerUnfold(R, a, L0, nb, 2 * ln, i, p);
      ReducedFactor(R, 2 * nb - 1 - b, s[p], s[p + ln]);
    }
  }

  lemma InverseStep(R: Ring, s: seq<int>, s': seq<int>, a: seq<int>, L0: nat, nb: nat, L: nat, ln: nat, b: nat,
      start: nat)
    requires R.q > 0 && |s| == |s'| == |a| == N && ln > 0 && L0 < L && L == 2 * ln && Shape(nb, L) && Shape(2 * nb, ln)
    requires start == b * L && b < nb && start + L <= N
    requires Merged(R, s, a, L0, nb, L, 0, start) && Merged(R, s, a, L0, 2 * nb, ln, start, N)
    requires forall i :: start <= i < start + ln ==> s'[i] == MergedLow(R.q, s[i], s[i + ln])
    requires forall i :: start + ln <= i < start + 2 * ln ==>
             s'[i] == MergedHigh(R.q, Factor(R, 2 * nb - 1 - b), s[i - ln], s[i])
    requires forall i :: 0 <= i < N && !(start <= i < start + 2 * ln) ==> s'[i] == s[i]
    ensures Merged(R, s', a, L0, nb, L, 0, start + L) && Merged(R, s', a, L0, 2 * nb, ln, start + L, N)
  {
    hide InvLayer, Shape, Pow2, Factor, MergedLow, MergedHigh;
    assert Merged(R, s, a, L0, 2 * nb, ln, start, start + L);
    InverseBlockDone(R, s, s', a, L0, nb, ln, b, start);
  }

  lemma ShapeJoin(nb: nat, L: nat)
    requires Shape(nb, L) && L < 256
    ensures L > 0 && nb % 2 == 0 && Shape(nb / 2, 2 * L) && nb / 2 * (2 * L) == N
  {
  }

  lemma ShapeWhole(nb: nat, L: nat)
    requires Shape(nb, L) && L >= 256
    ensures nb == 1 && L == N
  {
  }

  lemma MergedEmpty(R: Ring, s: seq<int>, a: seq<int>, L0: nat, nb: nat, L: nat, lo: nat)
    requires R.q > 0 && Shape(nb, L) && |s| == |a| == N && lo <= N
    ensures Merged(R, s, a, L0, nb, L, lo, lo)
  {
  }

  lemma MergedStart(R: Ring, a: seq<int>, L0: nat, nb: nat)
    requires R.q > 0 && |a| == N && Shape(nb, L0)
    ensures Shape(nb, L0) && Merged(R, a, a, L0, nb, L0, 0, N)
  {
  }
}
