/**
 Correctness of ML-KEM: decryption returns the message exactly as long as the decryption noise, compression included,
 stays within about a quarter of q in every coefficient.  Then decapsulation returns the encapsulated key; and where the
 hashes do not collide with that key, only then.
 */
module MlkemCorrectness {
  import opened Wrappers
  import opened Modular
  import opened Digits
  import opened Streams
  import opened NttTheory
  import opened MlkemNtt
  import opened MlkemCodec
  import opened Mlkem

  // ---------------------------------------------------------------- scalar products

  lemma VaddSwap(x: Poly, y: Poly, p: Poly, q: Poly)
    ensures Vadd(Vadd(x, y), Vadd(p, q)) == Vadd(Vadd(x, p), Vadd(y, q))
  {
  }

  lemma VaddZero()
    ensures Vadd(Zero(), Zero()) == Zero()
  {
  }

  lemma MulZero(a: Poly)
    ensures MulNtt(a, Zero()) == Zero()
  {
    hide MulNtt, Gamma;
    forall i: nat | i < 128
      ensures SamePair(MulNtt(a, Zero()), Zero(), i)
    {
      MulPair(a, Zero(), i);
      PairZero(a[2 * i], a[2 * i + 1], Gamma(i));
    }
    SamePairs(MulNtt(a, Zero()), Zero());
  }

  lemma PairZero(a0: int, a1: int, z: int)
    ensures PairLow(a0, a1, 0, 0, z) == 0 && PairHigh(a0, a1, 0, 0) == 0
  {
  }

  lemma {:induction false} DotCommutes(u: seq<Poly>, v: seq<Poly>, n: nat)
    requires n <= |u| && n <= |v|
    ensures Dot(u, v, n) == Dot(v, u, n)
  {
    hide MulNtt, Vadd;
    if n > 0 {
      DotCommutes(u, v, n - 1);
      MulCommutes(u[n - 1], v[n - 1]);
    }
  }

  /** The scalar product is additive in its second argument. */
  lemma {:induction false} DotAdditive(u: seq<Poly>, v: seq<Poly>, p: seq<Poly>, q: seq<Poly>, n: nat)
    requires n <= |u| && n <= |v| && n <= |p| && n <= |q| && forall i :: 0 <= i < n ==> v[i] == Vadd(p[i], q[i])
    ensures Dot(u, v, n) == Vadd(Dot(u, p, n), Dot(u, q, n))
  {
    hide MulNtt, Vadd;
    if n == 0 {
      VaddZero();
    } else {
      DotAdditive(u, v, p, q, n - 1);
      MulDistributes(u[n - 1], p[n - 1], q[n - 1]);
      VaddSwap(Dot(u, p, n - 1), Dot(u, q, n - 1), MulNtt(u[n - 1], p[n - 1]), MulNtt(u[n - 1], q[n - 1]));
    }
  }

  /** A common factor of the first argument moves out of the scalar product. */
  lemma {:induction false} DotScaled(a: seq<Poly>, b: seq<Poly>, s: Poly, y: seq<Poly>, n: nat)
    requires n <= |a| && n <= |b| && n <= |y| && forall i :: 0 <= i < n ==> b[i] == MulNtt(a[i], s)
    ensures Dot(b, y, n) == MulNtt(s, Dot(a, y, n))
  {
    hide MulNtt, Vadd;
    if n == 0 {
      MulZero(s);
    } else {
      DotScaled(a, b, s, y, n - 1);
      MulCommutes(MulNtt(a[n - 1], s), y[n - 1]);
      MulRotates(y[n - 1], a[n - 1], s);
      MulCommutes(y[n - 1], a[n - 1]);
      MulDistributes(s, Dot(a, y, n - 1), MulNtt(a[n - 1], y[n - 1]));
    }
  }

  /** Entry i: row i of A times the first n entries of s. */
  function RowDots(A: seq<seq<Poly>>, s: seq<Poly>, k: nat, n: nat): (r: seq<Poly>)
    requires IsSquare(A, k) && n <= k == |s|
    ensures |r| == k && forall i :: 0 <= i < k ==> r[i] == Dot(A[i], s, n)
  {
    seq(k, i requires 0 <= i < k => Dot(A[i], s, n))
  }

  function ColumnDots(A: seq<seq<Poly>>, y: seq<Poly>, k: nat): (r: seq<Poly>)
    requires IsSquare(A, k) && |y| == k
    ensures |r| == k && forall j :: 0 <= j < k ==> r[j] == Dot(Column(A, k, j), y, k)
  {
    seq(k, j requires 0 <= j < k => Dot(Column(A, k, j), y, k))
  }

  lemma {:induction false} DotZero(u: seq<Poly>, y: seq<Poly>, n: nat)
    requires n <= |u| && n <= |y| && forall i :: 0 <= i < n ==> u[i] == Zero()
    ensures Dot(u, y, n) == Zero()
  {
    hide MulNtt, Vadd;
    if n > 0 {
      DotZero(u, y, n - 1);
      MulCommutes(u[n - 1], y[n - 1]);
      MulZero(y[n - 1]);
      VaddZero();
    }
  }

  /** (A s) y = s (A^T y): what makes the two parties agree. */
  lemma {:induction false} RowsAndColumns(A: seq<seq<Poly>>, s: seq<Poly>, y: seq<Poly>, k: nat, n: nat)
    requires IsSquare(A, k) && |s| == |y| == k && n <= k
    ensures Dot(RowDots(A, s, k, n), y, k) == Dot(s, ColumnDots(A, y, k), n)
    decreases n
  {
    hide MulNtt, Vadd;
    if n == 0 {
      DotZero(RowDots(A, s, k, 0), y, k);
    } else {
      RowsAndColumns(A, s, y, k, n - 1);
      var last := seq(k, i requires 0 <= i < k => MulNtt(A[i][n - 1], s[n - 1]));
      var rows, rest := RowDots(A, s, k, n), RowDots(A, s, k, n - 1);
      DotCommutes(rows, y, k);
      DotAdditive(y, rows, rest, last, k);
      DotCommutes(rest, y, k);
      DotCommutes(last, y, k);
      DotScaled(Column(A, k, n - 1), last, s[n - 1], y, k);
    }
  }

  // ---------------------------------------------------------------- scalar products of polynomials

  /** The sum of the products a[i] b[i] modulo x^256 + 1 and q, in the normal domain. */
  function Inner(a: seq<Poly>, b: seq<Poly>, n: nat): (r: Poly)
    requires n <= |a| && n <= |b|
    ensures IsReduced(r)
  {
    if n == 0 then Zero() else Vadd(Inner(a, b, n - 1), Reduce(NegMul(a[n - 1], b[n - 1])))
  }

  lemma InverseZero()
    ensures NttInv(Zero()) == Zero()
  {
    hide Ntt, NttInv, Vadd;
    NttInvAdditive(Zero(), Zero());
    VaddZero();
    DoubledIsZero(NttInv(Zero()));
  }

  lemma DoubledIsZero(a: Poly)
    requires IsReduced(a) && Vadd(a, a) == a
    ensures a == Zero()
  {
    forall i | 0 <= i < N
      ensures a[i] == 0
    {
      assert Vadd(a, a)[i] == (a[i] + a[i]) % Q;
    }
  }

  /** Between the transforms the scalar product is the sum of the products. */
  lemma {:induction false} InverseOfDot(a: seq<Poly>, b: seq<Poly>, n: nat)
    requires n <= |a| && n <= |b|
    ensures NttInv(Dot(NttAll(a), NttAll(b), n)) == Inner(a, b, n)
  {
    hide Ntt, NttInv, MulNtt, Vadd, Reduce, NegMul;
    if n == 0 {
      InverseZero();
    } else {
      InverseOfDot(a, b, n - 1);
      NttInvAdditive(Dot(NttAll(a), NttAll(b), n - 1), MulNtt(Ntt(a[n - 1]), Ntt(b[n - 1])));
      TransformedProduct(a[n - 1], b[n - 1]);
    }
  }

  // ---------------------------------------------------------------- the noise

  /** e1 plus what compression changed in u. */
  function BlurU(n: Noise, u: seq<Poly>, u': seq<Poly>): (f: seq<Poly>)
    requires |n.e1| == |u| == |u'|
    ensures |f| == |u| && forall i :: 0 <= i < |u| ==> f[i] == Vadd(n.e1[i], Vsub(u'[i], u[i]))
  {
    seq(|u|, i requires 0 <= i < |u| => Vadd(n.e1[i], Vsub(u'[i], u[i])))
  }

  /** e y + e2 + (what compression changed in v) - s (e1 + what compression changed in u). */
  function NoisePoly(x: Drawn, n: Noise, u: seq<Poly>, u': seq<Poly>, v: Poly, v': Poly): (w: Poly)
    requires |x.s| == |x.e| == |n.y| == |n.e1| == |u| == |u'|
    ensures IsReduced(w)
  {
    var k := |x.s|;
    Vsub(Vadd(Vadd(Inner(x.e, n.y, k), n.e2), Vsub(v', v)), Inner(x.s, BlurU(n, u, u'), k))
  }

  lemma CancelCommon(x: Poly, a: Poly, e2: Poly, mu: Poly, v': Poly, b: Poly)
    ensures var v := Vadd(Vadd(Vadd(x, a), e2), mu);
            Vsub(v', Vadd(x, b)) == Vadd(mu, Vsub(Vadd(Vadd(a, e2), Vsub(v', v)), b))
  {
    forall i | 0 <= i < N
      ensures var v := Vadd(Vadd(Vadd(x, a), e2), mu);
              Vsub(v', Vadd(x, b))[i] == Vadd(mu, Vsub(Vadd(Vadd(a, e2), Vsub(v', v)), b))[i]
    {
      CancelCoefficient(x[i], a[i], e2[i], mu[i], v'[i], b[i]);
    }
  }

  lemma CancelCoefficient(x: int, a: int, e: int, m: int, v': int, b: int)
    ensures var v := (((x + a) % Q + e) % Q + m) % Q;
            (v' - (x + b) % Q) % Q == (m + (((a + e) % Q + (v' - v) % Q) % Q - b) % Q) % Q
  {
  }

  lemma BlurredTransform(h: Poly, e1: Poly, u: Poly, u': Poly)
    requires IsReduced(h) && IsReduced(u') && u == Vadd(NttInv(h), e1)
    ensures Ntt(u') == Vadd(h, Ntt(Vadd(e1, Vsub(u', u))))
  {
    hide Ntt, NttInv, Vadd, Vsub;
    var f := Vadd(e1, Vsub(u', u));
    SplitBlur(NttInv(h), e1, u');
    NttAdditive(NttInv(h), f);
    Inverses(h);
  }

  lemma SplitBlur(g: Poly, e1: Poly, u': Poly)
    requires IsReduced(u')
    ensures u' == Vadd(g, Vadd(e1, Vsub(u', Vadd(g, e1))))
  {
  }

  /** What decryption computes is the message polynomial plus the noise. */
  lemma OpenedIsNoisyMessage(x: Drawn, n: Noise, mu: Poly, u': seq<Poly>, v': Poly)
    requires |x.s| == |x.e| == |n.y| == |n.e1| == |u'| && IsSquare(x.A, |x.s|)
    requires forall i :: 0 <= i < |u'| ==> IsReduced(u'[i])
    ensures Opened(NttAll(x.s), u', v') ==
            Vadd(mu, NoisePoly(x, n, CipherU(x.A, n), u', CipherV(PublicVector(x), n, mu), v'))
  {
    hide Ntt, NttInv, MulNtt, Vadd, Vsub, Dot, Inner, NegMul;
    var k, sh, eh, yh := |x.s|, NttAll(x.s), NttAll(x.e), NttAll(n.y);
    var u, f := CipherU(x.A, n), BlurU(n, CipherU(x.A, n), u');
    var cols, rows, t := ColumnDots(x.A, yh, k), RowDots(x.A, sh, k, k), PublicVector(x);
    forall i | 0 <= i < k
      ensures NttAll(u')[i] == Vadd(cols[i], NttAll(f)[i])
    {
      BlurredTransform(cols[i], n.e1[i], u[i], u'[i]);
    }
    DotAdditive(sh, NttAll(u'), cols, NttAll(f), k);
    DotCommutes(t, yh, k);
    DotAdditive(yh, t, rows, eh, k);
    DotCommutes(rows, yh, k);
    DotCommutes(eh, yh, k);
    RowsAndColumns(x.A, sh, yh, k, k);
    var T := Dot(sh, cols, k);
    DotReduced(sh, cols, NttAll(f), eh, yh, k);
    NttInvAdditive(T, Dot(eh, yh, k));
    NttInvAdditive(T, Dot(sh, NttAll(f), k));
    InverseOfDot(x.e, n.y, k);
    InverseOfDot(x.s, f, k);
    CancelCommon(NttInv(T), Inner(x.e, n.y, k), n.e2, mu, v', Inner(x.s, f, k));
  }

  lemma DotReduced(sh: seq<Poly>, cols: seq<Poly>, fh: seq<Poly>, eh: seq<Poly>, yh: seq<Poly>, k: nat)
    requires |sh| == |cols| == |fh| == |eh| == |yh| == k
    ensures IsReduced(Dot(sh, cols, k)) && IsReduced(Dot(sh, fh, k)) && IsReduced(Dot(eh, yh, k))
  {
  }

  // ---------------------------------------------------------------- the encodings

  lemma ReducedEncodable(v: seq<Poly>)
    requires forall i :: 0 <= i < |v| ==> IsReduced(v[i])
    ensures forall i :: 0 <= i < |v| ==> Encodable(12, v[i])
  {
  }

  /** The encryption key and the decryption key hold what was drawn. */
  lemma KeyRead(ps: Params, hs: Hashes, d: Bytes, limit: nat)
    requires DrawKey(ps, hs, d, limit).Some?
    ensures var x := DrawKey(ps, hs, d, limit).value;
            var (ek, dk) := PkeKeyGen(ps, hs, d, limit).value;
            DecodeAll(12, ek, ps.k) == PublicVector(x) && ek[384 * ps.k..] == x.rho &&
                DecodeAll(12, dk, ps.k) == NttAll(x.s) &&
            Matrix(hs, x.rho, ps.k, limit) == Some(x.A)
  {
    hide EncodeAll, DecodeAll, Matrix, PublicVector, ShortVector;
    var x := DrawKey(ps, hs, d, limit).value;
    var (ek, dk) := PkeKeyGen(ps, hs, d, limit).value;
    ReducedEncodable(PublicVector(x));
    ReducedEncodable(NttAll(x.s));
    DecodeEncodeAll(12, PublicVector(x), x.rho);
    DecodeEncodeAll(12, NttAll(x.s), []);
    assert dk + [] == dk;
  }

  /** The polynomials that decryption reads from a ciphertext of u and v. */
  function RoundedU(ps: Params, u: seq<Poly>): (r: seq<Poly>)
    ensures |r| == |u| && forall i :: 0 <= i < |u| ==> r[i] == DecompressPoly(ps.du, CompressPoly(ps.du, u[i]))
  {
    DecompressAll(ps.du, CompressAll(ps.du, u))
  }

  function RoundedV(ps: Params, v: Poly): Poly {
    DecompressPoly(ps.dv, CompressPoly(ps.dv, v))
  }

  lemma CompressedEncodable(ps: Params, u: seq<Poly>)
    ensures IsCompression(ps.du) && IsCompression(ps.dv)
    ensures forall i :: 0 <= i < |u| ==> Encodable(ps.du, CompressAll(ps.du, u)[i])
  {
  }

  lemma CiphertextRead(ps: Params, u: seq<Poly>, v: Poly)
    requires |u| == ps.k
    ensures var c := EncodeAll(ps.du, CompressAll(ps.du, u)) + ByteEncode(ps.dv, CompressPoly(ps.dv, v));
            |c| == ps.k * (32 * ps.du) + 32 * ps.dv &&
            DecompressAll(ps.du, DecodeAll(ps.du, c, ps.k)) == RoundedU(ps, u) &&
            DecompressPoly(ps.dv, ByteDecode(ps.dv, c[ps.k * (32 * ps.du)..])) == RoundedV(ps, v)
  {
    hide ByteEncode, ByteDecode, EncodeAll, DecodeAll, Compress, Decompress;
    CompressedEncodable(ps, u);
    DecodeEncodeAll(ps.du, CompressAll(ps.du, u), ByteEncode(ps.dv, CompressPoly(ps.dv, v)));
    DecodeEncode(ps.dv, CompressPoly(ps.dv, v));
  }

  /** Rounding keeps the coefficients reduced, and moves none of them by more than the rounding bound. */
  lemma RoundedReduced(ps: Params, u: seq<Poly>)
    requires forall i :: 0 <= i < |u| ==> IsReduced(u[i])
    ensures forall i :: 0 <= i < |u| ==> IsReduced(RoundedU(ps, u)[i])
    ensures forall i, j :: 0 <= i < |u| && 0 <= j < N ==>
              -RoundingBound(ps.du) <= Centred(RoundedU(ps, u)[i][j] - u[i][j]) <= RoundingBound(ps.du)
  {
    hide Compress, Decompress, Centred;
    CompressedEncodable(ps, u);
    forall i, j | 0 <= i < |u| && 0 <= j < N
      ensures 0 <= RoundedU(ps, u)[i][j] < Q
      ensures -RoundingBound(ps.du) <= Centred(RoundedU(ps, u)[i][j] - u[i][j]) <= RoundingBound(ps.du)
    {
      CompressDecompress(ps.du, Compress(ps.du, u[i][j]));
      CompressionError(ps.du, u[i][j]);
    }
  }

  // ---------------------------------------------------------------- the message

  /** The decryption noise of a message encrypted with the randomness r under the key drawn from d. */
  function NoiseOf(ps: Params, hs: Hashes, x: Drawn, r: Bytes, m: Bytes32): (w: Poly)
    requires |x.s| == |x.e| == ps.k && IsSquare(x.A, ps.k)
    ensures IsReduced(w)
  {
    var n := DrawNoise(ps, hs, r);
    var u, v := CipherU(x.A, n), CipherV(PublicVector(x), n, MessagePoly(m));
    NoisePoly(x, n, u, RoundedU(ps, u), v, RoundedV(ps, v))
  }

  /** At most 832 in absolute value, and at most 831 upwards where the message bit is one. */
  ghost predicate Tolerable(m: Bytes32, w: Poly) {
    forall i :: 0 <= i < N ==> BitTolerates(ByteDecode(1, m)[i], w[i])
  }

  ghost predicate BitTolerates(bit: int, w: int) {
    -832 <= Centred(w) <= 832 - bit
  }

  lemma BitRecovered(bit: int, noise: int)
    requires bit == 0 || bit == 1
    ensures Compress(1, (Decompress(1, bit) + noise) % Q) == bit <==> BitTolerates(bit, noise)
  {
    hide Compress, Decompress;
    var w := (Decompress(1, bit) + noise) % Q;
    BitSurvives(bit, w);
    SameCentred(w - Decompress(1, bit), noise) by { DropsOut(Decompress(1, bit), noise); }
  }

  lemma DropsOut(a: int, b: int)
    ensures Cong(Q, (a + b) % Q - a, b)
  {
  }

  lemma SameCentred(a: int, b: int)
    requires Cong(Q, a, b)
    ensures Centred(a) == Centred(b)
  {
  }

  /** Reading the message off mu plus noise gives m exactly when every coefficient is tolerable. */
  lemma MessageRecovered(m: Bytes32, w: Poly)
    ensures ByteEncode(1, CompressPoly(1, Vadd(MessagePoly(m), w))) == m <==> Tolerable(m, w)
  {
    hide ByteEncode, ByteDecode, Compress, Decompress, BitTolerates;
    var bits, read := ByteDecode(1, m), CompressPoly(1, Vadd(MessagePoly(m), w));
    Powers();
    forall i | 0 <= i < N
      ensures read[i] == bits[i] <==> BitTolerates(bits[i], w[i])
    {
      assert DecodeModulus(1) == 2;
      BitRecovered(bits[i], w[i]);
    }
    AlwaysCanonical(1, m);
    EncodeDecode(1, m);
    DecodeEncode(1, read);
    if ByteEncode(1, read) == m {
      assert read == bits;
    }
    if Tolerable(m, w) {
      assert read == bits;
    }
  }

  /** Decryption returns the message exactly when the noise is tolerable. */
  lemma DecryptsIff(ps: Params, hs: Hashes, d: Bytes, m: Bytes32, r: Bytes, limit: nat)
    requires DrawKey(ps, hs, d, limit).Some?
    ensures var x := DrawKey(ps, hs, d, limit).value;
            var (ek, dk) := PkeKeyGen(ps, hs, d, limit).value;
            var c := PkeEncrypt(ps, hs, ek, m, r, limit);
            c.Some? && (PkeDecrypt(ps, dk, c.value) == m <==> Tolerable(m, NoiseOf(ps, hs, x, r, m)))
  {
    hide ByteEncode, ByteDecode, EncodeAll, DecodeAll, Matrix, PublicVector, CipherU, CipherV, NoisePoly, Opened,
         MessagePoly,
         Tolerable, RoundedU, RoundedV, DrawNoise, CompressPoly, DrawKey;
    var x := DrawKey(ps, hs, d, limit).value;
    KeyRead(ps, hs, d, limit);
    var n := DrawNoise(ps, hs, r);
    var u, v := CipherU(x.A, n), CipherV(PublicVector(x), n, MessagePoly(m));
    CiphertextRead(ps, u, v);
    RoundedReduced(ps, u);
    OpenedIsNoisyMessage(x, n, MessagePoly(m), RoundedU(ps, u), RoundedV(ps, v));
    MessageRecovered(m, NoiseOf(ps, hs, x, r, m));
  }

  // ---------------------------------------------------------------- the theorem

  /** Decapsulating an encapsulation for a generated key returns the same key when the noise is tolerable. */
  lemma DecapsReturnsKey(ps: Params, hs: Hashes, d: Bytes, z: Bytes32, m: Bytes32, limit: nat)
    requires KeyGen(ps, hs, d, z, limit).Some?
    ensures DrawKey(ps, hs, d, limit).Some?
    ensures var x := DrawKey(ps, hs, d, limit).value;
            var (ek, dk) := KeyGen(ps, hs, d, z, limit).value;
            var e := Encaps(ps, hs, ek, m, limit);
            e.Some? &&
            (Tolerable(m, NoiseOf(ps, hs, x, hs.G(m + hs.H(ek)).1, m)) ==>
              Decaps(ps, hs, dk, e.value.1, limit) == Some(e.value.0))
  {
    hide PkeEncrypt, PkeDecrypt, NoiseOf, Tolerable, DrawKey, DkParts, EncodeAll, PublicVector;
    var (ek, dkp) := PkeKeyGen(ps, hs, d, limit).value;
    var h := hs.H(ek);
    PartsOfKey(ps, dkp, ek, h, z);
    DecryptsIff(ps, hs, d, m, hs.G(m + h).1, limit);
  }

  /** The key K of message m comes from nothing else: not from another message, and not from a rejected ciphertext c. */
  ghost predicate KeyIsUnique(hs: Hashes, h: Bytes32, m: Bytes32, z: Bytes32, c: Bytes) {
    hs.J(z + c) != hs.G(m + h).0 && forall m': Bytes32 :: m' != m ==> hs.G(m' + h).0 != hs.G(m + h).0
  }

  /** Where no hash collides with the key, decapsulation returns it exactly when the noise is tolerable. */
  lemma DecapsReturnsKeyIff(ps: Params, hs: Hashes, d: Bytes, z: Bytes32, m: Bytes32, limit: nat)
    requires KeyGen(ps, hs, d, z, limit).Some?
    requires var ek := KeyGen(ps, hs, d, z, limit).value.0;
             var e := Encaps(ps, hs, ek, m, limit); e.Some? ==> KeyIsUnique(hs, hs.H(ek), m, z, e.value.1)
    ensures DrawKey(ps, hs, d, limit).Some?
    ensures var x := DrawKey(ps, hs, d, limit).value;
            var (ek, dk) := KeyGen(ps, hs, d, z, limit).value;
            var e := Encaps(ps, hs, ek, m, limit);
            e.Some? &&
            (Decaps(ps, hs, dk, e.value.1, limit) == Some(e.value.0) <==>
              Tolerable(m, NoiseOf(ps, hs, x, hs.G(m + hs.H(ek)).1, m)))
  {
    hide PkeEncrypt, PkeDecrypt, NoiseOf, Tolerable, DrawKey, DkParts, EncodeAll, PublicVector;
    var (ek, dkp) := PkeKeyGen(ps, hs, d, limit).value;
    var h := hs.H(ek);
    PartsOfKey(ps, dkp, ek, h, z);
    DecryptsIff(ps, hs, d, m, hs.G(m + h).1, limit);
  }

  /** Some message encapsulates to c, with the key K. */
  ghost predicate Encapsulates(ps: Params, hs: Hashes, ek: Bytes, K: Bytes32, c: Bytes, limit: nat)
    requires |ek| == 384 * ps.k + 32
  {
    exists m: Bytes32 :: Encaps(ps, hs, ek, m, limit) == Some((K, c))
  }

  /**
   Implicit rejection, for every decapsulation key that passes its check and every ciphertext: the key of an
   encapsulation comes out only for its own ciphertext, and a ciphertext that no message encapsulates to gives the key
   derived from z.
   */
  lemma CheckedKeyRejects(ps: Params, hs: Hashes, dk: Bytes, c: Bytes, limit: nat)
    requires DkCheck(ps, hs, dk) && |c| == ps.k * (32 * ps.du) + 32 * ps.dv
    ensures var (dkp, ek, h, z) := DkParts(ps, dk);
            var K := Decaps(ps, hs, dk, c, limit);
            K.Some? ==>
              (K.value != hs.J(z + c) ==> Encapsulates(ps, hs, ek, K.value, c, limit)) &&
              ((forall k: Bytes32 :: !Encapsulates(ps, hs, ek, k, c, limit)) ==> K.value == hs.J(z + c))
  {
    hide PkeEncrypt, PkeDecrypt;
    var (dkp, ek, h, z) := DkParts(ps, dk);
    assert ek == dk[384 * ps.k..768 * ps.k + 32] && h == dk[768 * ps.k + 32..768 * ps.k + 64];
    var m := PkeDecrypt(ps, dkp, c);
    if Decaps(ps, hs, dk, c, limit).Some? && Decaps(ps, hs, dk, c, limit).value != hs.J(z + c) {
      assert Encaps(ps, hs, ek, m, limit) == Some((Decaps(ps, hs, dk, c, limit).value, c));
    }
  }

  /** For a generated key, decapsulation always gives a key, and rejects implicitly. */
  lemma ImplicitRejection(ps: Params, hs: Hashes, d: Bytes, z: Bytes32, c: Bytes, limit: nat)
    requires KeyGen(ps, hs, d, z, limit).Some? && |c| == ps.k * (32 * ps.du) + 32 * ps.dv
    ensures var (ek, dk) := KeyGen(ps, hs, d, z, limit).value;
            var K := Decaps(ps, hs, dk, c, limit);
            K.Some? && (K.value != hs.J(z + c) ==> Encapsulates(ps, hs, ek, K.value, c, limit)) &&
            ((forall k: Bytes32 :: !Encapsulates(ps, hs, ek, k, c, limit)) ==> K.value == hs.J(z + c))
  {
    hide PkeEncrypt, PkeDecrypt, DkParts, DrawKey, EncodeAll, PublicVector, NoiseOf, Tolerable, Encapsulates, EkCheck;
    KeysPassChecks(ps, hs, d, z, limit);
    var (ek, dkp) := PkeKeyGen(ps, hs, d, limit).value;
    var h := hs.H(ek);
    PartsOfKey(ps, dkp, ek, h, z);
    var m: Bytes32 := PkeDecrypt(ps, dkp, c);
    DecryptsIff(ps, hs, d, m, hs.G(m + h).1, limit);
    CheckedKeyRejects(ps, hs, dkp + ek + h + z, c, limit);
  }

  lemma PartsOfKey(ps: Params, dkp: Bytes, ek: Bytes, h: Bytes32, z: Bytes32)
    requires |dkp| == 384 * ps.k && |ek| == 384 * ps.k + 32
    ensures |dkp + ek + h + z| == 768 * ps.k + 96 && DkParts(ps, dkp + ek + h + z) == (dkp, ek, h, z)
  {
    var dk := dkp + ek + h + z;
    var a := 384 * ps.k;
    assert dk[..a] == dkp && dk[a..2 * a + 32] == ek && dk[2 * a + 32..2 * a + 64] == h && dk[2 * a + 64..] == z;
  }

  /** Noise of at most 831 is always tolerable. */
  lemma SmallIsTolerable(m: Bytes32, w: Poly)
    requires forall i :: 0 <= i < N ==> -831 <= Centred(w[i]) <= 831
    ensures Tolerable(m, w)
  {
    hide ByteDecode, Centred;
    Powers();
    forall i | 0 <= i < N
      ensures BitTolerates(ByteDecode(1, m)[i], w[i])
    {
      assert DecodeModulus(1) == 2;
    }
  }

  /** Generated keys pass the checks on the inputs of encapsulation and decapsulation. */
  lemma KeysPassChecks(ps: Params, hs: Hashes, d: Bytes, z: Bytes32, limit: nat)
    requires KeyGen(ps, hs, d, z, limit).Some?
    ensures var (ek, dk) := KeyGen(ps, hs, d, z, limit).value; EkCheck(ps, ek) && DkCheck(ps, hs, dk)
  {
    hide EncodeAll, PublicVector, DrawKey, ByteEncode, ByteDecode, Recodes;
    var x := DrawKey(ps, hs, d, limit).value;
    var (ek, dkp) := PkeKeyGen(ps, hs, d, limit).value;
    PartsOfKey(ps, dkp, ek, hs.H(ek), z);
    var t := PublicVector(x);
    forall i: nat | i < ps.k
      ensures Recodes(ek[384 * i..384 * i + 384])
    {
      EncodedSlice(t, x.rho, i);
    }
  }

  lemma EncodedSlice(t: seq<Poly>, rest: Bytes, i: nat)
    requires i < |t| && forall j :: 0 <= j < |t| ==> IsReduced(t[j])
    ensures 384 * i + 384 <= |EncodeAll(12, t) + rest| && Recodes((EncodeAll(12, t) + rest)[384 * i..384 * i + 384])
  {
    hide ByteEncode, ByteDecode;
    var parts := seq(|t|, j requires 0 <= j < |t| => ByteEncode(12, t[j]));
    JoinSlice(parts, 384, i);
    DecodeEncode(12, t[i]);
    assert (Join(parts) + rest)[384 * i..384 * i + 384] == Join(parts)[i * 384..(i + 1) * 384];
  }

  /** ek is the encoding of a vector of reduced polynomials and of a seed. */
  ghost predicate IsEncoded(ps: Params, ek: Bytes, t: seq<Poly>, rho: Bytes) {
    |t| == ps.k && |rho| == 32 && (forall i :: 0 <= i < |t| ==> IsReduced(t[i])) && ek == EncodeAll(12, t) + rho
  }

  /** The check on an encapsulation key passes exactly for encodings of reduced vectors. */
  lemma EkCheckIff(ps: Params, ek: Bytes)
    ensures EkCheck(ps, ek) <==> exists t, rho :: IsEncoded(ps, ek, t, rho)
  {
    hide EncodeAll, Recodes, IsReduced;
    if EkCheck(ps, ek) {
      var t, rho := DecodeAll(12, ek, ps.k), ek[384 * ps.k..];
      forall i: nat | i < ps.k
        ensures Recodes(ek[384 * i..384 * i + 384]) && t[i] == ByteDecode(12, ek[384 * i..384 * i + 384])
      {
        assert i * (32 * 12) == 384 * i && (i + 1) * (32 * 12) == 384 * i + 384;
      }
      EncodedBack(ek, t, ps.k);
      assert IsEncoded(ps, ek, t, rho);
    }
    if t, rho :| IsEncoded(ps, ek, t, rho) {
      forall i: nat | i < ps.k
        ensures Recodes(ek[384 * i..384 * i + 384])
      {
        EncodedSlice(t, rho, i);
      }
    }
  }

  lemma DecodedReduced(bs: Bytes)
    requires |bs| == 384
    ensures IsReduced(ByteDecode(12, bs))
  {
    assert DecodeModulus(12) == Q;
  }

  lemma EncodedBack(ek: Bytes, t: seq<Poly>, k: nat)
    requires |t| == k && 384 * k <= |ek|
    requires forall i: nat :: i < k ==>
               Recodes(ek[384 * i..384 * i + 384]) && t[i] == ByteDecode(12, ek[384 * i..384 * i + 384])
    ensures (forall i :: 0 <= i < k ==> IsReduced(t[i])) && EncodeAll(12, t) == ek[..384 * k]
  {
    hide ByteEncode, ByteDecode, IsReduced;
    var parts := seq(k, i requires 0 <= i < k => ByteEncode(12, t[i]));
    JoinLength(parts, 384);
    forall i: nat | i < k
      ensures IsReduced(t[i])
    {
      DecodedReduced(ek[384 * i..384 * i + 384]);
    }
    forall j: nat | j < 384 * k
      ensures Join(parts)[j] == ek[..384 * k][j]
    {
      var i, r := j / 384, j % 384;
      assert Recodes(ek[384 * i..384 * i + 384]);
      JoinSlice(parts, 384, i);
      assert j == i * 384 + r;
      assert Join(parts)[i * 384..(i + 1) * 384][r] == parts[i][r];
    }
  }
}
