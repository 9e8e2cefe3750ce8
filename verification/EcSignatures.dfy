/**
 ECDSA (FIPS 186-5 section 6.4) and SM2 signatures (GM/T 0003.2) over any curve group of prime order: what is signed
 verifies, and when.
 */
module EcSignatures {
  import opened Wrappers
  import opened Modular
  import opened Groups

  /** A point by its coordinates, or the point at infinity. */
  type Affine = Option<(int, int)>

  /** The base point G of order n; inverse is modulo n. */
  datatype Curve = Curve(n: nat, g: Group<Affine>, G: Affine, inverse: int -> int)

  /** A group with infinity as zero, in which G has order n, and inverses modulo n: the order is prime. */
  ghost predicate CurveOk(c: Curve) {
    && c.n > 2 && GroupOk(c.g) && c.g.zero == None && c.g.on(c.G)
    && Times(c.g, c.n, c.G) == None && (forall k :: 0 < k < c.n ==> Times(c.g, k, c.G).Some?)
    && (forall a :: a % c.n != 0 ==> Cong(c.n, a * c.inverse(a), 1))
  }

  // ---------------------------------------------------------------- ECDSA

  /** Signing e with the key d and the nonce k: none when one of the two numbers is zero. */
  function EcdsaSign(c: Curve, d: nat, e: int, k: nat): Option<(int, int)>
    requires c.n > 0
  {
    match Times(c.g, k, c.G)
    case None => None
    case Some(R) =>
      var r := R.0 % c.n;
      var s := c.inverse(k) * (e + r * d) % c.n;
      if r == 0 || s == 0 then None else Some((r, s))
  }

  function EcdsaPoint(c: Curve, Q: Affine, e: int, r: int, s: int): Affine
    requires c.n > 0
  {
    var w := c.inverse(s) % c.n;
    c.g.add(Times(c.g, e % c.n * w % c.n, c.G), Times(c.g, r * w % c.n, Q))
  }

  predicate EcdsaVerify(c: Curve, Q: Affine, e: int, r: int, s: int)
    requires c.n > 0
  {
    && 1 <= r < c.n && 1 <= s < c.n && Q.Some? && c.g.on(Q) && Times(c.g, c.n, Q).None?
    && var X := EcdsaPoint(c, Q, e, r, s); X.Some? && X.value.0 % c.n == r
  }

  lemma KeyIsPoint(c: Curve, d: nat)
    requires CurveOk(c) && 0 < d < c.n
    ensures var Q := Times(c.g, d, c.G); Q.Some? && c.g.on(Q) && Times(c.g, c.n, Q) == None
  {
    TimesOn(c.g, d, c.G);
    TimesTimes(c.g, c.n, d, c.G);
    TimesTimes(c.g, d, c.n, c.G);
    assert c.n * d == d * c.n;
    TimesZero(c.g, d);
  }

  lemma InverseOf(c: Curve, a: int)
    requires CurveOk(c) && 0 < a < c.n
    ensures Cong(c.n, a * c.inverse(a), 1)
  {
    assert a % c.n == a by { DivModUnique(a, c.n, 0, a); }
  }

  /** The two factors of verification add up to the nonce. */
  lemma EcdsaFactors(n: nat, d: int, e: int, k: int, ki: int, r: int, s: int, w: int)
    requires n > 0 && Cong(n, k * ki, 1) && Cong(n, s, ki * (e + r * d)) && Cong(n, s * w, 1)
    ensures Cong(n, e * w + r * w * d, k)
  {
    hide Cong;
    var x := e + r * d;
    // s k = x, so x w = k
    CongMul(n, s, ki * x, k, k) by { CongSelf(n, k); }
    Rearrange(ki, x, k);
    CongMul(n, k * ki, 1, x, x) by { CongSelf(n, x); }
    CongTrans(n, s * k, k * ki * x, x);
    CongMul(n, s * k, x, w, w) by { CongSelf(n, w); }
    CongMul(n, s * w, 1, k, k) by { CongSelf(n, k); }
    Swap(s, k, w);
    CongFlip(n, s * k * w, x * w);
    CongTrans(n, x * w, s * k * w, k);
    Spread(e, r, d, w);
  }

  lemma Rearrange(a: int, x: int, k: int)
    ensures a * x * k == k * a * x
  {
  }

  lemma Swap(s: int, k: int, w: int)
    ensures s * k * w == s * w * k
  {
  }

  lemma Spread(e: int, r: int, d: int, w: int)
    ensures (e + r * d) * w == e * w + r * w * d
  {
  }

  lemma CongTrans(n: nat, a: int, b: int, x: int)
    requires n > 0 && Cong(n, a, b) && Cong(n, b, x)
    ensures Cong(n, a, x)
  {
  }

  lemma CongFlip(n: nat, a: int, b: int)
    requires n > 0 && Cong(n, a, b)
    ensures Cong(n, b, a)
  {
  }

  /** Reducing the factors changes nothing. */
  lemma ReducedFactors(n: nat, d: int, e: int, r: int, v: int, k: int)
    requires n > 0 && Cong(n, e * v + r * v * d, k)
    ensures var w := v % n; Cong(n, e % n * w % n + r * w % n * d, k)
  {
    hide Cong;
    var w := v % n;
    CongMod(n, v);
    CongMod(n, e);
    CongMul(n, e % n, e, w, v);
    CongMod(n, e % n * w);
    CongTrans(n, e % n * w % n, e % n * w, e * v);
    CongSelf(n, r);
    CongMul(n, r, r, w, v);
    CongMod(n, r * w);
    CongTrans(n, r * w % n, r * w, r * v);
    CongSelf(n, d);
    CongMul(n, r * w % n, r * v, d, d);
    CongAdd(n, e % n * w % n, e * v, r * w % n * d, r * v * d);
    CongTrans(n, e % n * w % n + r * w % n * d, e * v + r * v * d, k);
  }

  /** For a signature, the point of verification is the point of the nonce. */
  lemma EcdsaPointIsNonce(c: Curve, d: nat, e: int, k: nat, r: int, s: int)
    requires CurveOk(c) && 0 < d < c.n && 0 < k < c.n && 0 < s < c.n && r >= 0
    requires Cong(c.n, s, c.inverse(k) * (e + r * d))
    ensures EcdsaPoint(c, Times(c.g, d, c.G), e, r, s) == Times(c.g, k, c.G)
  {
    hide Cong, Times, GroupOk;
    var n, v := c.n, c.inverse(s);
    InverseOf(c, k);
    InverseOf(c, s);
    EcdsaFactors(n, d, e, k, c.inverse(k), r, s, v);
    ReducedFactors(n, d, e, r, v, k);
    var w := v % n;
    var u1: nat, u2: nat := e % n * w % n, r * w % n;
    TimesSum(c.g, u1, u2, d, c.G);
    TimesCong(c.g, n, u1 + u2 * d, k, c.G);
  }

  /** Every signature verifies under the key's point, for the digest that was signed. */
  lemma EcdsaSignedVerifies(c: Curve, d: nat, e: int, k: nat)
    requires CurveOk(c) && 0 < d < c.n && 0 < k < c.n
    ensures var sig := EcdsaSign(c, d, e, k);
            sig.Some? ==> EcdsaVerify(c, Times(c.g, d, c.G), e, sig.value.0, sig.value.1)
  {
    hide Times, EcdsaPoint;
    KeyIsPoint(c, d);
    var sig := EcdsaSign(c, d, e, k);
    if sig.Some? {
      var (r, s) := sig.value;
      CongMod(c.n, c.inverse(k) * (e + r * d));
      EcdsaPointIsNonce(c, d, e, k, r, s);
    }
  }

  /** From the point that verification computes, the nonce that would have signed. */
  lemma EcdsaNonce(n: nat, d: int, e: int, k: int, ki: int, r: int, s: int, si: int)
    requires n > 0 && Cong(n, s * si, 1) && Cong(n, k * ki, 1)
    requires Cong(n, e * si + r * si * d, k)
    ensures Cong(n, ki * (e + r * d), s)
  {
    hide Cong;
    var x := e + r * d;
    Spread(e, r, d, si);
    // s k = x
    CongFlip(n, x * si, k);
    CongSelf(n, s);
    CongMul(n, k, x * si, s, s);
    CongSelf(n, x);
    CongMul(n, s * si, 1, x, x);
    Swap(x, si, s);
    Commute(x, s, si);
    CongTrans(n, k * s, x * si * s, x);
    // ki x = ki k s = s
    CongFlip(n, k * s, x);
    CongSelf(n, ki);
    CongMul(n, ki, ki, x, k * s);
    CongMul(n, k * ki, 1, s, s);
    Reorder(ki, k, s);
    CongTrans(n, ki * x, ki * (k * s), s);
  }

  lemma Commute(x: int, s: int, si: int)
    ensures x * si * s == s * si * x
  {
  }

  lemma Reorder(ki: int, k: int, s: int)
    ensures ki * (k * s) == k * ki * s
  {
  }

  /** Reducing the sum of the factors. */
  lemma FactorsAreNonce(n: nat, d: nat, e: int, r: nat, v: int)
    requires n > 0
    ensures var w := v % n; Cong(n, e * v + r * v * d, (e % n * w % n + r * w % n * d) % n)
  {
    hide Cong;
    var w, y := v % n, e * v + r * v * d;
    CongSelf(n, y);
    ReducedFactors(n, d, e, r, v, y);
    var K := e % n * w % n + r * w % n * d;
    CongMod(n, K);
    CongTrans(n, K % n, K, y);
    CongFlip(n, K % n, y);
  }

  /** Verification accepts exactly the signatures that signing with some nonce returns. */
  lemma EcdsaVerifyIff(c: Curve, d: nat, e: int, r: int, s: int)
    requires CurveOk(c) && 0 < d < c.n
    ensures EcdsaVerify(c, Times(c.g, d, c.G), e, r, s) <==>
            exists k :: 0 < k < c.n && EcdsaSign(c, d, e, k) == Some((r, s))
  {
    hide Times, GroupOk;
    if EcdsaVerify(c, Times(c.g, d, c.G), e, r, s) {
      EcdsaAccepted(c, d, e, r, s);
    }
    if k :| 0 < k < c.n && EcdsaSign(c, d, e, k) == Some((r, s)) {
      EcdsaSignedVerifies(c, d, e, k);
    }
  }

  lemma EcdsaAccepted(c: Curve, d: nat, e: int, r: nat, s: nat)
    requires CurveOk(c) && 0 < d < c.n && EcdsaVerify(c, Times(c.g, d, c.G), e, r, s)
    ensures exists k :: 0 < k < c.n && EcdsaSign(c, d, e, k) == Some((r, s))
  {
    hide Times, GroupOk, Cong;
    var n, v := c.n, c.inverse(s);
    var w := v % n;
    var u1: nat, u2: nat := e % n * w % n, r * w % n;
    TimesSum(c.g, u1, u2, d, c.G);
    TimesReduced(c.g, n, u1 + u2 * d, c.G);
    var k := (u1 + u2 * d) % n;
    TimesNone(c.g, c.G);
    InverseOf(c, s);
    InverseOf(c, k);
    FactorsAreNonce(n, d, e, r, v);
    EcdsaNonce(n, d, e, k, c.inverse(k), r, s, v);
    RemainderIs(n, c.inverse(k) * (e + r * d), s);
    assert EcdsaSign(c, d, e, k) == Some((r, s));
  }

  lemma RemainderIs(n: nat, x: int, s: nat)
    requires s < n && Cong(n, x, s)
    ensures x % n == s
  {
    SmallMod(s, n);
  }

  // ---------------------------------------------------------------- SM2

  /** Signing e with the key d and the nonce k: none when the nonce is to be drawn again. */
  function Sm2Sign(c: Curve, d: nat, e: int, k: nat): Option<(int, int)>
    requires c.n > 0
  {
    match Times(c.g, k, c.G)
    case None => None
    case Some(R) =>
      var r := (e + R.0) % c.n;
      var s := c.inverse(1 + d) * (k - r * d) % c.n;
      if r == 0 || r + k == c.n || s == 0 then None else Some((r, s))
  }

  predicate Sm2Verify(c: Curve, Q: Affine, e: int, r: int, s: int)
    requires c.n > 0
  {
    && 1 <= r < c.n && 1 <= s < c.n && Q.Some? && c.g.on(Q)
    && var t := (r + s) % c.n;
       t != 0 && var X := c.g.add(Times(c.g, s, c.G), Times(c.g, t, Q)); X.Some? && (e + X.value.0) % c.n == r
  }

  /** s (1 + d) is k - r d, so s + (r + s) d is k. */
  lemma Sm2Factors(n: nat, d: int, k: int, di: int, r: int, s: int)
    requires n > 0 && Cong(n, (1 + d) * di, 1) && Cong(n, s, di * (k - r * d))
    ensures Cong(n, s * (1 + d), k - r * d) && Cong(n, s + (r + s) * d, k)
  {
    hide Cong;
    var x, y := k - r * d, 1 + d;
    CongSelf(n, y);
    CongMul(n, s, di * x, y, y);
    Rearrange(di, x, y);
    CongSelf(n, x);
    CongMul(n, y * di, 1, x, x);
    CongTrans(n, s * y, y * di * x, x);
    CongSelf(n, r * d);
    CongAdd(n, s * y, x, r * d, r * d);
    Collect(s, r, d);
  }

  lemma Collect(s: int, r: int, d: int)
    ensures s * (1 + d) + r * d == s + (r + s) * d
  {
  }

  /** If r + s vanished, so would r + k, which signing excludes. */
  lemma Sm2SumNotZero(n: nat, d: int, k: int, r: int, s: int)
    requires n > 0 && 0 < r < n && 0 < k < n && r + k != n && Cong(n, s * (1 + d), k - r * d)
    ensures (r + s) % n != 0
  {
    hide Cong;
    if (r + s) % n == 0 {
      CongZero(n, r + s);
      CongSelf(n, 1 + d);
      CongMul(n, r + s, 0, 1 + d, 1 + d);
      var z := r * (1 + d);
      CongSelf(n, z);
      CongAdd(n, s * (1 + d), k - r * d, z, z);
      assert s * (1 + d) + z == (r + s) * (1 + d) && k - r * d + z == k + r;
      CongFlip(n, (r + s) * (1 + d), k + r);
      CongTrans(n, k + r, (r + s) * (1 + d), 0);
      SumIsOrder(n, k + r);
    }
  }

  lemma CongZero(n: nat, a: int)
    requires n > 0 && a % n == 0
    ensures Cong(n, a, 0)
  {
  }

  lemma SumIsOrder(n: nat, a: int)
    requires n > 0 && 0 < a < 2 * n && Cong(n, a, 0)
    ensures a == n
  {
    if a < n {
      DivModUnique(a, n, 0, a);
    } else if a > n {
      DivModUnique(a, n, 1, a - n);
    }
  }

  lemma Sm2PointIsNonce(c: Curve, d: nat, k: nat, r: int, s: int)
    requires CurveOk(c) && 0 < d && 0 < k < c.n && 0 < s < c.n && 0 <= r && Cong(c.n, s + (r + s) * d, k)
    ensures c.g.add(Times(c.g, s, c.G), Times(c.g, (r + s) % c.n, Times(c.g, d, c.G))) == Times(c.g, k, c.G)
  {
    hide Cong, Times, GroupOk;
    var n, t := c.n, (r + s) % c.n;
    TimesSum(c.g, s, t, d, c.G);
    CongMod(n, r + s);
    CongSelf(n, d);
    CongMul(n, t, r + s, d, d);
    CongSelf(n, s);
    CongAdd(n, s, s, t * d, (r + s) * d);
    CongTrans(n, s + t * d, s + (r + s) * d, k);
    TimesCong(c.g, n, s + t * d, k, c.G);
  }

  lemma Sm2Shape(c: Curve, d: nat, e: int, k: nat)
    requires c.n > 0 && Sm2Sign(c, d, e, k).Some?
    ensures var (r, s), R := Sm2Sign(c, d, e, k).value, Times(c.g, k, c.G);
            0 < r < c.n && 0 < s < c.n && r + k != c.n && R.Some? && r == (e + R.value.0) % c.n &&
            Cong(c.n, s, c.inverse(1 + d) * (k - r * d))
  {
    hide Times, Cong;
    var R := Times(c.g, k, c.G).value;
    var r := (e + R.0) % c.n;
    CongMod(c.n, c.inverse(1 + d) * (k - r * d));
  }

  /** Every signature verifies under the key's point; the key n - 1 is not admitted, for it has no inverse. */
  lemma Sm2SignedVerifies(c: Curve, d: nat, e: int, k: nat)
    requires CurveOk(c) && 0 < d < c.n - 1 && 0 < k < c.n
    ensures var sig := Sm2Sign(c, d, e, k);
            sig.Some? ==> Sm2Verify(c, Times(c.g, d, c.G), e, sig.value.0, sig.value.1)
  {
    hide Times, Sm2Sign, Cong, GroupOk;
    KeyIsPoint(c, d);
    if Sm2Sign(c, d, e, k).Some? {
      var (r, s) := Sm2Sign(c, d, e, k).value;
      Sm2Shape(c, d, e, k);
      InverseOf(c, 1 + d);
      Sm2Factors(c.n, d, k, c.inverse(1 + d), r, s);
      Sm2SumNotZero(c.n, d, k, r, s);
      Sm2PointIsNonce(c, d, k, r, s);
    }
  }

  /** From the point that verification computes, the nonce that would have signed. */
  lemma Sm2Nonce(n: nat, d: nat, k: nat, di: int, r: nat, s: nat)
    requires n > 0 && Cong(n, (1 + d) * di, 1) && Cong(n, s + (r + s) * d, k)
    ensures Cong(n, di * (k - r * d), s)
  {
    hide Cong;
    var x := s * (1 + d);
    CongSelf(n, r * d);
    Collect(s, r, d);
    CongAdd(n, s + (r + s) * d, k, r * d, r * d);
    CongFlip(n, x, k - r * d);
    CongSelf(n, di);
    CongMul(n, di, di, k - r * d, x);
    CongSelf(n, s);
    CongMul(n, (1 + d) * di, 1, s, s);
    Reorder(di, 1 + d, s);
    Commuted(s, d);
    CongTrans(n, di * (k - r * d), di * x, s);
  }

  lemma Commuted(s: int, d: int)
    ensures s * (1 + d) == (1 + d) * s
  {
  }

  /** If r + k were n, the sum of the two numbers would vanish. */
  lemma Sm2SumVanishes(n: nat, d: nat, k: nat, di: int, r: nat, s: nat)
    requires n > 0 && Cong(n, (1 + d) * di, 1) && Cong(n, s + (r + s) * d, k) && r + k == n
    ensures (r + s) % n == 0
  {
    hide Cong;
    var t := r + s;
    CongSelf(n, r);
    CongAdd(n, s + t * d, k, r, r);
    CongZero(n, k + r) by { DivModUnique(n, n, 1, 0); }
    CongTrans(n, s + t * d + r, k + r, 0);
    assert s + t * d + r == t * (1 + d);
    CongSelf(n, di);
    CongMul(n, t * (1 + d), 0, di, di);
    CongSelf(n, t);
    CongMul(n, (1 + d) * di, 1, t, t);
    Rearranged(t, 1 + d, di);
    CongFlip(n, (1 + d) * di * t, t);
    CongTrans(n, t, (1 + d) * di * t, 0);
    ZeroRemainder(n, t);
  }

  lemma Rearranged(t: int, y: int, di: int)
    ensures t * y * di == y * di * t
  {
  }

  lemma ZeroRemainder(n: nat, t: nat)
    requires n > 0 && Cong(n, t, 0)
    ensures t % n == 0
  {
  }

  lemma Sm2Accepted(c: Curve, d: nat, e: int, r: nat, s: nat)
    requires CurveOk(c) && 0 < d < c.n - 1 && Sm2Verify(c, Times(c.g, d, c.G), e, r, s)
    ensures exists k :: 0 < k < c.n && Sm2Sign(c, d, e, k) == Some((r, s))
  {
    hide Times, GroupOk, Cong;
    var n, t := c.n, (r + s) % c.n;
    TimesSum(c.g, s, t, d, c.G);
    TimesReduced(c.g, n, s + t * d, c.G);
    var k := (s + t * d) % n;
    TimesNone(c.g, c.G);
    InverseOf(c, 1 + d);
    Sm2Sum(n, d, r, s);
    Sm2Nonce(n, d, k, c.inverse(1 + d), r, s);
    if r + k == n {
      Sm2SumVanishes(n, d, k, c.inverse(1 + d), r, s);
    }
    RemainderIs(n, c.inverse(1 + d) * (k - r * d), s);
    assert Sm2Sign(c, d, e, k) == Some((r, s));
  }

  lemma Sm2Sum(n: nat, d: nat, r: nat, s: nat)
    requires n > 0
    ensures Cong(n, s + (r + s) * d, (s + (r + s) % n * d) % n)
  {
    hide Cong;
    var t := (r + s) % n;
    CongMod(n, r + s);
    CongSelf(n, d);
    CongMul(n, t, r + s, d, d);
    CongSelf(n, s);
    CongAdd(n, s, s, t * d, (r + s) * d);
    CongMod(n, s + t * d);
    CongTrans(n, (s + t * d) % n, s + t * d, s + (r + s) * d);
    CongFlip(n, (s + t * d) % n, s + (r + s) * d);
  }

  /** Verification accepts exactly the signatures that signing with some nonce returns. */
  lemma Sm2VerifyIff(c: Curve, d: nat, e: int, r: int, s: int)
    requires CurveOk(c) && 0 < d < c.n - 1
    ensures Sm2Verify(c, Times(c.g, d, c.G), e, r, s) <==>
            exists k :: 0 < k < c.n && Sm2Sign(c, d, e, k) == Some((r, s))
  {
    hide Times, GroupOk;
    if Sm2Verify(c, Times(c.g, d, c.G), e, r, s) {
      Sm2Accepted(c, d, e, r, s);
    }
    if k :| 0 < k < c.n && Sm2Sign(c, d, e, k) == Some((r, s)) {
      Sm2SignedVerifies(c, d, e, k);
    }
  }
}
