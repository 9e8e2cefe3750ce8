/**
 EdDSA verification (RFC 8032 section 5.1.7): what one-shot signing or the locker signs verifies, on every curve whose
 points form a group in which the base point has order L.
 */
module EddsaVerify {
  import opened Wrappers
  import opened Modular
  import opened Digits
  import opened Streams
  import opened Groups
  import opened EddsaMachine
  import opened EddsaRuns

  function GroupOf(E: Curve, on: Point -> bool): Group<Point> {
    Group(NEUTRAL, E.add, on)
  }

  /** The points form a group, mul gives multiples, decoding undoes encoding, and a scalar below L fits its bytes. */
  ghost predicate SchemeOk(E: Curve, on: Point -> bool) {
    && CurveOk(E) && GroupOk(GroupOf(E, on)) && on(E.base) && Times(GroupOf(E, on), E.L, E.base) == NEUTRAL
    && (forall k, p :: on(p) ==> E.mul(k, p) == Times(GroupOf(E, on), k, p))
    && (forall p :: on(p) ==> E.dec(E.enc(p)) == Some(p))
    && E.L <= Pow2(8 * Width(E.kind))
  }

  lemma {:induction false} ReadWritten(n: nat, len: nat)
    requires n < Pow2(8 * len)
    ensures Le(ToLe(n, len)) == n
  {
    if len > 0 {
      NextByte(n, len);
      ReadWritten(n / 256, len - 1);
      assert ToLe(n, len)[1..] == ToLe(n / 256, len - 1);
    }
  }

  lemma NextByte(n: nat, len: nat)
    requires len > 0 && n < Pow2(8 * len)
    ensures n / 256 < Pow2(8 * (len - 1))
  {
    var p := Pow2(8 * (len - 1));
    assert Pow2(8 * len) == 256 * p by { EightMore(8 * (len - 1)); }
  }

  lemma EightMore(k: nat)
    ensures Pow2(k + 8) == 256 * Pow2(k)
  {
    assert Pow2(k + 2) == 4 * Pow2(k);
    assert Pow2(k + 4) == 16 * Pow2(k);
    assert Pow2(k + 6) == 64 * Pow2(k);
  }

  lemma Multiple(E: Curve, on: Point -> bool, k: nat, p: Point)
    requires SchemeOk(E, on) && on(p)
    ensures E.mul(k, p) == Times(GroupOf(E, on), k, p) && on(E.mul(k, p)) &&
            E.dec(E.enc(E.mul(k, p))) == Some(E.mul(k, p))
  {
    hide GroupOk, Times;
    TimesOn(GroupOf(E, on), k, p);
  }

  /** The scalars on both sides of the group equation agree modulo L. */
  lemma SameScalar(L: nat, c: nat, r: nat, k: nat, s: nat)
    requires L > 0
    ensures Cong(L, c * ((r + k * s) % L), c * r + c * k * s)
  {
    var x := r + k * s;
    CongMod(L, x);
    CongSelf(L, c);
    CongMul(L, c, c, x % L, x);
    Distributed(c, r, k, s);
  }

  lemma Distributed(c: nat, r: nat, k: nat, s: nat)
    ensures c * (r + k * s) == c * r + c * k * s
  {
  }

  /** The signature of the scalars r and s for the challenge k satisfies the equation. */
  lemma SignedSatisfies(E: Curve, on: Point -> bool, r: nat, s: nat, k: nat)
    requires SchemeOk(E, on)
    ensures var w := Width(E.kind);
            var sig := E.enc(E.mul(r, E.base)) + ToLe((r + k * s) % E.L, w);
            Verifies(E, E.enc(E.mul(s, E.base)), sig, k)
  {
    hide GroupOk, Times, Cong, Pow2, Le, ToLe;
    var w, g, B := Width(E.kind), GroupOf(E, on), E.base;
    var c: nat := if E.kind == Ed25519 then 8 else 4;
    var S := (r + k * s) % E.L;
    var sig := E.enc(E.mul(r, B)) + ToLe(S, w);
    assert sig[..w] == E.enc(E.mul(r, B)) && sig[w..] == ToLe(S, w);
    ReadWritten(S, w);
    Multiple(E, on, r, B);
    Multiple(E, on, s, B);
    Multiple(E, on, c * S, B);
    Multiple(E, on, c, E.mul(r, B));
    Multiple(E, on, c * k, E.mul(s, B));
    TimesTimes(g, c, r, B);
    TimesSum(g, c * r, c * k, s, B);
    SameScalar(E.L, c, r, k, s);
    TimesCong(g, E.L, c * S, c * r + c * k * s, B);
  }

  /** Every one-shot signature verifies under the public key of its seed, with its challenge. */
  lemma SignVerifies(E: Curve, on: Point -> bool, seed: Bytes, M: Bytes, x: byte, ctx: Bytes)
    requires SchemeOk(E, on) && |ctx| <= 255
    ensures var sig := Sign(E, seed, M, x, ctx);
            var k := HashToScalar(E, Dom(E.kind, x, ctx) + sig[..Width(E.kind)] + PublicKey(E, seed) + M);
            Verifies(E, PublicKey(E, seed), sig, k)
  {
    hide Verifies, ToLe, Dom, HashToScalar, Expand, SchemeOk;
    SchemeFacts(E, on);
    var (s, prefix) := Expand(E, seed);
    var r := HashToScalar(E, Dom(E.kind, x, ctx) + prefix + M);
    var R := E.enc(E.mul(r, E.base));
    var k := HashToScalar(E, Dom(E.kind, x, ctx) + R + PublicKey(E, seed) + M);
    assert Sign(E, seed, M, x, ctx)[..Width(E.kind)] == R;
    SignedSatisfies(E, on, r, s, k);
  }

  lemma SchemeFacts(E: Curve, on: Point -> bool)
    requires SchemeOk(E, on)
    ensures CurveOk(E)
  {
  }

  // ---------------------------------------------------------------- secret scalars and prefixes

  lemma {:induction false} LeConcat(a: Bytes, b: Bytes)
    ensures Le(a + b) == Le(a) + Pow2(8 * |a|) * Le(b)
  {
    if a == [] {
      assert a + b == b;
    } else {
      hide Pow2;
      LeConcat(a[1..], b);
      assert (a + b)[1..] == a[1..] + b;
      EightMore(8 * |a[1..]|);
      Spread(Le(a[1..]), Pow2(8 * |a[1..]|), Le(b));
    }
  }

  lemma Spread(x: nat, p: nat, y: nat)
    ensures 256 * (x + p * y) == 256 * x + 256 * p * y
  {
  }

  lemma {:induction false} LeBound(a: Bytes)
    ensures Le(a) < Pow2(8 * |a|)
  {
    if a != [] {
      LeBound(a[1..]);
      EightMore(8 * |a[1..]|);
    }
  }

  lemma TopByte(r: Bytes, n: nat, lo: nat, hi: nat)
    requires |r| == n + 1 && lo <= r[n] < hi
    ensures lo * Pow2(8 * n) <= Le(r) < hi * Pow2(8 * n)
  {
    hide Pow2;
    assert r == r[..n] + [r[n]];
    LeConcat(r[..n], [r[n]]);
    LeBound(r[..n]);
    assert Le([r[n]]) == r[n] by { OneByte(r[n]); }
    Between(r[n], lo, hi, Pow2(8 * n), Le(r[..n]));
  }

  lemma OneByte(b: byte)
    ensures Le([b]) == b
  {
    assert [b][1..] == [];
  }

  lemma Between(b: nat, lo: nat, hi: nat, p: nat, x: nat)
    requires lo <= b < hi && x < p
    ensures lo * p <= x + p * b < hi * p
  {
    MulMono(lo, b, p);
    MulMono(b + 1, hi, p);
  }

  /**
   The secret scalar is a multiple of the cofactor, its top bit is fixed (2^254, or 2^447), and the bytes between are
   those of the hash.
   */
  lemma ClampedScalar(k: Kind, a: Bytes)
    requires |a| == Width(k)
    ensures var r := Clamped(k, a);
            (if k == Ed25519 then Le(r) % 8 == 0 && 64 * Pow2(248) <= Le(r) < 128 * Pow2(248)
             else Le(r) % 4 == 0 && 128 * Pow2(440) <= Le(r) < 256 * Pow2(440)) &&
            forall i :: 1 <= i < Width(k) - 2 ==> r[i] == a[i]
  {
    hide Pow2, Le, Clamped;
    if k == Ed25519 {
      Clamped25519(a);
    } else {
      Clamped448(a);
    }
  }

  lemma Clamped25519(a: Bytes)
    requires |a| == 32
    ensures var r := Clamped(Ed25519, a);
            Le(r) % 8 == 0 && 64 * Pow2(248) <= Le(r) < 128 * Pow2(248) && forall i :: 1 <= i < 30 ==> r[i] == a[i]
  {
    hide Pow2, Le;
    var r := Clamped(Ed25519, a);
    assert r[0] % 8 == 0 && 64 <= r[31] < 128;
    LowByte(r, 8);
    TopByte(r, 31, 64, 128);
  }

  lemma Clamped448(a: Bytes)
    requires |a| == 57
    ensures var r := Clamped(Ed448, a);
            Le(r) % 4 == 0 && 128 * Pow2(440) <= Le(r) < 256 * Pow2(440) && forall i :: 1 <= i < 55 ==> r[i] == a[i]
  {
    hide Pow2, Le;
    var r := Clamped(Ed448, a);
    assert r[0] % 4 == 0 && 128 <= r[55] < 256 && r[56] == 0;
    LowByte(r, 4);
    LastZero(r);
    TopByte(r[..56], 55, 128, 256);
  }

  lemma LastZero(r: Bytes)
    requires |r| == 57 && r[56] == 0
    ensures Le(r) == Le(r[..56])
  {
    hide Pow2, Le;
    assert r == r[..56] + [0];
    LeConcat(r[..56], [0]);
    OneByte(0);
  }

  lemma LowByte(r: Bytes, c: nat)
    requires r != [] && (c == 4 || c == 8) && r[0] % c == 0
    ensures Le(r) % c == 0
  {
    assert Le(r) == r[0] + 256 * Le(r[1..]);
  }

  /** The prefix determines the variant and the context. */
  lemma DomInjective(k: Kind, x: byte, ctx: Bytes, x': byte, ctx': Bytes)
    requires |ctx| <= 255 && |ctx'| <= 255 && Dom(k, x, ctx) == Dom(k, x', ctx')
    ensures x == x' && ctx == ctx'
  {
    var p := if k == Ed448 then Ascii("SigEd448") else Ascii("SigEd25519 no Ed25519 collisions");
    var d, d' := p + [x, |ctx| as byte] + ctx, p + [x', |ctx'| as byte] + ctx';
    assert |d| == |p| + 2 + |ctx| && |d'| == |p| + 2 + |ctx'|;
    if Dom(k, x, ctx) != [] {
      assert d == d';
      assert d[|p|] == x && d'[|p|] == x';
      assert d[|p| + 2..] == ctx && d'[|p| + 2..] == ctx';
    }
  }

  // ---------------------------------------------------------------- what is refused

  /** The base point has order exactly L, which is prime to the cofactor, a power of two. */
  ghost predicate ExactOk(E: Curve, on: Point -> bool) {
    SchemeOk(E, on) && OrderIs(GroupOf(E, on), E.L, E.base) && E.L % 2 == 1
  }

  lemma HalveCong(L: nat, a: int, b: int)
    requires L % 2 == 1 && Cong(L, 2 * a, 2 * b)
    ensures Cong(L, a, b)
  {
    hide Cong;
    var k := MultipleOfCong(L, 2 * a, 2 * b);
    EvenFactor(k, L, 2 * a - 2 * b);
    var t := k / 2;
    assert k * L == 2 * (t * L) by { MulEq(k, 2 * t, L); }
    CongOfMultiple(L, a, b, t);
  }

  lemma EvenFactor(k: int, L: int, x: int)
    requires L % 2 == 1 && k * L == x && x % 2 == 0
    ensures k % 2 == 0
  {
    var l := L / 2;
    assert k * L == 2 * (k * l) + k;
  }

  lemma CancelCofactor(E: Curve, x: nat, y: nat)
    requires E.L % 2 == 1
    requires var c := if E.kind == Ed25519 then 8 else 4; Cong(E.L, c * x, c * y)
    ensures Cong(E.L, x, y)
  {
    hide Cong;
    if E.kind == Ed25519 {
      HalveCong(E.L, 4 * x, 4 * y);
    }
    HalveCong(E.L, 2 * x, 2 * y);
    HalveCong(E.L, x, y);
  }

  /** The equation holds only if the factors of the base point agree. */
  lemma EquationIsCong(E: Curve, on: Point -> bool, r: nat, s: nat, k: nat, S: nat)
    requires ExactOk(E, on)
    requires var c := if E.kind == Ed25519 then 8 else 4;
             E.mul(c * S, E.base) == E.add(E.mul(c, E.mul(r, E.base)), E.mul(c * k, E.mul(s, E.base)))
    ensures Cong(E.L, S, r + k * s)
  {
    hide GroupOk, Times, Cong, OrderIs;
    var g, B := GroupOf(E, on), E.base;
    var c: nat := if E.kind == Ed25519 then 8 else 4;
    Multiple(E, on, r, B);
    Multiple(E, on, s, B);
    Multiple(E, on, c * S, B);
    Multiple(E, on, c, E.mul(r, B));
    Multiple(E, on, c * k, E.mul(s, B));
    TimesTimes(g, c, r, B);
    TimesSum(g, c * r, c * k, s, B);
    EqualMultiples(g, E.L, c * S, c * r + c * k * s, B);
    Distributed(c, r, k, s);
    CancelCofactor(E, S, r + k * s);
  }

  lemma BelowOrder(L: nat, S: nat, x: nat)
    requires S < L && Cong(L, S, x)
    ensures S == x % L
  {
    SmallMod(S, L);
  }

  /**
   For the points r B and s B, verification accepts exactly one scalar: the one that signing computes.  A larger number
   with the same remainder is refused too.
   */
  lemma VerifiesIff(E: Curve, on: Point -> bool, r: nat, s: nat, k: nat, S: nat)
    requires ExactOk(E, on) && S < Pow2(8 * Width(E.kind))
    ensures var sig := E.enc(E.mul(r, E.base)) + ToLe(S, Width(E.kind));
            Verifies(E, E.enc(E.mul(s, E.base)), sig, k) <==> S == (r + k * s) % E.L
  {
    hide GroupOk, Times, Cong, Pow2, Le, ToLe, OrderIs;
    var w, B := Width(E.kind), E.base;
    var sig := E.enc(E.mul(r, B)) + ToLe(S, w);
    assert sig[..w] == E.enc(E.mul(r, B)) && sig[w..] == ToLe(S, w);
    ReadWritten(S, w);
    Multiple(E, on, r, B);
    Multiple(E, on, s, B);
    if Verifies(E, E.enc(E.mul(s, B)), sig, k) {
      EquationIsCong(E, on, r, s, k, S);
      BelowOrder(E.L, S, r + k * s);
    }
    if S == (r + k * s) % E.L {
      SignedSatisfies(E, on, r, s, k);
    }
  }

  // ---------------------------------------------------------------- the locker

  /**
   A locker in the third pass, with the public key and the signature of the message absorbed, its context included.
   */
  ghost predicate Given(E: Curve, m: Ed, h: History, seed: Bytes, ctx: Bytes, M: Bytes, sig: Bytes)
    requires CurveOk(E) && Ok(E.kind, m)
  {
    m.st == MABS && m.pass == 2 && m.f.second == PublicKey(E, seed) && m.f.sig == sig && Context(m) == ctx && h.fed == M
  }

  /** What the third pass leaves when verification is entered. */
  lemma ThirdPass(E: Curve, m: Ed, h: History)
    requires CurveOk(E) && Inv(E, m, h) && m.st == MABS && m.pass == 2 && BitOf(m.policy, 1)
    ensures var v := DoSetSt(E, m, SVER, FormA, 0, None);
            Ok(E.kind, m) && v.st == SVER && v.msgPass == 3 && v.f == m.f &&
            v.kp == HashToScalar(E, Dom(E.kind, 0, Context(m)) + m.f.sig[..Width(E.kind)] + m.f.second + h.fed)
  {
    hide HashToScalar, Expand, Dom, PublicKey, BothDone, SignedOk, FirstDone, BitOf, Le;
  }

  /** The challenge that the third pass leaves. */
  function ThirdChallenge(E: Curve, m: Ed, h: History): nat
    requires CurveOk(E) && Ok(E.kind, m)
  {
    HashToScalar(E, Dom(E.kind, 0, Context(m)) + m.f.sig[..Width(E.kind)] + m.f.second + h.fed)
  }

  /**
   After any run that ends in the third pass with the points r B and s B, verification ends in Success exactly for the
   scalar that signing the absorbed message computes, and in Failure for every other one.
   */
  lemma ThirdPassDecides(E: Curve, on: Point -> bool, policy: nat, aux: bool, ext: bool, instrs: seq<Instr>, r: nat,
                         s: nat, S: nat)
    requires ExactOk(E, on) && 0 < policy < 4 && S < Pow2(8 * Width(E.kind))
    requires var m := AfterRun(E, policy, aux, ext, instrs).0;
             m.st == MABS && m.pass == 2 && BitOf(m.policy, 1) && m.f.second == E.enc(E.mul(s, E.base)) &&
             m.f.sig == E.enc(E.mul(r, E.base)) + ToLe(S, Width(E.kind))
    ensures var (m, h) := AfterRun(E, policy, aux, ext, instrs);
            var v := DoSetSt(E, m, SVER, FormA, 0, None);
            v.st == SVER && Ok(E.kind, v) &&
            DoExecD(E, v, false).st == if S == (r + ThirdChallenge(E, m, h) * s) % E.L then SUCCESS else FAILURE
  {
    hide AfterRun, HashToScalar, Dom, Inv, SchemeOk, Verifies, BitOf, DoSetSt, ToLe, Pow2, OrderIs;
    SchemeFacts(E, on);
    var (m, h) := AfterRun(E, policy, aux, ext, instrs);
    ThirdPass(E, m, h);
    SetStOk(E, m, SVER, FormA, 0, None);
    VerifiesIff(E, on, r, s, ThirdChallenge(E, m, h), S);
  }

  /** The same for a hash that was loaded: it is signed and verified as a prehashed message. */
  lemma PrehashDecides(E: Curve, on: Point -> bool, m: Ed, r: nat, s: nat, S: nat)
    requires ExactOk(E, on) && Ok(E.kind, m) && m.st == SVER && m.msgPass != 3 && S < Pow2(8 * Width(E.kind))
    requires m.f.second == E.enc(E.mul(s, E.base)) && m.f.sig == E.enc(E.mul(r, E.base)) + ToLe(S, Width(E.kind))
    ensures CurveOk(E) && |E.enc(E.mul(r, E.base))| == Width(E.kind)
    ensures var k := HashToScalar(E, Dom(E.kind, 1, Context(m)) + E.enc(E.mul(r, E.base)) + m.f.second + m.f.hash);
            DoExecD(E, m, false).st == if S == (r + k * s) % E.L then SUCCESS else FAILURE
  {
    hide HashToScalar, Dom, SchemeOk, Verifies, ToLe, Pow2, OrderIs;
    SchemeFacts(E, on);
    var R := E.enc(E.mul(r, E.base));
    assert m.f.sig[..Width(E.kind)] == R;
    VerifiesIff(E, on, r, s, HashToScalar(E, Dom(E.kind, 1, Context(m)) + R + m.f.second + m.f.hash), S);
  }

  /**
   A signature made by the two passes of one locker, however it was handed out, is accepted by another that was given it
   with the public key, the context and the message.
   */
  lemma SignedIsAccepted(E: Curve, on: Point -> bool, policy1: nat, aux1: bool, ext1: bool, run1: seq<Instr>,
                         policy2: nat, aux2: bool, ext2: bool, run2: seq<Instr>)
    requires SchemeOk(E, on) && 0 < policy1 < 4 && 0 < policy2 < 4
    requires var (m1, h1) := AfterRun(E, policy1, aux1, ext1, run1);
             var (m2, h2) := AfterRun(E, policy2, aux2, ext2, run2);
             m1.st == SUCCESS && h1.two && BitOf(m2.policy, 1) &&
             Given(E, m2, h2, h1.seed, h1.ctx, h1.signed, h1.emitted)
    ensures var m2 := AfterRun(E, policy2, aux2, ext2, run2).0;
            var v := DoSetSt(E, m2, SVER, FormA, 0, None);
            v.st == SVER && Ok(E.kind, v) && DoExecD(E, v, false).st == SUCCESS
  {
    hide AfterRun, Sign, HashToScalar, Dom, Inv, SchemeOk, Verifies, BitOf, DoSetSt;
    SchemeFacts(E, on);
    var (m1, h1) := AfterRun(E, policy1, aux1, ext1, run1);
    var (m2, h2) := AfterRun(E, policy2, aux2, ext2, run2);
    SignatureHandedOut(E, policy1, aux1, ext1, run1);
    SignVerifies(E, on, h1.seed, h1.signed, 0, h1.ctx);
    ThirdPass(E, m2, h2);
    SetStOk(E, m2, SVER, FormA, 0, None);
  }
}
