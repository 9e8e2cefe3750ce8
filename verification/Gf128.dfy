/**
 Multiplication in GF(2^128).  The Machines multiply without carries and then reduce (ghash_mul, montmul); the
 byte-level references shift and reduce (gmul), in another bit order.  Both are related to `Mul`, the sum of the x^k *
 a over the bits k of b, which is proved commutative.  A field is given by the low part of its modulus x^128 + low.
 */
module Gf128 {
  import opened BitStrings

  /** A polynomial of degree below 256, coefficient of x^k at position k. */
  type Wide = b: Bits | |b| == 256 witness seq(256, _ => false)

  function One(): Block {
    [true] + Zeros(127)
  }

  /** x times v modulo x^128 + low. */
  function MulX(v: Block, low: Block): (r: Block) {
    Xor([false] + v[..127], When(v[127], low))
  }

  /** The sum of b[k] x^k a. */
  function Mul(a: Block, b: Bits, low: Block): (r: Block)
    decreases b
  {
    if b == [] then Zeros(128) else Xor(When(b[0], a), Mul(MulX(a, low), b[1..], low))
  }

  // ---------------------------------------------------------------- carry-less product and reduction

  function Pad(a: Bits): (r: Wide)
    requires |a| <= 256
  {
    a + Zeros(256 - |a|)
  }

  function Up(p: Wide): (r: Wide) {
    [false] + p[..255]
  }

  /** The carry-less product of p and b, with b consumed from its lowest bit. */
  function Clmul(p: Wide, b: Bits): (r: Wide)
    decreases b
  {
    if b == [] then Zeros(256) else Xor(When(b[0], p), Clmul(Up(p), b[1..]))
  }

  /** The modulus x^128 + low moved up by k places. */
  function Modulus(low: Block, k: nat): (r: Wide)
    requires k < 128
  {
    Zeros(k) + low + [true] + Zeros(127 - k)
  }

  function ReduceAt(p: Wide, low: Block, i: nat): (r: Wide)
    requires 128 <= i < 256
  {
    Xor(p, When(p[i], Modulus(low, i - 128)))
  }

  /** Bits i - 1, i - 2, ..., 128 are cancelled in turn. */
  function PolyModFrom(p: Wide, low: Block, i: nat): (r: Wide)
    requires 128 <= i <= 256
    decreases i
  {
    if i == 128 then p else PolyModFrom(ReduceAt(p, low, i - 1), low, i - 1)
  }

  function PolyMod(p: Wide, low: Block): (r: Block) {
    PolyModFrom(p, low, 256)[..128]
  }

  /** The value of a polynomial in the field, by Horner's rule. */
  function InField(p: Bits, low: Block): (r: Block) {
    if p == [] then Zeros(128) else Xor(When(p[0], One()), MulX(InField(p[1..], low), low))
  }

  // ---------------------------------------------------------------- linearity

  lemma XorSwap(a: Bits, b: Bits, c: Bits, d: Bits)
    requires |a| == |b| == |c| == |d|
    ensures Xor(Xor(a, b), Xor(c, d)) == Xor(Xor(a, c), Xor(b, d))
  {
  }

  lemma WhenXor(c: bool, d: bool, a: Bits)
    ensures When(c != d, a) == Xor(When(c, a), When(d, a))
  {
  }

  lemma WhenOfXor(c: bool, a: Bits, b: Bits)
    requires |a| == |b|
    ensures When(c, Xor(a, b)) == Xor(When(c, a), When(c, b))
  {
  }

  lemma MulXLinear(a: Block, b: Block, low: Block)
    ensures MulX(Xor(a, b), low) == Xor(MulX(a, low), MulX(b, low))
  {
    var s, t := [false] + a[..127], [false] + b[..127];
    assert [false] + Xor(a, b)[..127] == Xor(s, t);
    WhenXor(a[127], b[127], low);
    XorSwap(s, t, When(a[127], low), When(b[127], low));
  }

  lemma MulXZero(low: Block)
    ensures MulX(Zeros(128), low) == Zeros(128)
  {
  }

  lemma {:induction false} InFieldLinear(p: Bits, q: Bits, low: Block)
    requires |p| == |q|
    ensures InField(Xor(p, q), low) == Xor(InField(p, low), InField(q, low))
  {
    if p == [] {
      XorLaws(Zeros(128), Zeros(128), Zeros(128));
    } else {
      InFieldLinear(p[1..], q[1..], low);
      assert Xor(p, q)[1..] == Xor(p[1..], q[1..]);
      WhenXor(p[0], q[0], One());
      MulXLinear(InField(p[1..], low), InField(q[1..], low), low);
      XorSwap(When(p[0], One()), When(q[0], One()), MulX(InField(p[1..], low), low), MulX(InField(q[1..], low), low));
    }
  }

  lemma {:induction false} InFieldZeros(n: nat, low: Block)
    ensures InField(Zeros(n), low) == Zeros(128)
  {
    if n > 0 {
      assert Zeros(n)[1..] == Zeros(n - 1);
      InFieldZeros(n - 1, low);
      MulXZero(low);
      XorLaws(Zeros(128), Zeros(128), Zeros(128));
    }
  }

  lemma {:induction false} InFieldPad(p: Bits, n: nat, low: Block)
    ensures InField(p + Zeros(n), low) == InField(p, low)
  {
    if p == [] {
      assert [] + Zeros(n) == Zeros(n);
      InFieldZeros(n, low);
    } else {
      assert (p + Zeros(n))[1..] == p[1..] + Zeros(n);
      InFieldPad(p[1..], n, low);
    }
  }

  /** Polynomials of degree below 128 are their own value. */
  lemma {:induction false} InFieldSmall(p: Bits, low: Block)
    requires |p| <= 128
    ensures InField(p, low) == p + Zeros(128 - |p|)
  {
    if p == [] {
      assert Zeros(128) == [] + Zeros(128);
    } else {
      InFieldSmall(p[1..], low);
      MulXSmall(p[1..], low);
      AddOne(p);
    }
  }

  lemma MulXSmall(p: Bits, low: Block)
    requires |p| < 128
    ensures MulX(p + Zeros(128 - |p|), low) == [false] + p + Zeros(127 - |p|)
  {
    var v := p + Zeros(128 - |p|);
    assert !v[127];
  }

  lemma AddOne(p: Bits)
    requires 0 < |p| <= 128
    ensures Xor(When(p[0], One()), [false] + p[1..] + Zeros(128 - |p|)) == p + Zeros(128 - |p|)
  {
  }

  lemma InFieldUp(p: Wide, low: Block)
    requires !p[255]
    ensures InField(Up(p), low) == MulX(InField(p, low), low)
  {
    assert p == p[..255] + Zeros(1);
    InFieldPad(p[..255], 1, low);
    assert Up(p)[1..] == p[..255];
    XorLaws(MulX(InField(p, low), low), Zeros(128), Zeros(128));
  }

  // ---------------------------------------------------------------- reduction computes the value

  lemma ModulusUp(low: Block, k: nat)
    requires k < 127
    ensures Modulus(low, k + 1) == Up(Modulus(low, k)) && !Modulus(low, k)[255]
  {
    assert Zeros(k + 1) == [false] + Zeros(k);
    assert Zeros(127 - k) == Zeros(126 - k) + [false];
  }

  lemma {:induction false} ModulusVanishes(low: Block, k: nat)
    requires k < 128
    ensures InField(Modulus(low, k), low) == Zeros(128)
  {
    if k == 0 {
      TopVanishes(low);
    } else {
      ModulusVanishes(low, k - 1);
      ModulusUp(low, k - 1);
      InFieldUp(Modulus(low, k - 1), low);
      MulXZero(low);
    }
  }

  lemma TopVanishes(low: Block)
    ensures InField(Modulus(low, 0), low) == Zeros(128)
  {
    hide InField;
    // x^128 is x times x^127, whose product with x is low
    var x127: Block := Zeros(127) + [true];
    InFieldSmall(x127, low);
    InFieldPad(x127, 128, low);
    InFieldSmall(low, low);
    InFieldPad(low, 128, low);
    InFieldUp(Pad(x127), low);
    Top127(low);
    ModulusParts(low, x127);
    InFieldLinear(Pad(low), Up(Pad(x127)), low);
    assert x127 + Zeros(0) == x127 && low + Zeros(0) == low;
    XorLaws(low, low, low);
  }

  lemma Top127(low: Block)
    ensures MulX(Zeros(127) + [true], low) == low
  {
    var v: Block := Zeros(127) + [true];
    assert [false] + v[..127] == Zeros(128);
    XorLaws(low, low, low);
  }

  lemma ModulusParts(low: Block, x127: Block)
    requires x127 == Zeros(127) + [true]
    ensures Modulus(low, 0) == Xor(Pad(low), Up(Pad(x127)))
  {
  }

  lemma ReduceAtKeeps(p: Wide, low: Block, i: nat)
    requires 128 <= i < 256 && forall j :: i < j < 256 ==> !p[j]
    ensures InField(ReduceAt(p, low, i), low) == InField(p, low)
    ensures forall j :: i <= j < 256 ==> !ReduceAt(p, low, i)[j]
  {
    var m := Modulus(low, i - 128);
    ModulusVanishes(low, i - 128);
    InFieldZeros(256, low);
    InFieldLinear(p, When(p[i], m), low);
    XorLaws(InField(p, low), InField(p, low), InField(p, low));
  }

  /** The top-down reduction of a carry-less product is its value in the field. */
  lemma {:induction false} PolyModFromValue(p: Wide, low: Block, i: nat)
    requires 128 <= i <= 256 && forall j :: i <= j < 256 ==> !p[j]
    ensures PolyModFrom(p, low, i)[..128] == InField(p, low)
    decreases i
  {
    if i == 128 {
      assert p == p[..128] + Zeros(128);
      InFieldPad(p[..128], 128, low);
      InFieldSmall(p[..128], low);
      assert p[..128] + Zeros(0) == p[..128];
    } else {
      ReduceAtKeeps(p, low, i - 1);
      PolyModFromValue(ReduceAt(p, low, i - 1), low, i - 1);
    }
  }

  /** Reducing a carry-less product gives the shift-and-add product of the field. */
  lemma {:induction false} ClmulValue(p: Wide, b: Bits, low: Block)
    requires |b| <= 256 && forall j :: 256 - |b| <= j < 256 ==> !p[j]
    ensures InField(Clmul(p, b), low) == Mul(InField(p, low), b, low)
    decreases b
  {
    if b == [] {
      InFieldZeros(256, low);
    } else {
      InFieldUp(p, low);
      ClmulValue(Up(p), b[1..], low);
      InFieldLinear(When(b[0], p), Clmul(Up(p), b[1..]), low);
      InFieldZeros(256, low);
    }
  }

  lemma ProductValue(a: Block, b: Block, low: Block)
    ensures PolyMod(Clmul(Pad(a), b), low) == Mul(a, b, low)
  {
    PolyModFromValue(Clmul(Pad(a), b), low, 256);
    ClmulValue(Pad(a), b, low);
    InFieldPad(a, 128, low);
    InFieldSmall(a, low);
    assert a + Zeros(0) == a;
  }

  // ---------------------------------------------------------------- the carry-less product commutes

  lemma UpLinear(p: Wide, q: Wide)
    ensures Up(Xor(p, q)) == Xor(Up(p), Up(q))
  {
  }

  lemma UpWhen(c: bool, p: Wide)
    ensures Up(When(c, p)) == When(c, Up(p))
  {
    assert Up(Zeros(256)) == Zeros(256);
  }

  lemma {:induction false} ClmulLinear(p: Wide, q: Wide, b: Bits)
    ensures Clmul(Xor(p, q), b) == Xor(Clmul(p, b), Clmul(q, b))
    decreases b
  {
    if b == [] {
      XorLaws(Zeros(256), Zeros(256), Zeros(256));
    } else {
      UpLinear(p, q);
      ClmulLinear(Up(p), Up(q), b[1..]);
      WhenOfXor(b[0], p, q);
      XorSwap(When(b[0], p), When(b[0], q), Clmul(Up(p), b[1..]), Clmul(Up(q), b[1..]));
    }
  }

  lemma {:induction false} ClmulUp(p: Wide, b: Bits)
    ensures Clmul(Up(p), b) == Up(Clmul(p, b))
    decreases b
  {
    if b == [] {
      assert Up(Zeros(256)) == Zeros(256);
    } else {
      ClmulUp(Up(p), b[1..]);
      UpLinear(When(b[0], p), Clmul(Up(p), b[1..]));
      UpWhen(b[0], p);
    }
  }

  lemma {:induction false} ClmulZero(b: Bits)
    ensures Clmul(Zeros(256), b) == Zeros(256)
  {
    if b != [] {
      assert Up(Zeros(256)) == Zeros(256);
      ClmulZero(b[1..]);
      XorLaws(Zeros(256), Zeros(256), Zeros(256));
    }
  }

  lemma {:induction false} ClmulOne(b: Bits)
    requires |b| <= 256
    ensures Clmul(Pad([true]), b) == Pad(b)
  {
    if b == [] {
      assert Pad([]) == Zeros(256);
    } else {
      ClmulUp(Pad([true]), b[1..]);
      ClmulOne(b[1..]);
      assert Xor(When(b[0], Pad([true])), Up(Pad(b[1..]))) == Pad(b);
    }
  }

  lemma SplitPad(x: bool, a: Bits)
    requires |a| < 256
    ensures Pad([x] + a) == Xor(When(x, Pad([true])), Up(Pad(a)))
  {
  }

  /** The lowest bit of the first factor split off. */
  lemma ClmulSplit(x: bool, a: Bits, b: Bits)
    requires |a| < 256 && |b| <= 256
    ensures Clmul(Pad([x] + a), b) == Xor(When(x, Pad(b)), Up(Clmul(Pad(a), b)))
  {
    hide Clmul, Xor, Up, Pad, Zeros;
    var e := When(x, Pad([true]));
    SplitPad(x, a);
    ClmulLinear(e, Up(Pad(a)), b);
    ClmulUp(Pad(a), b);
    ClmulOne(b);
    ClmulZero(b);
  }

  lemma {:induction false} ClmulCommutes(a: Bits, b: Bits)
    requires |a| <= 256 && |b| <= 256
    ensures Clmul(Pad(a), b) == Clmul(Pad(b), a)
  {
    if a == [] {
      assert Pad(a) == Zeros(256);
      ClmulZero(b);
    } else {
      ClmulCommutes(a[1..], b);
      ClmulSplit(a[0], a[1..], b);
      assert [a[0]] + a[1..] == a;
      ClmulUp(Pad(b), a[1..]);
    }
  }

  /** Multiplication in the field commutes. */
  lemma MulCommutes(a: Block, b: Block, low: Block)
    ensures Mul(a, b, low) == Mul(b, a, low)
  {
    ProductValue(a, b, low);
    ProductValue(b, a, low);
    ClmulCommutes(a, b);
  }

  // ---------------------------------------------------------------- the GHASH field in two representations

  /** x^7 + x^2 + x + 1. */
  function Low87(): Block {
    [true, true, true] + Zeros(4) + [true] + Zeros(120)
  }

  /** 0xE1 in the most significant byte. */
  function E1(): Block {
    Zeros(120) + [true] + Zeros(4) + [true, true, true]
  }

  /** Shift right by one, adding E1 when a one is shifted out: x times v in the bit order of SP 800-38D. */
  function HalfX(v: Block): (r: Block) {
    Xor(v[1..] + [false], When(v[0], E1()))
  }

  /** The shift-and-reduce loop on the n lowest bits of X, from the highest of them down. */
  function GmulFrom(X: Bits, V: Block): (r: Block)
    decreases X
  {
    if X == [] then Zeros(128)
    else Xor(When(X[|X| - 1], V), GmulFrom(X[..|X| - 1], HalfX(V)))
  }

  /** SP 800-38D section 6.3, on big-endian integers. */
  function Gmul(X: Block, Y: Block): (r: Block) {
    GmulFrom(X, Y)
  }

  /** The same multiplication on values: bits swapped in the bytes, carry-less product, reduction, swapped back. */
  function GhashMul(a: Block, b: Block): (r: Block) {
    BitSwap(PolyMod(Clmul(Pad(BitSwap(a)), BitSwap(b)), Low87()))
  }

  lemma HalfXReversed(v: Block)
    ensures Reverse(HalfX(v)) == MulX(Reverse(v), Low87())
  {
    hide E1, Low87;
    assert Reverse(E1()) == Low87() by { ReverseE1(); }
    ReverseXor(v[1..] + [false], When(v[0], E1()));
    ReverseWhen(v[0], E1());
    assert Reverse(v[1..] + [false]) == [false] + Reverse(v)[..127];
  }

  lemma ReverseE1()
    ensures Reverse(E1()) == Low87()
  {
  }

  lemma ReverseWhen(c: bool, a: Bits)
    ensures Reverse(When(c, a)) == When(c, Reverse(a))
  {
  }

  lemma ReverseXor(a: Bits, b: Bits)
    requires |a| == |b|
    ensures Reverse(Xor(a, b)) == Xor(Reverse(a), Reverse(b))
  {
  }

  lemma ReverseInit(X: Bits)
    requires X != []
    ensures Reverse(X)[0] == X[|X| - 1] && Reverse(X)[1..] == Reverse(X[..|X| - 1])
  {
  }

  lemma {:induction false} GmulReversed(X: Bits, V: Block)
    ensures Reverse(GmulFrom(X, V)) == Mul(Reverse(V), Reverse(X), Low87())
    decreases X
  {
    hide Low87, E1, HalfX, MulX, Xor, Reverse, Zeros, When;
    if X == [] {
      GmulReversedEmpty(V);
    } else {
      var n := |X| - 1;
      GmulReversed(X[..n], HalfX(V));
      HalfXReversed(V);
      ReverseInit(X);
      ReverseXor(When(X[n], V), GmulFrom(X[..n], HalfX(V)));
      ReverseWhen(X[n], V);
    }
  }

  lemma GmulReversedEmpty(V: Block)
    ensures Reverse(GmulFrom([], V)) == Mul(Reverse(V), Reverse([]), Low87())
  {
  }

  lemma ReverseTwice(a: Bits)
    ensures Reverse(Reverse(a)) == a
  {
  }

  /** The two GHASH multiplications agree: the value-order one after swapping bytes is the big-endian one. */
  lemma GhashMulAgrees(a: Block, b: Block)
    ensures ByteSwap(GhashMul(a, b)) == Gmul(ByteSwap(a), ByteSwap(b))
  {
    hide Mul, GmulFrom, PolyMod, Clmul, BitSwap, ByteSwap;
    var m := Mul(BitSwap(a), BitSwap(b), Low87());
    ProductValue(BitSwap(a), BitSwap(b), Low87());
    MulCommutes(BitSwap(a), BitSwap(b), Low87());
    ReverseSwap(a);
    ReverseSwap(b);
    GmulReversed(ByteSwap(a), ByteSwap(b));
    ReverseSwap(BitSwap(m));
    SwapTwice(m);
    ReverseTwice(Gmul(ByteSwap(a), ByteSwap(b)));
  }

  // ---------------------------------------------------------------- the POLYVAL field

  /** x^127 + x^126 + x^121 + 1. */
  function LowPolyval(): Block {
    [true] + Zeros(120) + [true] + Zeros(4) + [true, true]
  }

  function HalfTimes(v: Block, n: nat): (r: Block)
    decreases n
  {
    if n == 0 then v else HalfTimes(HalfX(v), n - 1)
  }

  /** a b x^-128: the reduced product, then 128 divisions by x (adding the modulus when the constant term is set). */
  function Montmul(a: Block, b: Block): (r: Block) {
    HalfTimes(PolyMod(Clmul(Pad(a), b), LowPolyval()), 128)
  }

  function MulXTimes(v: Block, n: nat, low: Block): (r: Block)
    decreases n
  {
    if n == 0 then v else MulXTimes(MulX(v, low), n - 1, low)
  }

  lemma HalfUndoes(v: Block)
    ensures HalfX(MulX(v, LowPolyval())) == v
  {
    var low := LowPolyval();
    var s := [false] + v[..127];
    assert MulX(v, low)[0] == v[127];
    assert low[1..] + [false] == Xor(E1(), Zeros(127) + [true]);
  }

  lemma HalfXLinear(a: Block, b: Block)
    ensures HalfX(Xor(a, b)) == Xor(HalfX(a), HalfX(b))
  {
    var s, t := a[1..] + [false], b[1..] + [false];
    assert Xor(a, b)[1..] + [false] == Xor(s, t);
    WhenXor(a[0], b[0], E1());
    XorSwap(s, t, When(a[0], E1()), When(b[0], E1()));
  }

  lemma {:induction false} HalfTimesLinear(a: Block, b: Block, n: nat)
    ensures HalfTimes(Xor(a, b), n) == Xor(HalfTimes(a, n), HalfTimes(b, n))
    decreases n
  {
    if n > 0 {
      HalfXLinear(a, b);
      HalfTimesLinear(HalfX(a), HalfX(b), n - 1);
    }
  }

  lemma {:induction false} HalfTimesZero(n: nat)
    ensures HalfTimes(Zeros(128), n) == Zeros(128)
  {
    if n > 0 {
      assert HalfX(Zeros(128)) == Zeros(128);
      HalfTimesZero(n - 1);
    }
  }

  lemma {:induction false} HalfTimesLast(v: Block, n: nat)
    ensures HalfX(HalfTimes(v, n)) == HalfTimes(v, n + 1)
    decreases n
  {
    if n > 0 {
      HalfTimesLast(HalfX(v), n - 1);
    }
  }

  lemma {:induction false} MulXTimesLast(v: Block, n: nat, low: Block)
    ensures MulX(MulXTimes(v, n, low), low) == MulXTimes(v, n + 1, low)
    decreases n
  {
    if n > 0 {
      MulXTimesLast(MulX(v, low), n - 1, low);
    }
  }

  /** k multiplications by x cancel k of n divisions. */
  lemma {:induction false} HalfCancels(v: Block, k: nat, n: nat)
    requires k <= n
    ensures HalfTimes(MulXTimes(v, k, LowPolyval()), n) == HalfTimes(v, n - k)
    decreases k
  {
    if k > 0 {
      MulXTimesLast(v, k - 1, LowPolyval());
      HalfUndoes(MulXTimes(v, k - 1, LowPolyval()));
      HalfCancels(v, k - 1, n - 1);
    }
  }

  /** The highest bit of the second factor split off. */
  lemma {:induction false} MulSnoc(a: Block, b: Bits, x: bool, low: Block)
    ensures Mul(a, b + [x], low) == Xor(Mul(a, b, low), When(x, MulXTimes(a, |b|, low)))
    decreases b
  {
    if b == [] {
      assert [] + [x] == [x];
      assert [x][1..] == [];
      XorLaws(When(x, a), Zeros(128), Zeros(128));
    } else {
      assert (b + [x])[1..] == b[1..] + [x];
      MulSnoc(MulX(a, low), b[1..], x, low);
      XorLaws(When(b[0], a), Mul(MulX(a, low), b[1..], low), When(x, MulXTimes(a, |b|, low)));
    }
  }

  lemma {:induction false} GmulIsMontgomery(X: Bits, h: Block, V: Block)
    requires |X| <= 128 && V == HalfTimes(h, 129 - |X|)
    ensures GmulFrom(X, V) == HalfTimes(Mul(h, X, LowPolyval()), 128)
    decreases X
  {
    hide Mul, MulXTimes, LowPolyval, MulX, HalfX, Xor, Zeros;
    if X == [] {
      HalfTimesZero(128);
      MulEmpty(h);
    } else {
      var n, low := |X| - 1, LowPolyval();
      HalfTimesLast(h, 129 - |X|);
      GmulIsMontgomery(X[..n], h, HalfX(V));
      assert X == X[..n] + [X[n]];
      MulSnoc(h, X[..n], X[n], low);
      HalfTimesLinear(Mul(h, X[..n], low), When(X[n], MulXTimes(h, n, low)), 128);
      HalfCancels(h, n, 128);
      HalfTimesZero(128);
      XorLaws(When(X[n], V), GmulFrom(X[..n], HalfX(V)), Zeros(128));
    }
  }

  lemma MulEmpty(h: Block)
    ensures Mul(h, [], LowPolyval()) == Zeros(128)
  {
  }

  /**
   Montgomery multiplication is the GHASH multiplication by x times the key, on the same bits (RFC 8452 Appendix A).
   */
  lemma MontmulAgrees(a: Block, h: Block)
    ensures Gmul(a, HalfX(h)) == Montmul(a, h)
  {
    hide Mul, GmulFrom, PolyMod, Clmul;
    assert HalfTimes(h, 1) == HalfX(h);
    GmulIsMontgomery(a, h, HalfX(h));
    ProductValue(a, h, LowPolyval());
    MulCommutes(a, h, LowPolyval());
  }

  // ---------------------------------------------------------------- hashes over block sequences

  /** GHASH of the Machines: the accumulator is a value. */
  function Absorb(tag: Block, blocks: seq<Block>, auth: Block): (r: Block)
    decreases blocks
  {
    if blocks == [] then tag else Absorb(GhashMul(Xor(tag, blocks[0]), auth), blocks[1..], auth)
  }

  /** GHASH of the byte-level reference: the accumulator is a big-endian integer. */
  function GhashFrom(y: Block, blocks: seq<Block>, h: Block): (r: Block)
    decreases blocks
  {
    if blocks == [] then y else GhashFrom(Gmul(Xor(y, ByteSwap(blocks[0])), h), blocks[1..], h)
  }

  /** ghash(H, data) on 16-byte blocks. */
  function Ghash(H: Block, blocks: seq<Block>): (r: Block) {
    ByteSwap(GhashFrom(Zeros(128), blocks, ByteSwap(H)))
  }

  lemma {:induction false} AbsorbIsGhashFrom(tag: Block, blocks: seq<Block>, auth: Block)
    ensures ByteSwap(Absorb(tag, blocks, auth)) == GhashFrom(ByteSwap(tag), blocks, ByteSwap(auth))
    decreases blocks
  {
    if blocks != [] {
      var next := GhashMul(Xor(tag, blocks[0]), auth);
      GhashMulAgrees(Xor(tag, blocks[0]), auth);
      SwapXor(tag, blocks[0]);
      AbsorbIsGhashFrom(next, blocks[1..], auth);
    }
  }

  /** Folding the Machines' multiplication over any block sequence is the reference GHASH. */
  lemma AbsorbIsGhash(blocks: seq<Block>, auth: Block)
    ensures Absorb(Zeros(128), blocks, auth) == Ghash(auth, blocks)
  {
    AbsorbIsGhashFrom(Zeros(128), blocks, auth);
    assert ByteSwap(Zeros(128)) == Zeros(128);
    SwapTwice(Absorb(Zeros(128), blocks, auth));
  }

  function PolyvalFrom(t: Block, blocks: seq<Block>, key: Block): (r: Block)
    decreases blocks
  {
    if blocks == [] then t else PolyvalFrom(Montmul(Xor(t, blocks[0]), key), blocks[1..], key)
  }

  function PolyvalRefFrom(y: Block, blocks: seq<Block>, h: Block): (r: Block)
    decreases blocks
  {
    if blocks == [] then y else PolyvalRefFrom(Gmul(Xor(y, blocks[0]), h), blocks[1..], h)
  }

  /** POLYVAL by Montgomery multiplication is POLYVAL by GHASH, for every key and block sequence. */
  lemma {:induction false} PolyvalAgrees(t: Block, blocks: seq<Block>, key: Block)
    ensures PolyvalFrom(t, blocks, key) == PolyvalRefFrom(t, blocks, HalfX(key))
    decreases blocks
  {
    if blocks != [] {
      MontmulAgrees(Xor(t, blocks[0]), key);
      PolyvalAgrees(Montmul(Xor(t, blocks[0]), key), blocks[1..], key);
    }
  }

  lemma {:induction false} AbsorbConcat(tag: Block, a: seq<Block>, b: seq<Block>, auth: Block)
    ensures Absorb(tag, a + b, auth) == Absorb(Absorb(tag, a, auth), b, auth)
    decreases a
  {
    if a == [] {
      assert [] + b == b;
    } else {
      assert (a + b)[1..] == a[1..] + b;
      AbsorbConcat(GhashMul(Xor(tag, a[0]), auth), a[1..], b, auth);
    }
  }

  // ---------------------------------------------------------------- the loops

  lemma {:induction false} ClmulNoBits(p: Wide, b: Bits)
    requires true !in b
    ensures Clmul(p, b) == Zeros(256)
    decreases b
  {
    if b != [] {
      ClmulNoBits(Up(p), b[1..]);
      XorLaws(Zeros(256), Zeros(256), Zeros(256));
    }
  }

  /** Shift and add until no bit of b is left. */
  method ClmulLoop(a0: Wide, b0: Bits) returns (r: Wide)
    ensures r == Clmul(a0, b0)
  {
    hide Clmul, Xor, Up, Zeros;
    var a, b := a0, b0;
    r := Zeros(256);
    XorLaws(Clmul(a, b), r, r);
    while true in b
      invariant Xor(r, Clmul(a, b)) == Clmul(a0, b0)
      decreases |b|
    {
      ClmulStep(r, a, b);
      if b[0] {
        r := Xor(r, a);
      }
      a, b := Up(a), b[1..];
    }
    ClmulNoBits(a, b);
    XorLaws(r, r, r);
  }

  lemma ClmulStep(r: Wide, a: Wide, b: Bits)
    requires b != []
    ensures Xor(r, Clmul(a, b)) == Xor(if b[0] then Xor(r, a) else r, Clmul(Up(a), b[1..]))
  {
    XorLaws(r, When(b[0], a), Clmul(Up(a), b[1..]));
    XorLaws(r, Clmul(Up(a), b[1..]), Clmul(Up(a), b[1..]));
    XorLaws(Zeros(256), Clmul(Up(a), b[1..]), Zeros(256));
  }

  /** Cancel the bits above 127 from the top down. */
  method PolyModLoop(p0: Wide, low: Block) returns (r: Block)
    ensures r == PolyMod(p0, low)
  {
    hide ReduceAt;
    var p, i := p0, 256;
    while i > 128
      invariant 128 <= i <= 256 && PolyModFrom(p, low, i) == PolyModFrom(p0, low, 256)
    {
      i := i - 1;
      p := ReduceAt(p, low, i);
    }
    r := p[..128];
  }

  /** The reference multiplication: V is halved while the bits of X are taken from the top. */
  method GmulLoop(X: Block, Y: Block) returns (Z: Block)
    ensures Z == Gmul(X, Y)
  {
    hide HalfX, Xor, Zeros;
    Z := Zeros(128);
    var V := Y;
    XorLaws(Gmul(X, Y), Gmul(X, Y), Gmul(X, Y));
    var i := 128;
    assert X[..i] == X;
    while i > 0
      invariant 0 <= i <= 128 && Xor(Z, GmulFrom(X[..i], V)) == Gmul(X, Y)
    {
      i := i - 1;
      GmulStep(Z, X[..i + 1], V);
      assert X[..i + 1][..i] == X[..i];
      if X[i] {
        Z := Xor(Z, V);
      }
      V := HalfX(V);
    }
    XorLaws(Z, Z, Z);
  }

  lemma GmulStep(Z: Block, X: Bits, V: Block)
    requires X != []
    ensures var n := |X| - 1;
            Xor(Z, GmulFrom(X, V)) == Xor(if X[n] then Xor(Z, V) else Z, GmulFrom(X[..n], HalfX(V)))
  {
    var rest := GmulFrom(X[..|X| - 1], HalfX(V));
    XorLaws(Z, When(X[|X| - 1], V), rest);
    XorLaws(Zeros(128), rest, rest);
    XorLaws(rest, Zeros(128), rest);
  }

  /** The reduced product, then 128 divisions by x. */
  method MontmulLoop(a: Block, b: Block) returns (p: Block)
    ensures p == Montmul(a, b)
  {
    hide HalfX, Clmul, PolyMod;
    var c := ClmulLoop(Pad(a), b);
    p := PolyModLoop(c, LowPolyval());
    ghost var whole := HalfTimes(p, 128);
    for i := 0 to 128
      invariant HalfTimes(p, 128 - i) == whole
    {
      p := HalfX(p);
    }
  }

  /** POLYVAL of a block sequence. */
  method PolyvalLoop(key: Block, blocks: seq<Block>) returns (t: Block)
    ensures t == PolyvalFrom(Zeros(128), blocks, key) == PolyvalRefFrom(Zeros(128), blocks, HalfX(key))
  {
    hide Montmul, Xor, HalfX, Zeros;
    t := Zeros(128);
    PolyvalAgrees(t, blocks, key);
    for i := 0 to |blocks|
      invariant PolyvalFrom(t, blocks[i..], key) == PolyvalFrom(Zeros(128), blocks, key)
    {
      t := MontmulLoop(Xor(t, blocks[i]), key);
      assert blocks[i..][1..] == blocks[i + 1..];
    }
  }
}
