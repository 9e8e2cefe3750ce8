/**
 Blocks as big-endian numbers: doubling and padding as the byte-level references write them, and the proof that the
 Machines' bit-level forms compute the same.
 */
module BlockNumbers {
  import opened Modular
  import opened BitStrings
  import opened Gf128
  import opened AeadBase

  /** The 16 bytes of a number, most significant first. */
  function BigEndian(n: nat): (r: Block) {
    ByteSwap(FromNat(n, 128))
  }

  function NumberOf(b: Block): (n: nat)
    ensures n < Pow2(128)
  {
    ToNat(ByteSwap(b))
  }

  /** The exclusive or of two numbers. */
  function XorNumbers(a: nat, b: nat): nat
    decreases a + b
  {
    if a == 0 && b == 0 then 0 else (if a % 2 == b % 2 then 0 else 1) + 2 * XorNumbers(a / 2, b / 2)
  }

  /** Shifted left by one; what is carried out of 128 bits comes back as 0x87. */
  function DoubledNumber(n: nat): nat {
    hide Pow2, XorNumbers;
    if 2 * n < Pow2(128) then 2 * n else XorNumbers(2 * n - Pow2(128), 0x87)
  }

  function RefDouble(b: Block): (r: Block) {
    BigEndian(DoubledNumber(NumberOf(b)))
  }

  /** A last piece, the byte 0x80, zero bytes. */
  function RefPad(x: Bits): (r: Block)
    requires |x| <= 120
  {
    x + FromNat(0x80, 8) + Zeros(120 - |x|)
  }

  // ---------------------------------------------------------------- numbers of bit strings

  lemma {:induction false} ConcatNumber(a: Bits, b: Bits)
    ensures ToNat(a + b) == ToNat(a) + Pow2(|a|) * ToNat(b)
  {
    if a == [] {
      assert a + b == b;
    } else {
      ConcatNumber(a[1..], b);
      assert (a + b)[1..] == a[1..] + b;
      Distribute(2, ToNat(a[1..]), Pow2(|a| - 1), ToNat(b));
    }
  }

  lemma Distribute(c: nat, x: nat, p: nat, y: nat)
    ensures c * (x + p * y) == c * x + c * p * y
  {
  }

  lemma {:induction false} ZerosNumber(n: nat)
    ensures ToNat(Zeros(n)) == 0
  {
    if n > 0 {
      ZerosNumber(n - 1);
      assert Zeros(n)[1..] == Zeros(n - 1);
    }
  }

  lemma {:induction false} XorNumber(a: Bits, b: Bits)
    requires |a| == |b|
    ensures ToNat(Xor(a, b)) == XorNumbers(ToNat(a), ToNat(b))
  {
    if a != [] {
      XorNumber(a[1..], b[1..]);
      assert Xor(a, b)[1..] == Xor(a[1..], b[1..]);
      XorStep(a[0], ToNat(a[1..]), b[0], ToNat(b[1..]));
    }
  }

  lemma XorStep(c: bool, x: nat, d: bool, y: nat)
    ensures XorNumbers((if c then 1 else 0) + 2 * x, (if d then 1 else 0) + 2 * y) ==
            (if c != d then 1 else 0) + 2 * XorNumbers(x, y)
  {
    var a, b := (if c then 1 else 0) + 2 * x, (if d then 1 else 0) + 2 * y;
    assert a / 2 == x && b / 2 == y;
  }

  lemma {:induction false} XorNothing(x: nat)
    ensures XorNumbers(x, 0) == x
  {
    if x > 0 {
      XorNothing(x / 2);
    }
  }

  lemma Number87()
    ensures ToNat(Low87()) == 0x87
  {
    hide ToNat;
    ConcatNumber([true, true, true] + Zeros(4) + [true], Zeros(120));
    ZerosNumber(120);
    assert [true, true, true] + Zeros(4) + [true] == [true, true, true, false, false, false, false, true];
    ByteNumber([true, true, true, false, false, false, false, true]);
  }

  lemma ByteNumber(v: Bits)
    requires |v| == 8
    ensures ToNat(v) == (if v[0] then 1 else 0) + (if v[1] then 2 else 0) + (if v[2] then 4 else 0) +
                        (if v[3] then 8 else 0) + (if v[4] then 16 else 0) + (if v[5] then 32 else 0) +
                        (if v[6] then 64 else 0) + (if v[7] then 128 else 0)
  {
    hide ToNat;
    assert v[4..][4..] == [];
    FourBits(v);
    FourBits(v[4..]);
    assert ToNat([]) == 0 by { NoBits(); }
  }

  lemma NoBits()
    ensures ToNat([]) == 0
  {
  }

  lemma FourBits(v: Bits)
    requires |v| >= 4
    ensures ToNat(v) == (if v[0] then 1 else 0) + (if v[1] then 2 else 0) + (if v[2] then 4 else 0) +
                        (if v[3] then 8 else 0) + 16 * ToNat(v[4..])
  {
    hide ToNat;
    assert v[2..][2..] == v[4..];
    TwoBits(v);
    TwoBits(v[2..]);
  }

  lemma TwoBits(v: Bits)
    requires |v| >= 2
    ensures ToNat(v) == (if v[0] then 1 else 0) + (if v[1] then 2 else 0) + 4 * ToNat(v[2..])
  {
    assert v[1..][1..] == v[2..];
  }

  // ---------------------------------------------------------------- the two forms agree

  /** Multiplying by x is doubling the number, with 0x87 for the carry. */
  lemma MulXNumber(v: Block)
    ensures ToNat(MulX(v, Low87())) == DoubledNumber(ToNat(v))
  {
    hide ToNat, Pow2, Low87, XorNumbers;
    var u, t := v[..127], [false] + v[..127];
    assert v == u + [v[127]];
    ConcatNumber(u, [v[127]]);
    ConcatNumber([false], u);
    BitNumber(false);
    BitNumber(v[127]);
    PowerNext(127);
    PowerNext(0);
    TopBit(v[127], ToNat(u), Pow2(127));
    XorNumber(t, When(v[127], Low87()));
    if v[127] {
      Number87();
    } else {
      ZerosNumber(128);
      XorNothing(ToNat(t));
    }
  }

  lemma TopBit(c: bool, u: nat, p: nat)
    requires u < p
    ensures p * (if c then 1 else 0) == if c then p else 0
  {
  }

  lemma PowerNext(k: nat)
    ensures Pow2(k + 1) == 2 * Pow2(k) && Pow2(0) == 1
  {
  }

  lemma BitNumber(c: bool)
    ensures ToNat([c]) == if c then 1 else 0
  {
  }

  /** The number of the double: twice the number, or, when that does not fit, less 2^128 and with 0x87 added. */
  lemma DoubleOnNumbers(b: Block)
    ensures NumberOf(Double(b)) == DoubledNumber(NumberOf(b))
  {
    hide MulX, ToNat, DoubledNumber, ByteSwap;
    MulXNumber(ByteSwap(b));
    SwapTwice(MulX(ByteSwap(b), Low87()));
  }

  lemma BigEndianOfNumber(b: Block)
    ensures BigEndian(NumberOf(b)) == b
  {
    BitsRoundTrip(ByteSwap(b));
    SwapTwice(b);
  }

  /** The Machines' doubling is that of the references. */
  lemma DoubleIsReference(b: Block)
    ensures Double(b) == RefDouble(b)
  {
    hide Double, BigEndian, NumberOf, DoubledNumber;
    DoubleOnNumbers(b);
    BigEndianOfNumber(Double(b));
  }

  lemma PadIsReference(x: Bits)
    requires |x| <= 120
    ensures PadOne(x) == RefPad(x)
  {
    ConcatNumber(Zeros(7), [true]);
    ZerosNumber(7);
    BitNumber(true);
    assert Pow2(7) == 128;
    BitsRoundTrip(Zeros(7) + [true]);
  }
}
