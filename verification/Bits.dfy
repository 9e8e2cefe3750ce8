/**
 Values of the specification's notation: strings of bits, bit 0 first.  A byte string is the string of its bits, byte 0
 first and bit 0 of each byte first, so the conversions between byte strings and values are the identity here.
 */
module BitStrings {
  import opened Modular
  import opened Digits

  type Bits = seq<bool>

  /** A 128-bit value, or 16 bytes. */
  type Block = b: Bits | |b| == 128 witness seq(128, _ => false)

  function Zeros(n: nat): (r: Bits)
    ensures |r| == n
  {
    seq(n, _ => false)
  }

  function Xor(a: Bits, b: Bits): (r: Bits)
    requires |a| == |b|
    ensures |r| == |a|
  {
    seq(|a|, i requires 0 <= i < |a| => a[i] != b[i])
  }

  /** a where c holds, zero elsewhere. */
  function When(c: bool, a: Bits): (r: Bits)
    ensures |r| == |a|
  {
    if c then a else Zeros(|a|)
  }

  /** The n bits of v from position lo on; positions past the end are zero, as in an unbounded integer. */
  function Slice(v: Bits, lo: nat, n: nat): (r: Bits)
    ensures |r| == n
  {
    seq(n, i requires 0 <= i < n => lo + i < |v| && v[lo + i])
  }

  /** Where position i of n bits goes when the bytes are reversed. */
  function ByteMirror(n: nat, i: nat): (k: nat)
    requires n % 8 == 0 && i < n
    ensures k < n
  {
    8 * (n / 8 - 1 - i / 8) + i % 8
  }

  /** Where position i goes when the bits of each byte are reversed. */
  function BitMirror(n: nat, i: nat): (k: nat)
    requires n % 8 == 0 && i < n
    ensures k < n
  {
    8 * (i / 8) + 7 - i % 8
  }

  /** The order of the bytes reversed. */
  function ByteSwap(v: Bits): (r: Bits)
    requires |v| % 8 == 0
    ensures |r| == |v|
  {
    seq(|v|, i requires 0 <= i < |v| => v[ByteMirror(|v|, i)])
  }

  /** The order of the bits in each byte reversed. */
  function BitSwap(v: Bits): (r: Bits)
    requires |v| % 8 == 0
    ensures |r| == |v|
  {
    seq(|v|, i requires 0 <= i < |v| => v[BitMirror(|v|, i)])
  }

  function Reverse(v: Bits): (r: Bits)
    ensures |r| == |v|
  {
    seq(|v|, i requires 0 <= i < |v| => v[|v| - 1 - i])
  }

  /** The number with these bits. */
  function ToNat(v: Bits): (n: nat)
    ensures n < Pow2(|v|)
  {
    if v == [] then 0 else (if v[0] then 1 else 0) + 2 * ToNat(v[1..])
  }

  /** The n least significant bits of x. */
  function FromNat(x: nat, n: nat): (v: Bits)
    ensures |v| == n
  {
    if n == 0 then [] else [x % 2 == 1] + FromNat(x / 2, n - 1)
  }

  // ---------------------------------------------------------------- laws

  lemma XorLaws(a: Bits, b: Bits, c: Bits)
    requires |a| == |b| == |c|
    ensures Xor(a, b) == Xor(b, a)
    ensures Xor(Xor(a, b), c) == Xor(a, Xor(b, c))
    ensures Xor(a, a) == Zeros(|a|) && Xor(a, Zeros(|a|)) == a && Xor(Zeros(|a|), a) == a
    ensures Xor(Xor(a, b), b) == a
  {
  }

  lemma {:induction false} NatRoundTrip(x: nat, n: nat)
    ensures ToNat(FromNat(x, n)) == x % Pow2(n)
  {
    if n > 0 {
      NatRoundTrip(x / 2, n - 1);
      HalfMod(x, Pow2(n - 1));
    }
  }

  lemma Number(x: nat, n: nat)
    requires x < Pow2(n)
    ensures ToNat(FromNat(x, n)) == x
  {
    NatRoundTrip(x, n);
    SmallMod(x, Pow2(n));
  }

  lemma SliceTwice(v: Bits, n: nat)
    ensures Slice(Slice(v, 0, n), 0, n) == Slice(v, 0, n)
  {
  }

  lemma HalfMod(x: nat, p: nat)
    requires p > 0
    ensures x % 2 + 2 * (x / 2 % p) == x % (2 * p)
  {
    var h := x / 2;
    assert h == (h / p) * p + h % p;
    assert x == (h / p) * (2 * p) + (x % 2 + 2 * (h % p));
    DivModUnique(x, 2 * p, h / p, x % 2 + 2 * (h % p));
  }

  lemma {:induction false} BitsRoundTrip(v: Bits)
    ensures FromNat(ToNat(v), |v|) == v
  {
    if v != [] {
      BitsRoundTrip(v[1..]);
    }
  }

  /** Only the low bits matter. */
  lemma LowPart(x: nat, n: nat)
    ensures FromNat(x % Pow2(n), n) == FromNat(x, n)
  {
    NatRoundTrip(x, n);
    BitsRoundTrip(FromNat(x, n));
  }

  lemma MirrorTwice(n: nat, i: nat)
    requires n % 8 == 0 && i < n
    ensures ByteMirror(n, ByteMirror(n, i)) == i && BitMirror(n, BitMirror(n, i)) == i
    ensures ByteMirror(n, n - 1 - i) == BitMirror(n, i) && BitMirror(n, n - 1 - i) == ByteMirror(n, i)
  {
    assert ByteMirror(n, i) / 8 == n / 8 - 1 - i / 8 && ByteMirror(n, i) % 8 == i % 8;
    assert BitMirror(n, i) / 8 == i / 8 && BitMirror(n, i) % 8 == 7 - i % 8;
    assert (n - 1 - i) / 8 == n / 8 - 1 - i / 8 && (n - 1 - i) % 8 == 7 - i % 8;
  }

  lemma SwapTwice(v: Bits)
    requires |v| % 8 == 0
    ensures ByteSwap(ByteSwap(v)) == v && BitSwap(BitSwap(v)) == v
  {
    hide ByteMirror, BitMirror;
    forall i | 0 <= i < |v|
      ensures ByteSwap(ByteSwap(v))[i] == v[i] && BitSwap(BitSwap(v))[i] == v[i]
    {
      MirrorTwice(|v|, i);
    }
  }

  lemma SwapXor(a: Bits, b: Bits)
    requires |a| == |b| && |a| % 8 == 0
    ensures ByteSwap(Xor(a, b)) == Xor(ByteSwap(a), ByteSwap(b))
    ensures BitSwap(Xor(a, b)) == Xor(BitSwap(a), BitSwap(b))
  {
  }

  /** Swapping bytes and then reversing all bits swaps the bits inside the bytes. */
  lemma ReverseSwap(v: Bits)
    requires |v| % 8 == 0
    ensures Reverse(ByteSwap(v)) == BitSwap(v) && Reverse(BitSwap(v)) == ByteSwap(v)
  {
    hide ByteMirror, BitMirror;
    forall i | 0 <= i < |v|
      ensures Reverse(ByteSwap(v))[i] == BitSwap(v)[i] && Reverse(BitSwap(v))[i] == ByteSwap(v)[i]
    {
      MirrorTwice(|v|, i);
    }
  }
}
