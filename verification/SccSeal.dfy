/**
 The sealing of containers against the independent one: RFC 8452 with a zero nonce, without the lengths, and with bit
 126 to separate the segments.  What opens under one synthetic IV has one hash.
 */
module SccSeal {
  import opened Wrappers
  import opened Modular
  import opened BitStrings
  import opened BitFields
  import opened Gf128
  import opened AeadBase
  import opened BlockNumbers
  import opened GcmReference
  import opened Metadata
  import opened Scc
  import opened SccCorrect
  import Rfc8452

  // ---------------------------------------------------------------- keys

  lemma {:induction false} WideNumber(x: nat, n: nat, m: nat)
    requires x < Pow2(n) && n <= m
    ensures FromNat(x, m) == FromNat(x, n) + Zeros(m - n)
    decreases n
  {
    if n == 0 {
      BitsRoundTrip(Zeros(m));
      ZerosNumber(m);
    } else {
      WideNumber(x / 2, n - 1, m - 1);
    }
  }

  lemma PartIsHalf(aes: Aes, key: Bits, i: nat)
    requires i < 6
    ensures KeyPart(aes, key, i) == aes(key, FromNat(i, 32) + Zeros(96))[..64]
  {
    hide FromNat;
    assert Pow2(3) == 8;
    PowersGrow(3, 32);
    WideNumber(i, 32, 128);
  }

  /** The keys are those derived from a zero nonce. */
  lemma KeysAreRfc(aes: Aes, key: Bits)
    requires |key| == 256
    ensures EncKey(aes, key) == Rfc8452.RefEncKey(aes, key, Zeros(96))
    ensures AuthKey(aes, key) == Rfc8452.RefAuthKey(aes, key, Zeros(96))
  {
    hide KeyPart, Rfc8452.Halves;
    SixHalves(aes, key);
    var h: Bits, e: Bits := AuthKey(aes, key), EncKey(aes, key);
    assert (h + e)[..128] == h && (h + e)[128..] == e;
  }

  lemma SixHalves(aes: Aes, key: Bits)
    ensures Rfc8452.Halves(aes, key, Zeros(96), 6) == AuthKey(aes, key) + EncKey(aes, key)
  {
    hide KeyPart, Rfc8452.Halves;
    NoHalves(aes, key);
    HalvesNext(aes, key, 0, []);
    HalvesNext(aes, key, 1, [] + KeyPart(aes, key, 0));
    var a := AuthKey(aes, key);
    assert [] + KeyPart(aes, key, 0) + KeyPart(aes, key, 1) == a;
    HalvesNext(aes, key, 2, a);
    HalvesNext(aes, key, 3, a + KeyPart(aes, key, 2));
    HalvesNext(aes, key, 4, a + KeyPart(aes, key, 2) + KeyPart(aes, key, 3));
    HalvesNext(aes, key, 5, a + KeyPart(aes, key, 2) + KeyPart(aes, key, 3) + KeyPart(aes, key, 4));
    Regroup(a, KeyPart(aes, key, 2), KeyPart(aes, key, 3), KeyPart(aes, key, 4), KeyPart(aes, key, 5));
  }

  lemma Regroup(a: Bits, b: Bits, c: Bits, d: Bits, e: Bits)
    ensures a + b + c + d + e == a + (b + c + d + e)
  {
  }

  lemma NoHalves(aes: Aes, key: Bits)
    ensures Rfc8452.Halves(aes, key, Zeros(96), 0) == []
  {
  }

  lemma HalvesNext(aes: Aes, key: Bits, i: nat, before: Bits)
    requires i < 6 && Rfc8452.Halves(aes, key, Zeros(96), i) == before
    ensures Rfc8452.Halves(aes, key, Zeros(96), i + 1) == before + KeyPart(aes, key, i)
  {
    hide KeyPart;
    PartIsHalf(aes, key, i);
  }

  // ---------------------------------------------------------------- tag and keystream

  lemma TagInputIsRfc(t: Block, sep: bool)
    ensures t[..126] + [sep] + [false] == Rfc8452.TagInput(t, Zeros(96), Some(sep))
  {
    assert Zeros(96) + Zeros(32) == Zeros(128);
    XorLaws(t, t, t);
    assert t[..126] + [sep] + [false] == t[127 := false][126 := sep];
  }

  lemma CounterIsRfc(sep: bool, siv: Block, i: nat)
    ensures Counter(sep, siv, i) == Rfc8452.CounterAt(siv, Some(sep), i)
  {
    hide FromNat, ToNat, Pow2;
    var c := siv[127 := true][126 := sep];
    assert c[..32] == siv[..32] && c[32..] == siv[32..126] + [sep] + [true];
    LowPart(ToNat(siv[..32]) + i, 32);
  }

  lemma {:induction false} KeystreamIsRfc(aes: Aes, ek: Bits, sep: bool, siv: Block, x: seq<Block>, i: nat)
    ensures Flatten(Keystreamed(aes, ek, sep, siv, x, i)) == Rfc8452.Stream(aes, ek, siv, Some(sep), Flatten(x), i)
    decreases |x|
  {
    hide Counter, Rfc8452.CounterAt;
    if x != [] {
      KeystreamIsRfc(aes, ek, sep, siv, x[1..], i + 1);
      CounterIsRfc(sep, siv, i);
      var k := aes(ek, Counter(sep, siv, i));
      assert k[..128] == k;
      assert Flatten(x)[..128] == x[0] && Flatten(x)[128..] == Flatten(x[1..]);
      var y := Keystreamed(aes, ek, sep, siv, x, i);
      assert y[1..] == Keystreamed(aes, ek, sep, siv, x[1..], i + 1);
    }
  }

  /** The synthetic IV is the tag of the independent seal. */
  lemma SivIsRfc(aes: Aes, key: Bits, AD: seq<Block>, sep: bool, P: seq<Block>)
    requires AD != [] && |key| == 256
    ensures Siv(aes, key, AD, sep, P) ==
            Rfc8452.SealTag(aes, key, Zeros(96), Flatten(Normalized(AD, sep)), Flatten(P), false, Some(sep))
  {
    hide PolyvalFrom, EncKey, AuthKey, Normalized, Rfc8452.TagInput, Rfc8452.RefEncKey, Rfc8452.RefAuthKey, BlockSeq;
    KeysAreRfc(aes, key);
    WholePadding(Normalized(AD, sep));
    WholePadding(P);
    var blocks := Normalized(AD, sep) + P;
    assert Rfc8452.HashInput(Flatten(Normalized(AD, sep)), Flatten(P), false) == blocks + [];
    assert blocks + [] == blocks;
    PolyvalAgrees(Zeros(128), blocks, AuthKey(aes, key));
    TagInputIsRfc(PolyvalFrom(Zeros(128), blocks, AuthKey(aes, key)), sep);
  }

  lemma WholePadding(b: seq<Block>)
    ensures BlockSeq(Pad16(Flatten(b))) == b
  {
    assert Pad16(Flatten(b)) == Flatten(b);
    BlocksOfFlatten(b);
  }

  /** A segment is sealed as RFC 8452 seals it: zero nonce, no lengths, bit 126 replaced. */
  lemma EncryptIsSeal(aes: Aes, key: Bits, AD: seq<Block>, sep: bool, P: seq<Block>)
    requires AD != [] && |key| == 256
    ensures var (siv, C) := Encrypt(aes, key, AD, sep, P);
            Rfc8452.Seal(aes, key, Zeros(96), Flatten(Normalized(AD, sep)), Flatten(P), false, Some(sep)) ==
            (Flatten(C), siv)
  {
    hide Siv, Keystreamed, EncKey, Normalized, Rfc8452.Stream, Rfc8452.SealTag, Rfc8452.RefEncKey, Rfc8452.RefAuthKey;
    SivIsRfc(aes, key, AD, sep, P);
    KeysAreRfc(aes, key);
    KeystreamIsRfc(aes, EncKey(aes, key), sep, Siv(aes, key, AD, sep, P), P, 0);
  }

  // ---------------------------------------------------------------- what opens

  /**
   Under an injective cipher, what opens with one synthetic IV, under any associated data and from any content, has one
   hash in the bits encrypted.
   */
  lemma OpenedAgree(aes: Aes, key: Bits, AD: seq<Block>, AD': seq<Block>, sep: bool, siv: Block, C: seq<Block>,
                    C': seq<Block>, n: nat, n': nat)
    requires 0 < |AD| <= 7 + n && 0 < |AD'| <= 7 + n'
    requires forall x: Block, y: Block :: aes(EncKey(aes, key), x) == aes(EncKey(aes, key), y) ==> x == y
    requires Decrypt(aes, key, AD, sep, siv, C, n).Some? && Decrypt(aes, key, AD', sep, siv, C', n').Some?
    ensures var h := AuthKey(aes, key);
            var P, P' := Decrypt(aes, key, AD, sep, siv, C, n).value, Decrypt(aes, key, AD', sep, siv, C', n').value;
            Rfc8452.Polyval(h, Normalized(AD, sep) + P)[..126] == Rfc8452.Polyval(h, Normalized(AD', sep) + P')[..126]
  {
    hide PolyvalFrom, EncKey, AuthKey, Normalized, Keystreamed;
    var ek := EncKey(aes, key);
    var P, P' := Keystreamed(aes, ek, sep, siv, C, 0), Keystreamed(aes, ek, sep, siv, C', 0);
    var t := PolyvalFrom(Zeros(128), Normalized(AD, sep) + P, AuthKey(aes, key));
    var t' := PolyvalFrom(Zeros(128), Normalized(AD', sep) + P', AuthKey(aes, key));
    PolyvalAgrees(Zeros(128), Normalized(AD, sep) + P, AuthKey(aes, key));
    PolyvalAgrees(Zeros(128), Normalized(AD', sep) + P', AuthKey(aes, key));
    SameHead(t, t', sep);
  }

  lemma SameHead(t: Block, t': Block, sep: bool)
    requires t[..126] + [sep] + [false] == t'[..126] + [sep] + [false]
    ensures t[..126] == t'[..126]
  {
    var a, b := t[..126] + [sep] + [false], t'[..126] + [sep] + [false];
    assert a[..126] == t[..126] && b[..126] == t'[..126];
  }
}
