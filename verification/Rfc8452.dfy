/**
 Sealing as RFC 8452 section 4 writes it, on byte strings: keys derived from a nonce, POLYVAL through GHASH, the tag,
 and the counter blocks that start from it.  Sealed containers leave the lengths out and fix bit 126 to separate
 segments.
 */
module Rfc8452 {
  import opened Wrappers
  import opened Modular
  import opened BitStrings
  import opened Gf128
  import opened AeadBase
  import opened GcmReference

  /** The block cipher under a key. */
  type Keyed = (Bits, Block) -> Block

  /** n half blocks of key material, one after the other. */
  function Halves(aes: Keyed, key: Bits, nonce: Bits, n: nat): (r: Bits)
    requires |nonce| == 96
    ensures |r| == 64 * n
  {
    if n == 0 then [] else Halves(aes, key, nonce, n - 1) + aes(key, FromNat(n - 1, 32) + nonce)[..64]
  }

  /** The first 16 bytes authenticate, the others encrypt; there are as many of those as of the key. */
  function RefAuthKey(aes: Keyed, key: Bits, nonce: Bits): (r: Block)
    requires |nonce| == 96
  {
    Halves(aes, key, nonce, |key| / 64 + 2)[..128]
  }

  function RefEncKey(aes: Keyed, key: Bits, nonce: Bits): Bits
    requires |nonce| == 96
  {
    Halves(aes, key, nonce, |key| / 64 + 2)[128..]
  }

  function Polyval(key: Block, blocks: seq<Block>): Block {
    PolyvalRefFrom(Zeros(128), blocks, HalfX(key))
  }

  /** Bit 126, where it is given. */
  function Separated(b: Block, sep: Option<bool>): (r: Block) {
    if sep.Some? then b[126 := sep.value] else b
  }

  /** The hash with the nonce added and the top bit cleared. */
  function TagInput(S: Block, nonce: Bits, sep: Option<bool>): (r: Block)
    requires |nonce| == 96
  {
    Separated(Xor(S, nonce + Zeros(32))[127 := false], sep)
  }

  /** The j-th counter block: the tag with the top bit set, and j added to the number in its first four bytes. */
  function CounterAt(tag: Block, sep: Option<bool>, j: nat): (r: Block) {
    var c := Separated(tag[127 := true], sep);
    FromNat(ToNat(c[..32]) + j, 32) + c[32..]
  }

  /** The data with the keystream from block j on added. */
  function Stream(aes: Keyed, ek: Bits, tag: Block, sep: Option<bool>, data: Bits, j: nat): (r: Bits)
    ensures |r| == |data|
    decreases |data|
  {
    if data == [] then []
    else
      var n := Min(128, |data|);
      Xor(data[..n], aes(ek, CounterAt(tag, sep, j))[..n]) + Stream(aes, ek, tag, sep, data[n..], j + 1)
  }

  /** The number as eight little-endian bytes. */
  function Le64(n: nat): (r: Bits)
    ensures |r| == 64
  {
    FromNat(n, 64)
  }

  /** What is hashed: the zero-padded strings, and their lengths in bits unless they are left out. */
  function HashInput(A: Bits, P: Bits, lens: bool): seq<Block> {
    hide Pad16;
    BlockSeq(Pad16(A)) + BlockSeq(Pad16(P)) + if lens then [Le64(|A|) + Le64(|P|)] else []
  }

  function SealTag(aes: Keyed, key: Bits, nonce: Bits, A: Bits, P: Bits, lens: bool, sep: Option<bool>): (r: Block)
    requires |nonce| == 96
  {
    var S := Polyval(RefAuthKey(aes, key, nonce), HashInput(A, P, lens));
    aes(RefEncKey(aes, key, nonce), TagInput(S, nonce, sep))
  }

  /** The ciphertext and the tag. */
  function Seal(aes: Keyed, key: Bits, nonce: Bits, A: Bits, P: Bits, lens: bool, sep: Option<bool>): (Bits, Block)
    requires |nonce| == 96
  {
    var tag := SealTag(aes, key, nonce, A, P, lens, sep);
    (Stream(aes, RefEncKey(aes, key, nonce), tag, sep, P, 0), tag)
  }

  /** The plaintext, and whether the tag belongs to it. */
  function Unseal(aes: Keyed, key: Bits, nonce: Bits, A: Bits, C: Bits, tag: Block, lens: bool,
                  sep: Option<bool>): (Bits, bool)
    requires |nonce| == 96
  {
    var P := Stream(aes, RefEncKey(aes, key, nonce), tag, sep, C, 0);
    (P, SealTag(aes, key, nonce, A, P, lens, sep) == tag)
  }

  lemma {:induction false} StreamInverse(aes: Keyed, ek: Bits, tag: Block, sep: Option<bool>, data: Bits, j: nat)
    ensures Stream(aes, ek, tag, sep, Stream(aes, ek, tag, sep, data, j), j) == data
    decreases |data|
  {
    hide CounterAt;
    if data != [] {
      var n := Min(128, |data|);
      var k := aes(ek, CounterAt(tag, sep, j))[..n];
      var head, tail := Xor(data[..n], k), Stream(aes, ek, tag, sep, data[n..], j + 1);
      StreamInverse(aes, ek, tag, sep, data[n..], j + 1);
      var y := Stream(aes, ek, tag, sep, data, j);
      assert y[..n] == head && y[n..] == tail;
      XorLaws(data[..n], k, k);
      assert data == data[..n] + data[n..];
    }
  }

  /** Unsealing what was sealed gives the plaintext, and accepts. */
  lemma UnsealSeal(aes: Keyed, key: Bits, nonce: Bits, A: Bits, P: Bits, lens: bool, sep: Option<bool>)
    requires |nonce| == 96
    ensures var (C, tag) := Seal(aes, key, nonce, A, P, lens, sep);
            Unseal(aes, key, nonce, A, C, tag, lens, sep) == (P, true)
  {
    hide SealTag, Stream, RefEncKey;
    StreamInverse(aes, RefEncKey(aes, key, nonce), SealTag(aes, key, nonce, A, P, lens, sep), sep, P, 0);
  }

  // ---------------------------------------------------------------- counter blocks

  lemma FromNatSame(x: nat, y: nat, n: nat)
    requires FromNat(x, n) == FromNat(y, n)
    ensures x % Pow2(n) == y % Pow2(n)
  {
    NatRoundTrip(x, n);
    NatRoundTrip(y, n);
  }

  /** The keystream blocks of one message are pairwise distinct: there are fewer than 2^32. */
  lemma CountersDistinct(tag: Block, sep: Option<bool>, i: nat, j: nat)
    requires i < j < Pow2(32)
    ensures CounterAt(tag, sep, i) != CounterAt(tag, sep, j)
  {
    hide FromNat, ToNat, Pow2;
    var c := Separated(tag[127 := true], sep);
    var x, p := ToNat(c[..32]), Pow2(32);
    if CounterAt(tag, sep, i) == CounterAt(tag, sep, j) {
      assert CounterAt(tag, sep, i)[..32] == FromNat(x + i, 32) && CounterAt(tag, sep, j)[..32] == FromNat(x + j, 32);
      FromNatSame(x + i, x + j, 32);
      SameResidue(p, x, i, j);
    }
  }

  lemma SameResidue(p: nat, x: nat, i: nat, j: nat)
    requires i < p && j < p && (x + i) % p == (x + j) % p
    ensures i == j
  {
    CongSelf(p, x);
    CongAdd(p, x + i, x + j, x, x);
    SmallMod(i, p);
    SmallMod(j, p);
  }

  /** No counter block is encrypted as a tag: their top bits differ. */
  lemma CounterIsNoTag(tag: Block, sep: Option<bool>, j: nat, S: Block, nonce: Bits)
    requires |nonce| == 96
    ensures CounterAt(tag, sep, j) != TagInput(S, nonce, sep)
  {
    hide FromNat, ToNat;
    assert CounterAt(tag, sep, j)[127] == true && TagInput(S, nonce, sep)[127] == false;
  }

  /** The counter blocks of the two segments of a container differ. */
  lemma SegmentsDiffer(tag: Block, tag': Block, i: nat, j: nat)
    ensures CounterAt(tag, Some(false), i) != CounterAt(tag', Some(true), j)
  {
    hide FromNat, ToNat;
    assert CounterAt(tag, Some(false), i)[126] == false && CounterAt(tag', Some(true), j)[126] == true;
  }

  /** Two nonces with the same hash give different inputs of the tag. */
  lemma NonceEntersTag(S: Block, nonce: Bits, nonce': Bits, sep: Option<bool>)
    requires |nonce| == |nonce'| == 96 && nonce != nonce'
    ensures TagInput(S, nonce, sep) != TagInput(S, nonce', sep)
  {
    var i :| 0 <= i < 96 && nonce[i] != nonce'[i];
    assert TagInput(S, nonce, sep)[i] != TagInput(S, nonce', sep)[i];
  }
}
