/** The byte-level reference of GCM (SP 800-38D sections 7.1 and 7.2), with GHASH on big-endian integers. */
module GcmReference {
  import opened Modular
  import opened BitStrings
  import opened Gf128
  import opened AeadBase

  /** Zeros up to a multiple of 16 bytes. */
  function Pad16(v: Bits): (r: Bits)
    ensures |r| % 128 == 0 && |v| <= |r| < |v| + 128
  {
    v + Zeros((128 - |v| % 128) % 128)
  }

  /** The number as eight big-endian bytes. */
  function Be64(n: nat): (r: Bits)
    ensures |r| == 64
  {
    ByteSwap(FromNat(n, 64))
  }

  /** ghash(H, data) on a byte string of whole blocks. */
  function GhashBytes(H: Block, data: Bits): (r: Block)
    requires |data| % 128 == 0
  {
    Ghash(H, BlockSeq(data))
  }

  function GcmJ0(E: Cipher, iv: Bits): (r: Block) {
    if |iv| == 96 then iv + ByteSwap(FromNat(1, 32))
    else GhashBytes(E(Zeros(128)), Pad16(iv) + Zeros(64) + Be64(|iv|))
  }

  /** One is added to the big-endian number in the last four bytes. */
  function Inc32(b: Block): (r: Block) {
    b[..96] + ByteSwap(FromNat(ToNat(ByteSwap(b[96..])) + 1, 32))
  }

  /** Counter mode from the block after cb on. */
  function CtrMode(E: Cipher, cb: Block, data: Bits): (r: Bits)
    ensures |r| == |data|
    decreases |data|
  {
    if data == [] then []
    else
      var n := Min(128, |data|);
      Xor(data[..n], E(Inc32(cb))[..n]) + CtrMode(E, Inc32(cb), data[n..])
  }

  /** The tag over associated data A and ciphertext C. */
  function GcmTag(E: Cipher, j0: Block, A: Bits, C: Bits): (r: Block) {
    hide Pad16, Be64, GhashBytes;
    Xor(E(j0), GhashBytes(E(Zeros(128)), Pad16(A) + Pad16(C) + (Be64(|A|) + Be64(|C|))))
  }

  /** gcm_enc: the ciphertext and the full tag. */
  function GcmEncrypt(E: Cipher, iv: Bits, A: Bits, P: Bits): (Bits, Block) {
    var j0 := GcmJ0(E, iv);
    var C := CtrMode(E, j0, P);
    (C, GcmTag(E, j0, A, C))
  }

  /** gcm_dec: the plaintext and the tag that the ciphertext should carry. */
  function GcmDecrypt(E: Cipher, iv: Bits, A: Bits, C: Bits): (Bits, Block) {
    var j0 := GcmJ0(E, iv);
    (CtrMode(E, j0, C), GcmTag(E, j0, A, C))
  }

  /** Counter mode is its own inverse. */
  lemma {:induction false} CtrModeInverse(E: Cipher, cb: Block, data: Bits)
    ensures CtrMode(E, cb, CtrMode(E, cb, data)) == data
    decreases |data|
  {
    if data != [] {
      var n := Min(128, |data|);
      var k := E(Inc32(cb))[..n];
      var head, tail := Xor(data[..n], k), CtrMode(E, Inc32(cb), data[n..]);
      CtrModeInverse(E, Inc32(cb), data[n..]);
      assert CtrMode(E, cb, data)[..n] == head && CtrMode(E, cb, data)[n..] == tail;
      XorLaws(data[..n], k, k);
      assert data == data[..n] + data[n..];
    }
  }

  /** Decrypting what was encrypted gives the plaintext and the same tag. */
  lemma DecryptEncrypt(E: Cipher, iv: Bits, A: Bits, P: Bits)
    ensures GcmDecrypt(E, iv, A, GcmEncrypt(E, iv, A, P).0) == (P, GcmEncrypt(E, iv, A, P).1)
  {
    CtrModeInverse(E, GcmJ0(E, iv), P);
  }

}
