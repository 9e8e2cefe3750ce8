/**
 The byte-level reference of OCB (RFC 7253 section 4), with the nonce as an integer and doubling on big-endian integers.
 Each loop is given by its state after i iterations.
 */
module OcbReference {
  import opened Modular
  import opened BitStrings
  import opened Gf128
  import opened AeadBase
  import opened BlockNumbers

  /** The block cipher and its inverse under the locker's key. */
  datatype Key = Key(E: Cipher, D: Cipher)

  /** The largest i such that 2^i divides n. */
  function Ntz(n: nat): nat
    requires n > 0
  {
    if n % 2 == 1 then 0 else 1 + Ntz(n / 2)
  }

  /** It is the largest: what is left is odd. */
  lemma {:induction false} NtzDivides(n: nat) returns (k: nat)
    requires n > 0
    ensures k % 2 == 1 && n == Pow2(Ntz(n)) * k
  {
    if n % 2 == 1 {
      k := n;
    } else {
      k := NtzDivides(n / 2);
      var p := Pow2(Ntz(n / 2));
      assert 2 * (p * k) == 2 * p * k;
    }
  }

  function LStar(E: Cipher): Block {
    E(Zeros(128))
  }

  function LDollar(E: Cipher): Block {
    RefDouble(LStar(E))
  }

  function L(E: Cipher, i: nat): Block {
    if i == 0 then RefDouble(LDollar(E)) else RefDouble(L(E, i - 1))
  }

  /** The 128-bit string that starts with the tag length and ends with a one and the nonce. */
  function NonceBlock(nonce: nat, nbits: nat, taglen: nat): nat {
    hide Pow2;
    taglen % 128 * Pow2(121) + Pow2(nbits) + nonce
  }

  /** n shifted right by k bits. */
  function Shr(n: nat, k: nat): (r: nat) {
    hide Pow2;
    n / Pow2(k)
  }

  /** Ktop and the exclusive or of its first 64 bits with those eight further on: 192 bits, as a number. */
  function Stretch(ktop: nat): nat {
    hide Pow2;
    ktop * Pow2(64) + ToNat(Xor(FromNat(Shr(ktop, 64), 64), FromNat(Shr(ktop, 56), 64)))
  }

  function InitialOffset(E: Cipher, nonce: nat, nbits: nat, taglen: nat): Block {
    hide BigEndian, Shr, Stretch, NumberOf, NonceBlock;
    var v := NonceBlock(nonce, nbits, taglen);
    var bottom := v % 64;
    var ktop := NumberOf(E(BigEndian(v - bottom)));
    BigEndian(Shr(Stretch(ktop), 64 - bottom))
  }

  /** The offset and the sum after i blocks, and the output so far. */
  datatype Loop = Loop(off: Block, sum: Block, out: Bits)

  function HashLoop(E: Cipher, A: Bits, i: nat): Loop
    requires 128 * i <= |A|
  {
    if i == 0 then Loop(Zeros(128), Zeros(128), [])
    else
      var l := HashLoop(E, A, i - 1);
      var off := Xor(l.off, L(E, Ntz(i)));
      Loop(off, Xor(l.sum, E(Xor(BlockAt(A, i - 1), off))), [])
  }

  /** The hash of the associated data. */
  function Hash(E: Cipher, A: Bits): Block
    requires |A| % 128 <= 120
  {
    var m := |A| / 128;
    var l, r := HashLoop(E, A, m), A[128 * m..];
    if r == [] then l.sum else Xor(l.sum, E(Xor(RefPad(r), Xor(l.off, LStar(E)))))
  }

  /** One whole block: encrypted, or decrypted. */
  function CryptBlock(k: Key, enc: bool, off: Block, x: Block): Block {
    Xor(off, if enc then k.E(Xor(x, off)) else k.D(Xor(x, off)))
  }

  function CryptLoop(k: Key, enc: bool, start: Block, data: Bits, i: nat): Loop
    requires 128 * i <= |data|
  {
    if i == 0 then Loop(start, Zeros(128), [])
    else
      var l := CryptLoop(k, enc, start, data, i - 1);
      var off, x := Xor(l.off, L(k.E, Ntz(i))), BlockAt(data, i - 1);
      var y := CryptBlock(k, enc, off, x);
      Loop(off, Xor(l.sum, if enc then x else y), l.out + y)
  }

  /** The last piece, whose plaintext is summed up padded. */
  function CryptTail(k: Key, enc: bool, l: Loop, r: Bits): Loop
    requires |r| <= 120
  {
    if r == [] then l
    else
      var off := Xor(l.off, LStar(k.E));
      var o := Xor(r, k.E(off)[..|r|]);
      Loop(off, Xor(l.sum, RefPad(if enc then r else o)), l.out + o)
  }

  /** The output and the full tag. */
  function Crypt(k: Key, enc: bool, nonce: nat, nbits: nat, taglen: nat, A: Bits, data: Bits): (Bits, Block)
    requires |A| % 128 <= 120 && |data| % 128 <= 120
  {
    var m := |data| / 128;
    var l := CryptTail(k, enc, CryptLoop(k, enc, InitialOffset(k.E, nonce, nbits, taglen), data, m), data[128 * m..]);
    (l.out, Xor(k.E(Xor(Xor(l.sum, l.off), LDollar(k.E))), Hash(k.E, A)))
  }

  // ---------------------------------------------------------------- the loops see only what they have read

  lemma {:induction false} HashLoopPrefix(E: Cipher, A: Bits, x: Bits, i: nat)
    requires 128 * i <= |A|
    ensures HashLoop(E, A + x, i) == HashLoop(E, A, i)
  {
    hide Ntz, L;
    if i > 0 {
      HashLoopPrefix(E, A, x, i - 1);
      assert BlockAt(A + x, i - 1) == BlockAt(A, i - 1);
    }
  }

  lemma {:induction false} CryptLoopPrefix(k: Key, enc: bool, start: Block, data: Bits, x: Bits, i: nat)
    requires 128 * i <= |data|
    ensures CryptLoop(k, enc, start, data + x, i) == CryptLoop(k, enc, start, data, i)
  {
    hide Ntz, L, CryptBlock;
    if i > 0 {
      CryptLoopPrefix(k, enc, start, data, x, i - 1);
      assert BlockAt(data + x, i - 1) == BlockAt(data, i - 1);
    }
  }

  // ---------------------------------------------------------------- decryption undoes encryption

  ghost predicate Inverse(k: Key) {
    forall x :: k.D(k.E(x)) == x
  }

  lemma BlockRoundTrip(k: Key, off: Block, x: Block)
    requires Inverse(k)
    ensures CryptBlock(k, false, off, CryptBlock(k, true, off, x)) == x
  {
    var c := k.E(Xor(x, off));
    XorLaws(off, c, off);
    XorLaws(off, off, c);
    XorLaws(c, off, off);
    assert Xor(Xor(off, c), off) == c;
    XorLaws(x, off, off);
    XorLaws(off, Xor(x, off), off);
  }

  /** While the ciphertext is read back, offset and sum are those of the encryption. */
  lemma {:induction false} LoopRoundTrip(k: Key, start: Block, P: Bits, i: nat)
    requires Inverse(k) && 128 * i <= |P|
    ensures var e := CryptLoop(k, true, start, P, i);
            |e.out| == 128 * i && CryptLoop(k, false, start, e.out, i) == e.(out := P[..128 * i])
  {
    hide Ntz, L, CryptBlock;
    if i > 0 {
      LoopRoundTrip(k, start, P, i - 1);
      var e := CryptLoop(k, true, start, P, i - 1);
      var off, x := Xor(e.off, L(k.E, Ntz(i))), BlockAt(P, i - 1);
      var y := CryptBlock(k, true, off, x);
      CryptLoopPrefix(k, false, start, e.out, y, i - 1);
      assert BlockAt(e.out + y, i - 1) == y;
      BlockRoundTrip(k, off, x);
      assert P[..128 * (i - 1)] + x == P[..128 * i];
    }
  }

  lemma TailRoundTrip(k: Key, l: Loop, l': Loop, r: Bits)
    requires |r| <= 120 && l' == l.(out := l'.out)
    ensures var e := CryptTail(k, true, l, r);
            |e.out| == |l.out| + |r| &&
            CryptTail(k, false, l', e.out[|l.out|..]) == e.(out := l'.out + r)
  {
    if r == [] {
      assert l.out[|l.out|..] == [] && l'.out + r == l'.out;
    } else {
      var off := Xor(l.off, LStar(k.E));
      var o := Xor(r, k.E(off)[..|r|]);
      assert (l.out + o)[|l.out|..] == o;
      XorLaws(r, k.E(off)[..|r|], r);
    }
  }

  /** Decrypting what was encrypted gives the plaintext and the same tag. */
  lemma DecryptEncrypt(k: Key, nonce: nat, nbits: nat, taglen: nat, A: Bits, P: Bits)
    requires Inverse(k) && |A| % 128 <= 120 && |P| % 128 <= 120
    ensures var (C, T) := Crypt(k, true, nonce, nbits, taglen, A, P);
            |C| == |P| && Crypt(k, false, nonce, nbits, taglen, A, C) == (P, T)
  {
    hide CryptLoop, CryptTail, InitialOffset, Hash, LDollar;
    var m, start := |P| / 128, InitialOffset(k.E, nonce, nbits, taglen);
    LoopRoundTrip(k, start, P, m);
    var e := CryptLoop(k, true, start, P, m);
    var r := P[128 * m..];
    TailRoundTrip(k, e, e.(out := P[..128 * m]), r);
    var C := CryptTail(k, true, e, r).out;
    TailAppends(k, true, e, r);
    CryptLoopPrefix(k, false, start, e.out, C[|e.out|..], m);
    assert e.out + C[|e.out|..] == C;
    assert P[..128 * m] + r == P;
  }

  lemma TailAppends(k: Key, enc: bool, l: Loop, r: Bits)
    requires |r| <= 120
    ensures l.out <= CryptTail(k, enc, l, r).out && |CryptTail(k, enc, l, r).out| == |l.out| + |r|
  {
  }
}
