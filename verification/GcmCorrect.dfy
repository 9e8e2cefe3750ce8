/**
 What the GCM Machine computes over whole runs.  A run is any list of instructions; next to the locker state we keep
 the history of the current message: the IV bytes, the associated-data blocks, the message blocks in and out, the last
 piece.  `Inv` ties every field to the byte-level reference applied to the history, and every instruction keeps it.
 */
module GcmCorrect {
  import opened Wrappers
  import opened Modular
  import opened BitStrings
  import opened Gf128
  import opened AeadBase
  import opened GcmMachine
  import opened GcmReference

  /**
   ivb: IV bits hashed so far; preset IVs are complete from the start. lens: the block given on entry to
   Enc/Dec_Tag_Final.
   */
  datatype History = History(ivb: Bits, aad: seq<Block>, ins: seq<Block>, outs: seq<Block>, lastIn: Bits, lastOut: Bits,
                             enc: bool, lens: Option<Block>)

  const NOTHING: History := History([], [], [], [], [], [], true, None)

  // ---------------------------------------------------------------- the hash of a partial IV

  /** GHASH over the complete blocks of v, with the incomplete last block added but not multiplied. */
  function PartialTag(v: Bits, auth: Block): (r: Block) {
    var k := 128 * (|v| / 128);
    Xor(Absorb(Zeros(128), BlockSeq(v[..k]), auth), Placed(v[k..], 0))
  }

  lemma PartialEmpty(auth: Block)
    ensures PartialTag([], auth) == Zeros(128)
  {
    assert Placed([], 0) == Zeros(128);
    var e: Bits := [];
    assert e[..0] == [] && e[0..] == [];
    XorLaws(Zeros(128), Zeros(128), Zeros(128));
  }

  lemma PlacedParts(u: Bits, x: Bits)
    requires |u| + |x| <= 128
    ensures Xor(Placed(u, 0), Placed(x, |u|)) == Placed(u + x, 0)
  {
  }

  /** A piece that does not complete the current block. */
  lemma PartialStays(v: Bits, x: Bits, auth: Block)
    requires |v| % 128 + |x| < 128
    ensures PartialTag(v + x, auth) == Xor(PartialTag(v, auth), Placed(x, |v| % 128))
  {
    hide Absorb, BlockSeq, Placed;
    var k := 128 * (|v| / 128);
    assert 128 * (|v + x| / 128) == k;
    assert (v + x)[..k] == v[..k] && (v + x)[k..] == v[k..] + x;
    PlacedParts(v[k..], x);
    XorLaws(Absorb(Zeros(128), BlockSeq(v[..k]), auth), Placed(v[k..], 0), Placed(x, |v| % 128));
  }

  lemma PartialFull(v: Bits, auth: Block)
    requires |v| % 128 == 0
    ensures PartialTag(v, auth) == Absorb(Zeros(128), BlockSeq(v), auth)
  {
    hide GhashMul;
    assert v[..|v|] == v && v[|v|..] == [];
    assert Placed([], 0) == Zeros(128);
    XorLaws(Absorb(Zeros(128), BlockSeq(v), auth), Zeros(128), Zeros(128));
  }

  /** A piece that completes the current block. */
  lemma PartialCompletes(v: Bits, x: Bits, auth: Block)
    requires |v| % 128 + |x| == 128
    ensures PartialTag(v + x, auth) == GhashMul(Xor(PartialTag(v, auth), Placed(x, |v| % 128)), auth)
  {
    hide GhashMul, Absorb, BlockSeq, Placed, Xor, Zeros;
    var k := 128 * (|v| / 128);
    var u, b := v[..k], v[k..] + x;
    assert |u| % 128 == 0 && |b| == 128;
    assert v + x == u + b;
    PartialFull(v + x, auth);
    BlocksConcat(u, b);
    OneBlock(b);
    AbsorbConcat(Zeros(128), BlockSeq(u), [b], auth);
    var t := Absorb(Zeros(128), BlockSeq(u), auth);
    AbsorbOne(t, b, auth);
    PlacedParts(v[k..], x);
    PlacedWhole(b);
    XorLaws(t, Placed(v[k..], 0), Placed(x, |v| % 128));
  }

  lemma PlacedWhole(b: Block)
    ensures Placed(b, 0) == b
  {
  }

  lemma AbsorbOne(t: Block, b: Block, auth: Block)
    ensures Absorb(t, [b], auth) == GhashMul(Xor(t, b), auth)
  {
    assert [b][1..] == [];
  }

  /** The J0 that Finalize computes is the reference J0 of the IV. */
  lemma FinalizeJ0(m: Gcm, iv: Bits)
    requires m.auth == m.E(Zeros(128)) && m.tag == PartialTag(iv, m.auth) && m.len == |iv| && m.blockBase == |iv| % 128
    ensures Finalize(m).J0 == GcmJ0(m.E, iv)
  {
    hide GhashMul, Absorb, Ghash;
    if |iv| == 96 {
      ShortIv(m, iv);
    } else {
      LongIv(m, iv);
    }
  }

  lemma ShortIv(m: Gcm, iv: Bits)
    requires |iv| == 96 && m.tag == PartialTag(iv, m.auth) && m.len == 96
    ensures Finalize(m).J0 == GcmJ0(m.E, iv)
  {
    assert iv[..0] == [] && iv[0..] == iv;
    XorLaws(Placed(iv, 0), Zeros(128), Zeros(128));
    assert m.tag == Placed(iv, 0);
    assert Placed(iv, 0)[..96] == iv;
  }

  lemma LongIv(m: Gcm, iv: Bits)
    requires m.auth == m.E(Zeros(128)) && m.tag == PartialTag(iv, m.auth) && m.len == |iv| != 96 &&
             m.blockBase == |iv| % 128
    ensures Finalize(m).J0 == GcmJ0(m.E, iv)
  {
    hide GhashMul, Ghash, Absorb, BlockSeq, PartialTag, Pad16;
    var p, l := Pad16(iv), Zeros(64) + Be64(|iv|);
    var tag0 := if m.blockBase != 0 then GhashMul(m.tag, m.auth) else m.tag;
    PaddedTag(iv, m.auth);
    OneBlock(l);
    BlocksConcat(p, l);
    assert p + Zeros(64) + Be64(|iv|) == p + l;
    AbsorbConcat(Zeros(128), BlockSeq(p), [l], m.auth);
    AbsorbOne(tag0, l, m.auth);
    AbsorbIsGhash(BlockSeq(p + l), m.auth);
  }

  /** Multiplying in the incomplete block is hashing the zero-padded string. */
  lemma PaddedTag(v: Bits, auth: Block)
    ensures (if |v| % 128 != 0 then GhashMul(PartialTag(v, auth), auth) else PartialTag(v, auth)) ==
            Absorb(Zeros(128), BlockSeq(Pad16(v)), auth)
  {
    hide GhashMul, Absorb, BlockSeq, PartialTag;
    if |v| % 128 == 0 {
      assert Pad16(v) == v;
      PartialFull(v, auth);
    } else {
      var z := Zeros(128 - |v| % 128);
      assert Pad16(v) == v + z;
      PartialCompletes(v, z, auth);
      assert Placed(z, |v| % 128) == Zeros(128);
      XorLaws(PartialTag(v, auth), Zeros(128), Zeros(128));
      PartialFull(v + z, auth);
    }
  }

  // ---------------------------------------------------------------- counters

  /** The counter block used for block n of the message; block 0 masks the tag. */
  function CtrBlock(j0: Block, n: nat): (r: Block) {
    WithCtr(j0, (Ctr32(j0) + n) % Pow2(32))
  }

  lemma CtrBlockZero(j0: Block)
    ensures CtrBlock(j0, 0) == j0
  {
    SmallMod(Ctr32(j0), Pow2(32));
    WithOwnCtr(j0);
  }

  /** The Machine's successor of a counter block is that of the reference. */
  lemma IncIsSucc(b: Block)
    ensures Inc32(b) == WithCtr(b, Succ32(Ctr32(b)))
  {
    hide FromNat, ToNat, Pow2, ByteSwap;
    LowPart(ToNat(ByteSwap(b[96..])) + 1, 32);
  }

  lemma CtrBlockNext(j0: Block, n: nat)
    ensures WithCtr(CtrBlock(j0, n), Succ32(Ctr32(CtrBlock(j0, n)))) == CtrBlock(j0, n + 1)
    ensures Inc32(CtrBlock(j0, n)) == CtrBlock(j0, n + 1)
  {
    hide WithCtr, Ctr32, Pow2, Inc32, Succ32;
    IncIsSucc(CtrBlock(j0, n));
    SuccOfCtrBlock(j0, n);
  }

  lemma SuccOfCtrBlock(j0: Block, n: nat)
    ensures WithCtr(CtrBlock(j0, n), Succ32(Ctr32(CtrBlock(j0, n)))) == CtrBlock(j0, n + 1)
  {
    hide WithCtr, Ctr32, Pow2;
    var s, p := Ctr32(j0), Pow2(32);
    CtrRoundTrip(j0, (s + n) % p);
    ModSucc(s + n, p);
    SameHead(j0, (s + n) % p, (s + n + 1) % p);
  }

  lemma SameHead(j0: Block, a: nat, b: nat)
    ensures WithCtr(WithCtr(j0, a), b) == WithCtr(j0, b)
  {
  }

  lemma ModSucc(x: nat, p: nat)
    requires p > 0
    ensures (x % p + 1) % p == (x + 1) % p
  {
    CongMod(p, x);
    CongAdd(p, x % p, x, 1, 1);
  }

  lemma TwoTo32()
    ensures Pow2(32) == 0x1_0000_0000
  {
    assert Pow2(8) == 256;
    assert Pow2(12) == 4096;
    assert Pow2(16) == 65536;
    assert Pow2(20) == 0x10_0000;
    assert Pow2(24) == 0x100_0000;
    assert Pow2(28) == 0x1000_0000;
  }

  /** The number of message blocks under one IV. */
  const MAX_MESSAGE: nat := 0x1_0000_0000 - 2

  /** After n blocks the next one is admitted exactly while n is below 2^32 - 2, wherever the counter started. */
  lemma CounterAdmits(m: Gcm, j0: Block, n: nat)
    requires m.J0 == CtrBlock(j0, n) && m.startCtr == Ctr32(j0) && n <= MAX_MESSAGE
    ensures n < MAX_MESSAGE ==> NextCtr(m) == Some(m.(J0 := CtrBlock(j0, n + 1)))
    ensures n == MAX_MESSAGE ==> NextCtr(m) == None
  {
    hide WithCtr, Ctr32, Pow2, Succ32, Pred32;
    TwoTo32();
    var s := Ctr32(j0);
    CtrRoundTrip(j0, (s + n) % Pow2(32));
    CtrBlockNext(j0, n);
    LastCounter(s, n);
  }

  /** From s on, the counter after n steps is followed by the one before s only at the end. */
  lemma LastCounter(s: nat, n: nat)
    requires s < Pow2(32) && n <= MAX_MESSAGE
    ensures Succ32((s + n) % Pow2(32)) == (s + n + 1) % Pow2(32)
    ensures Succ32((s + n) % Pow2(32)) == Pred32(s) <==> n == MAX_MESSAGE
  {
    hide Pow2;
    TwoTo32();
    ModSucc(s + n, Pow2(32));
  }

  /** The keystream blocks of one message are distinct from each other and from the block that masks the tag. */
  lemma CountersDistinct(j0: Block, i: nat, j: nat)
    requires i < j <= MAX_MESSAGE
    ensures CtrBlock(j0, i) != CtrBlock(j0, j)
  {
    hide WithCtr, Ctr32, Pow2;
    TwoTo32();
    var s := Ctr32(j0);
    CtrRoundTrip(j0, (s + i) % Pow2(32));
    CtrRoundTrip(j0, (s + j) % Pow2(32));
  }

  // ---------------------------------------------------------------- the invariant

  function J0Of(m: Gcm, h: History): (r: Block) {
    GcmJ0(m.E, h.ivb)
  }

  /** The ciphertext blocks hashed so far, the last one zero-padded. */
  function CipherBlocks(h: History): (r: seq<Block>)
    requires |h.lastIn| == |h.lastOut| <= 128
  {
    (if h.enc then h.outs else h.ins)
    + (if h.lastIn == [] then [] else [Placed(if h.enc then h.lastOut else h.lastIn, 0)])
  }

  /** Number of counter blocks used for the message. */
  function Used(h: History): nat {
    |h.ins| + if h.lastIn == [] then 0 else 1
  }

  /** Every output block is its input block with its keystream block added. */
  ghost predicate Keystreamed(E: Cipher, j0: Block, h: History) {
    && |h.ins| == |h.outs| && |h.lastIn| == |h.lastOut| <= 120 && Used(h) <= MAX_MESSAGE
    && (forall i :: 0 <= i < |h.ins| ==> h.outs[i] == Xor(h.ins[i], E(CtrBlock(j0, i + 1))))
    && h.lastOut == Xor(h.lastIn, E(CtrBlock(j0, |h.ins| + 1))[..|h.lastIn|])
  }

  ghost predicate IsMessageState(st: int) {
    st == ABSORB || st == ENC || st == DEC || st == ELB || st == DLB || st == ETF || st == DTF || st == VERIFY
  }

  /** The IV is known and every message block is accounted for. */
  ghost predicate MessageInv(m: Gcm, h: History) {
    && m.len == 0 && m.blockBase == 0 && m.cumul == 0
    && m.startCtr == Ctr32(J0Of(m, h)) && m.J0 == CtrBlock(J0Of(m, h), Used(h)) && Keystreamed(m.E, J0Of(m, h), h)
    && (m.st == ABSORB ==> h.ins == [] && h.lastIn == [])
    && (m.st == ENC || m.st == DEC || ((m.st == ELB || m.st == DLB) && m.lbl != 0) ==> h.lastIn == [])
    && (m.st == ENC || m.st == ELB || m.st == ETF ==> h.enc)
    && (m.st == DEC || m.st == DLB || m.st == DTF || m.st == VERIFY ==> !h.enc)
    && (m.st == VERIFY ==> m.tagLen == m.tagLenP)
    && (if m.st == ETF || m.st == DTF || m.st == VERIFY
        then h.lens.Some? && m.tag == FullTag(m, h)
        else m.tag == Absorb(Zeros(128), h.aad + CipherBlocks(h), m.auth))
  }

  /** The masked hash of everything, the length block included. */
  function FullTag(m: Gcm, h: History): (r: Block)
    requires h.lens.Some? && |h.lastIn| == |h.lastOut| <= 128
  {
    Xor(Absorb(Zeros(128), h.aad + CipherBlocks(h) + [h.lens.value], m.auth), m.E(J0Of(m, h)))
  }

  ghost predicate Inv(m: Gcm, h: History) {
    m.st != INVALID ==>
      && m.auth == m.E(Zeros(128)) && m.lbl <= 120 && 0 < m.policy < 4 && AdmitsTagLen(m.tagLenP)
      && (m.iv ==> m.startCtr == 1 && m.st != SAV && h.ivb == m.J0[..96])
      && (m.st == READY || m.st == SAV || m.st == SUCCESS || m.st == FAILURE || IsMessageState(m.st))
      && (m.st == READY ==> h == NOTHING.(ivb := h.ivb) && (m.iv ==> Ctr32(m.J0) == 1) && m.tag == Zeros(128) &&
                            m.len == 0 && m.blockBase == 0 && m.cumul == 0)
      && (m.st == SAV ==> SavInv(m, h))
      && (IsMessageState(m.st) ==> MessageInv(m, h))
  }

  ghost predicate SavInv(m: Gcm, h: History) {
    && h == NOTHING.(ivb := h.ivb) && 8 <= m.len <= 8192 && m.len % 8 == 0
    && |h.ivb| == m.cumul < m.len && m.blockBase == |h.ivb| % 128 && m.tag == PartialTag(h.ivb, m.auth)
  }

  // ---------------------------------------------------------------- how instructions extend the history

  function Extended(st: int, h: History, ins: seq<Block>, outs: seq<Block>): History {
    if st == ABSORB then h.(aad := h.aad + ins) else h.(ins := h.ins + ins, outs := h.outs + outs)
  }

  function HistoryStep(m: Gcm, h: History, i: Instr): History {
    var o := Step(m, i);
    match i
    case SetSt(st, form, xs, inp) =>
      if st == READY then NOTHING.(ivb := if m.iv then m.J0[..96] else [])
      else if st == SAV then NOTHING
      else if st == ENC || st == DEC then h.(enc := st == ENC)
      else if st == ETF || st == DTF then h.(lens := Some(Slice(if form == FormA then [] else inp, 0, 128)))
      else h
    case Exec(form, inp, kllen, klstart, haltAt) =>
      if m.st == SAV then h.(ivb := h.ivb + Slice(inp, 8 * klstart,
          if o.reached > 8 * klstart then o.reached - 8 * klstart else 0))
      else if m.st == ABSORB || m.st == ENC || m.st == DEC then
        var k := klstart * 8 / 128;
        if o.reached <= k then h else Extended(m.st, h, InputBlocks(inp, k, o.reached), OutputBlocks(o.out, k))
      else if (m.st == ELB || m.st == DLB) && o.reached == 1 then h.(lastIn := Slice(inp, 0, m.lbl), lastOut := o.out)
      else h
    case Restrict(_) => h
  }

  // ---------------------------------------------------------------- one block

  lemma AbsorbSnoc(blocks: seq<Block>, x: Block, auth: Block)
    ensures Absorb(Zeros(128), blocks + [x], auth) == GhashMul(Xor(Absorb(Zeros(128), blocks, auth), x), auth)
  {
    AbsorbConcat(Zeros(128), blocks, [x], auth);
    AbsorbOne(Absorb(Zeros(128), blocks, auth), x, auth);
  }

  lemma AbsorbKeepsInv(m: Gcm, h: History, x: Block)
    requires m.st == ABSORB && Inv(m, h)
    ensures Inv(AbsorbBlock(m, x), h.(aad := h.aad + [x]))
  {
    hide GhashMul, Absorb, CtrBlock, GcmJ0, Keystreamed, Ctr32;
    AbsorbSnoc(h.aad, x, m.auth);
    KeystreamedUsed(m.E, J0Of(m, h), h);
    assert h.outs == [];
    assert h.aad + CipherBlocks(h) == h.aad;
    var h' := h.(aad := h.aad + [x]);
    assert h'.aad + CipherBlocks(h') == h'.aad;
    SameStream(m.E, J0Of(m, h), h, h');
  }

  lemma SameStream(E: Cipher, j0: Block, h: History, h': History)
    requires Keystreamed(E, j0, h) && h'.ins == h.ins && h'.outs == h.outs && h'.lastIn == h.lastIn &&
             h'.lastOut == h.lastOut
    ensures Keystreamed(E, j0, h')
  {
  }

  lemma StreamSnoc(E: Cipher, j0: Block, h: History, x: Block)
    requires Keystreamed(E, j0, h) && h.lastIn == [] && Used(h) < MAX_MESSAGE
    ensures Keystreamed(E, j0, h.(ins := h.ins + [x], outs := h.outs + [Xor(x, E(CtrBlock(j0, |h.ins| + 1)))]))
  {
    hide CtrBlock;
  }

  lemma CryptKeepsInv(m: Gcm, h: History, x: Block)
    requires (m.st == ENC || m.st == DEC) && Inv(m, h) && BlockStep(m, x).Some?
    ensures var (m1, o) := BlockStep(m, x).value; Inv(m1, h.(ins := h.ins + [x], outs := h.outs + [o]))
  {
    hide GhashMul, Absorb, CtrBlock, GcmJ0, Ctr32, Keystreamed, NextCtr;
    var j0, n := J0Of(m, h), |h.ins|;
    KeystreamedUsed(m.E, j0, h);
    CounterAdmits(m, j0, n);
    var (m1, o) := BlockStep(m, x).value;
    var h' := h.(ins := h.ins + [x], outs := h.outs + [o]);
    StreamSnoc(m.E, j0, h, x);
    var c := if m.st == ENC then o else x;
    AbsorbSnoc(h.aad + CipherBlocks(h), c, m.auth);
    assert h'.aad + CipherBlocks(h') == h.aad + CipherBlocks(h) + [c];
    HeadKept(j0, n, n + 1);
  }

  lemma KeystreamedUsed(E: Cipher, j0: Block, h: History)
    requires Keystreamed(E, j0, h)
    ensures |h.ins| == |h.outs| && |h.lastIn| == |h.lastOut| <= 120 && Used(h) <= MAX_MESSAGE
  {
  }

  lemma HeadKept(j0: Block, n: nat, n': nat)
    ensures CtrBlock(j0, n)[..96] == CtrBlock(j0, n')[..96]
  {
  }

  // ---------------------------------------------------------------- a transfer of blocks, with halts

  lemma ExtendedTwice(st: int, h: History, a: seq<Block>, b: seq<Block>, c: seq<Block>, d: seq<Block>)
    ensures Extended(st, Extended(st, h, a, b), c, d) == Extended(st, h, a + c, b + d)
  {
    assert h.aad + a + c == h.aad + (a + c) && h.ins + a + c == h.ins + (a + c) && h.outs + b + d == h.outs + (b + d);
  }

  lemma ExtendedNone(st: int, h: History)
    ensures Extended(st, h, [], []) == h
  {
    assert h.aad + [] == h.aad && h.ins + [] == h.ins && h.outs + [] == h.outs;
  }

  lemma InvIgnoresPosition(m: Gcm, h: History, klstart: nat, partial: Bits)
    requires Inv(m, h)
    ensures Inv(m.(klstart := klstart, partial := partial), h)
  {
  }

  /**
   However a transfer is halted, the blocks between where it starts and where it stops extend the history in order.
   */
  lemma {:induction false} MultiKeepsInv(m: Gcm, h: History, inp: Bits, i: nat, n: nat, k: nat, haltAt: Option<nat>,
      out: Bits)
    returns (outs: seq<Block>)
    requires (m.st == ABSORB || m.st == ENC || m.st == DEC) && Inv(m, h) && i <= n
    ensures var o := MultiFrom(m, inp, i, n, k, haltAt, out);
            o.m.st != INVALID ==>
              i <= o.reached <= n && |outs| == o.reached - i && o.out == out + Flatten(outs) && o.m.st == m.st &&
              Inv(o.m, Extended(m.st, h, InputBlocks(inp, i, o.reached), outs))
    decreases n - i
  {
    hide Inv, BlockStep, Absorb;
    outs := [];
    if i == n || (HaltsAt(haltAt, 128 * i) && i > k) {
      ExtendedNone(m.st, h);
      InvIgnoresPosition(m, h, m.klstart, []);
      if HaltsAt(haltAt, 128 * i) && i < n {
        InvIgnoresPosition(m, h, haltAt.value, out);
      }
      assert out + [] == out;
    } else {
      var x := Slice(inp, 128 * i, 128);
      match BlockStep(m, x)
      case None =>
      case Some((m1, o1)) =>
        BlockKeepsInv(m, h, x);
        var h1 := Extended(m.st, h, [x], [o1]);
        var rest := MultiKeepsInv(m1, h1, inp, i + 1, n, k, haltAt, out + o1);
        outs := [o1] + rest;
        var r := MultiFrom(m1, inp, i + 1, n, k, haltAt, out + o1).reached;
        if MultiFrom(m, inp, i, n, k, haltAt, out).m.st != INVALID {
          InputBlocksCons(inp, i, r);
          ExtendedTwice(m.st, h, [x], [o1], InputBlocks(inp, i + 1, r), rest);
          assert Flatten(outs) == o1 + Flatten(rest) by { assert outs[1..] == rest; }
          assert out + o1 + Flatten(rest) == out + (o1 + Flatten(rest));
        }
    }
  }

  lemma BlockKeepsInv(m: Gcm, h: History, x: Block)
    requires (m.st == ABSORB || m.st == ENC || m.st == DEC) && Inv(m, h) && BlockStep(m, x).Some?
    ensures var (m1, o) := BlockStep(m, x).value; m1.st == m.st && Inv(m1, Extended(m.st, h, [x], [o]))
  {
    hide Inv;
    if m.st == ABSORB {
      AbsorbKeepsInv(m, h, x);
    } else {
      CryptKeepsInv(m, h, x);
    }
  }

  lemma MultiStepKeepsInv(m: Gcm, h: History, inp: Bits, kllen: Option<nat>, klstart: nat, haltAt: Option<nat>)
    requires (m.st == ABSORB || m.st == ENC || m.st == DEC) && Inv(m, h)
    ensures var o, k := Multi(m, inp, kllen, klstart, haltAt), klstart * 8 / 128;
            o.m.st != INVALID ==>
              Inv(o.m, if o.reached <= k then h
                  else Extended(m.st, h, InputBlocks(inp, k, o.reached), OutputBlocks(o.out, k)))
  {
    hide Inv, MultiFrom, BlockStep, Extended, InputBlocks, BlockSeq, Flatten;
    var k := klstart * 8 / 128;
    InvIgnoresPosition(m, h, m.klstart, []);
    if kllen.Some? && kllen.value % 128 == 0 && klstart * 8 % 128 == 0 && k < kllen.value / 128 {
      var n := kllen.value / 128;
      var o := MultiFrom(m.(partial := []), inp, k, n, k, haltAt, Zeros(128 * k));
      var outs := MultiKeepsInv(m.(partial := []), h, inp, k, n, k, haltAt, Zeros(128 * k));
      if o.m.st != INVALID {
        OutputBlocksOf(o.out, k, outs);
        NoneExtended(m.st, h, inp, k, o.reached, outs);
      }
    }
  }

  lemma NoneExtended(st: int, h: History, inp: Bits, k: nat, r: nat, outs: seq<Block>)
    requires k <= r && |outs| == r - k
    ensures r == k ==> Extended(st, h, InputBlocks(inp, k, r), outs) == h
  {
    if r == k {
      ExtendedNone(st, h);
    }
  }

  // ---------------------------------------------------------------- the IV

  lemma {:induction false} VliKeepsInv(m: Gcm, h: History, inp: Bits, ib: nat, kllen: nat, haltAt: Option<nat>)
    requires m.st == SAV && Inv(m, h)
    ensures VliOk(m)
    ensures var o := VliFrom(m, inp, ib, kllen, haltAt);
            o.reached >= ib && Inv(o.m, h.(ivb := h.ivb + Slice(inp, ib, o.reached - ib)))
    decreases kllen - ib
  {
    hide Inv, VliPiece, Finalize, Slice, VliFrom, Amount;
    SavFacts(m, h);
    if ib >= kllen {
      SliceNone(h.ivb, inp, ib);
      VliEnd(m, inp, ib, kllen, haltAt);
    } else {
      var amt := Amount(m, ib, kllen);
      VliUnfold(m, inp, ib, kllen, haltAt);
      AmountFits(m, ib, kllen);
      var m1 := VliPiece(m, inp, ib, amt);
      var h1 := h.(ivb := h.ivb + Slice(inp, ib, amt));
      PieceKeepsInv(m, h, inp, ib, amt);
      if m1.cumul != m1.len {
        if ib + amt < kllen && (ib + amt) % 128 == 0 && HaltsAt(haltAt, ib + amt) {
          InvIgnoresPosition(m1, h1, (ib + amt) / 8, m1.partial);
        } else {
          VliKeepsInv(m1, h1, inp, ib + amt, kllen, haltAt);
          SliceJoin(h.ivb, inp, ib, amt, VliFrom(m1, inp, ib + amt, kllen, haltAt).reached);
        }
      }
    }
  }

  lemma AmountFits(m: Gcm, ib: nat, kllen: nat)
    requires VliOk(m) && ib < kllen
    ensures Amount(m, ib, kllen) <= m.len - m.cumul
  {
  }

  lemma SavFacts(m: Gcm, h: History)
    requires m.st == SAV && Inv(m, h)
    ensures VliOk(m)
  {
    hide PartialTag;
  }

  lemma SliceNone(v: Bits, inp: Bits, ib: nat)
    ensures v + Slice(inp, ib, 0) == v
  {
  }

  lemma SliceJoin(v: Bits, inp: Bits, ib: nat, amt: nat, r: nat)
    requires ib + amt <= r
    ensures v + Slice(inp, ib, amt) + Slice(inp, ib + amt, r - (ib + amt)) == v + Slice(inp, ib, r - ib)
  {
  }

  lemma PieceKeepsInv(m: Gcm, h: History, inp: Bits, ib: nat, amt: nat)
    requires m.st == SAV && Inv(m, h) && 0 < amt && m.blockBase + amt <= 128 && amt <= m.len - m.cumul
    ensures var m1, h1 := VliPiece(m, inp, ib, amt), h.(ivb := h.ivb + Slice(inp, ib, amt));
            m1.st == SAV && Inv(if m1.cumul == m1.len then Finalize(m1) else m1, h1)
  {
    hide PartialTag, GhashMul, Absorb, Finalize, GcmJ0, CtrBlock;
    VliPieceTag(m, h, inp, ib, amt);
    var m1 := VliPiece(m, inp, ib, amt);
    if m1.cumul == m1.len {
      FinalizeKeepsInv(m1, h.(ivb := h.ivb + Slice(inp, ib, amt)));
    }
  }

  /** After a piece, the fields describe the longer IV prefix; the end of the IV is left to Finalize. */
  lemma VliPieceTag(m: Gcm, h: History, inp: Bits, ib: nat, amt: nat)
    requires m.st == SAV && Inv(m, h) && 0 < amt && m.blockBase + amt <= 128 && amt <= m.len - m.cumul
    ensures var m1, v := VliPiece(m, inp, ib, amt), h.ivb + Slice(inp, ib, amt);
            m1.tag == PartialTag(v, m1.auth) && m1.blockBase == |v| % 128 && m1.cumul == |v| <= m1.len &&
            (m1.cumul < m1.len ==> Inv(m1, h.(ivb := v)))
  {
    hide PartialTag, GhashMul, Absorb, GcmJ0;
    var x := Slice(inp, ib, amt);
    if m.blockBase + amt == 128 {
      PartialCompletes(h.ivb, x, m.auth);
    } else {
      PartialStays(h.ivb, x, m.auth);
    }
  }

  lemma FinalizeKeepsInv(m: Gcm, h: History)
    requires m.st == SAV && h == NOTHING.(ivb := h.ivb) && m.auth == m.E(Zeros(128)) && m.lbl <= 120 && 0 < m.policy < 4
    requires AdmitsTagLen(m.tagLenP) && !m.iv
    requires m.tag == PartialTag(h.ivb, m.auth) && m.len == |h.ivb| && m.blockBase == |h.ivb| % 128
    ensures Inv(Finalize(m), h)
  {
    hide PartialTag, Absorb, GcmJ0, CtrBlock, Finalize, Keystreamed, CipherBlocks, Ctr32, Zeros;
    FinalizeJ0(m, h.ivb);
    FinalizeFields(m);
    CtrBlockZero(J0Of(m, h));
    EmptyMessage(m, h);
  }

  lemma FinalizeFields(m: Gcm)
    ensures Finalize(m) == m.(J0 := Finalize(m).J0, startCtr := Ctr32(Finalize(m).J0), tag := Zeros(128), len := 0,
                              blockBase := 0, cumul := 0, st := ABSORB)
  {
    hide GhashMul;
  }

  lemma EmptyMessage(m: Gcm, h: History)
    requires h == NOTHING.(ivb := h.ivb)
    ensures Keystreamed(m.E, J0Of(m, h), h) && Absorb(Zeros(128), h.aad + CipherBlocks(h), m.auth) == Zeros(128)
  {
    assert h.aad + CipherBlocks(h) == [];
  }

  // ---------------------------------------------------------------- every instruction keeps the invariant

  lemma LastBlockKeepsInv(m: Gcm, h: History, inp: Bits, kllen: Option<nat>)
    requires (m.st == ELB || m.st == DLB) && Inv(m, h)
    ensures var o := LastBlock(m, inp, kllen);
            o.m.st != INVALID ==> o.reached == 1 && Inv(o.m, h.(lastIn := Slice(inp, 0, m.lbl), lastOut := o.out))
  {
    hide GhashMul, Absorb, CtrBlock, GcmJ0, Ctr32, Keystreamed, NextCtr;
    var j0, n := J0Of(m, h), |h.ins|;
    KeystreamedUsed(m.E, j0, h);
    var o := LastBlock(m, inp, kllen);
    if o.m.st != INVALID {
      CounterAdmits(m, j0, n);
      var h' := h.(lastIn := Slice(inp, 0, m.lbl), lastOut := o.out);
      StreamLast(m.E, j0, h, Slice(inp, 0, m.lbl));
      var c := Placed(if m.st == ELB then h'.lastOut else h'.lastIn, 0);
      AbsorbSnoc(h.aad + CipherBlocks(h), c, m.auth);
      assert h'.aad + CipherBlocks(h') == h.aad + CipherBlocks(h) + [c];
      HeadKept(j0, n, n + 1);
    }
  }

  lemma StreamLast(E: Cipher, j0: Block, h: History, x: Bits)
    requires Keystreamed(E, j0, h) && h.lastIn == [] && Used(h) < MAX_MESSAGE && 0 < |x| <= 120
    ensures Keystreamed(E, j0, h.(lastIn := x, lastOut := Xor(x, E(CtrBlock(j0, |h.ins| + 1))[..|x|])))
  {
    hide CtrBlock;
  }

  lemma ReadyKeepsInv(m: Gcm, h: History)
    requires m.st != INVALID && Inv(m, h)
    ensures Inv(Ready(m.(st := READY)), NOTHING.(ivb := if m.iv then m.J0[..96] else []))
  {
    hide WithCtr, Ctr32;
    CtrRoundTrip(m.J0, 1);
  }

  /** Leaving Ready with a preset IV: the counter block and the start counter are those of the reference J0. */
  lemma PresetStart(m: Gcm, h: History)
    requires m.iv && m.st == READY && Inv(m, h)
    ensures Inv(m.(st := ABSORB), h)
  {
    hide WithCtr, Ctr32, CtrBlock, Keystreamed, Absorb, CipherBlocks;
    PresetJ0(m);
    CtrBlockZero(m.J0);
    EmptyMessage(m, h);
  }

  lemma PresetJ0(m: Gcm)
    requires Ctr32(m.J0) == 1
    ensures GcmJ0(m.E, m.J0[..96]) == m.J0
  {
    WithOwnCtr(m.J0);
  }

  lemma EnterFinalKeepsInv(m: Gcm, h: History, st: int, inp: Bits)
    requires Inv(m, h) && Admits(m.iv, m.st, st) && (st == ETF || st == DTF) && LeaveOk(m, st)
    ensures Inv(Enter(m.(st := st), st, 0, inp).value, h.(lens := Some(Slice(inp, 0, 128))))
  {
    hide GhashMul, Absorb, CtrBlock, GcmJ0, Ctr32, Keystreamed, CipherBlocks, WithCtr;
    var j0, L := J0Of(m, h), Slice(inp, 0, 128);
    KeystreamedUsed(m.E, j0, h);
    var h' := h.(lens := Some(L));
    SameStream(m.E, j0, h, h');
    AbsorbSnoc(h.aad + CipherBlocks(h), L, m.auth);
    MaskBlock(j0, Used(h));
    assert CipherBlocks(h') == CipherBlocks(h) by { SameCipherBlocks(h, h'); }
  }

  lemma SameCipherBlocks(h: History, h': History)
    requires |h.lastIn| == |h.lastOut| <= 128
    requires h'.ins == h.ins && h'.outs == h.outs && h'.lastIn == h.lastIn && h'.lastOut == h.lastOut && h'.enc == h.enc
    ensures CipherBlocks(h') == CipherBlocks(h)
  {
  }

  lemma MaskBlock(j0: Block, n: nat)
    ensures WithCtr(CtrBlock(j0, n), Ctr32(j0)) == j0
  {
    SameHead(j0, (Ctr32(j0) + n) % Pow2(32), Ctr32(j0));
    WithOwnCtr(j0);
  }

  lemma SetStKeepsInv(m: Gcm, h: History, st: int, form: Form, xs: nat, inp: Bits)
    requires Inv(m, h)
    ensures Inv(DoSetSt(m, st, form, xs, inp), HistoryStep(m, h, SetSt(st, form, xs, inp)))
  {
    hide Inv, Ready;
    if m.st != INVALID && st == READY && form == FormA {
      ReadyKeepsInv(m, h);
    } else if st != READY {
      EnterKeepsInv(m, h, st, form, xs, inp);
    } else {
      FailedInv(m, h, NOTHING.(ivb := if m.iv then m.J0[..96] else []));
    }
  }

  lemma FailedInv(m: Gcm, h: History, h': History)
    ensures Inv(Fail(m), h') && (m.st == INVALID ==> Inv(m, h'))
  {
  }

  lemma EnterKeepsInv(m: Gcm, h: History, st: int, form: Form, xs: nat, inp: Bits)
    requires Inv(m, h) && st != READY
    ensures Inv(DoSetSt(m, st, form, xs, inp), HistoryStep(m, h, SetSt(st, form, xs, inp)))
  {
    hide Inv, DoSetSt, Enter, Admits;
    var x := if form == FormA then [] else inp;
    var m' := DoSetSt(m, st, form, xs, inp);
    Admitted(m, st, form, xs, inp);
    if m'.st == INVALID {
      FailedInv(m', h, HistoryStep(m, h, SetSt(st, form, xs, inp)));
    } else if st == ETF || st == DTF {
      EnterFinalKeepsInv(m, h, st, x);
      FinalTakesNoLength(m, st, xs, x);
    } else if st == ABSORB {
      EntersAbsorb(m);
      PresetStart(m, h);
    } else if st == ENC || st == DEC {
      EntersDirection(m, st);
      ChooseDirection(m, h, st);
    } else {
      EnterPlain(m, h, st, xs, x);
    }
  }

  /** What a kl.setst to another State than Ready leaves behind, unless it fails. */
  lemma Admitted(m: Gcm, st: int, form: Form, xs: nat, inp: Bits)
    requires st != READY
    ensures var m', e := DoSetSt(m, st, form, xs, inp), Enter(m.(st := st), st, xs, if form == FormA then [] else inp);
            m'.st == INVALID ||
            (m.st != INVALID && e == Some(m') && Admits(m.iv, m.st, st) && LeaveOk(m, st) && SetForm(st).Some? &&
             (st == ABSORB || st == ENC || st == DEC ==> m' == m.(st := st)))
  {
    hide FormOk, Allowed, AbsorbBlock, Slice, Xor, WithCtr;
  }

  lemma EntersAbsorb(m: Gcm)
    requires Admits(m.iv, m.st, ABSORB) && LeaveOk(m, ABSORB)
    ensures m.iv && m.st == READY
  {
  }

  lemma EntersDirection(m: Gcm, st: int)
    requires Admits(m.iv, m.st, st) && (st == ENC || st == DEC)
    ensures m.st == ABSORB
  {
  }

  lemma FinalTakesNoLength(m: Gcm, st: int, xs: nat, inp: Bits)
    requires st == ETF || st == DTF
    ensures Enter(m.(st := st), st, xs, inp) == Enter(m.(st := st), st, 0, inp)
  {
    hide GhashMul, Xor, WithCtr;
  }

  /** States entered without touching the hash or the counter. */
  lemma EnterPlain(m: Gcm, h: History, st: int, xs: nat, inp: Bits)
    requires Inv(m, h) && Admits(m.iv, m.st, st) && LeaveOk(m, st) && (st == SAV || st == ELB || st == DLB ||
             st == VERIFY)
    requires Enter(m.(st := st), st, xs, inp).Some?
    ensures Inv(Enter(m.(st := st), st, xs, inp).value, if st == SAV then NOTHING else h)
  {
    hide GhashMul, Absorb, CtrBlock, GcmJ0, Ctr32, Keystreamed, CipherBlocks, WithCtr, PartialTag, BlockSeq;
    PartialEmpty(m.auth);
  }

  lemma ChooseDirection(m: Gcm, h: History, st: int)
    requires m.st == ABSORB && Inv(m, h) && (st == ENC || st == DEC)
    ensures Inv(m.(st := st), h.(enc := st == ENC))
  {
    hide GhashMul, Absorb, CtrBlock, GcmJ0, Ctr32;
    var h' := h.(enc := st == ENC);
    SameStream(m.E, J0Of(m, h), h, h');
    assert h.outs == [] && CipherBlocks(h') == CipherBlocks(h);
  }

  lemma ExecKeepsInv(m0: Gcm, h: History, form: Form, inp: Bits, kllen: Option<nat>, klstart: nat, haltAt: Option<nat>)
    requires Inv(m0, h)
    ensures Inv(DoExec(m0, form, inp, kllen, klstart, haltAt).m, HistoryStep(m0, h, Exec(form, inp, kllen, klstart,
            haltAt)))
  {
    hide Multi, VliFrom, LastBlock, MessageInv, SavInv, Extended, InputBlocks, OutputBlocks;
    var m := m0.(klstart := 0);
    var o := DoExec(m0, form, inp, kllen, klstart, haltAt);
    if o.m.st != INVALID {
      InvIgnoresPosition(m0, h, 0, m0.partial);
      if m.st == SAV {
        VliStepKeepsInv(m, h, inp, kllen, klstart, haltAt);
        SliceNone(h.ivb, inp, 8 * klstart);
      } else if m.st == ABSORB || m.st == ENC || m.st == DEC {
        MultiStepKeepsInv(m, h, inp, kllen, klstart, haltAt);
      } else if m.st == ELB || m.st == DLB {
        LastBlockKeepsInv(m, h, inp, kllen);
      }
    }
  }

  lemma VliStepKeepsInv(m: Gcm, h: History, inp: Bits, kllen: Option<nat>, klstart: nat, haltAt: Option<nat>)
    requires m.st == SAV && Inv(m, h)
    ensures var o := Vli(m, inp, kllen, klstart, haltAt);
            o.m.st != INVALID ==>
              o.reached >= 8 * klstart && Inv(o.m, h.(ivb := h.ivb + Slice(inp, 8 * klstart, o.reached - 8 * klstart)))
  {
    hide Inv, VliFrom;
    VliKeepsInv(m, h, inp, 8 * klstart, if kllen.Some? then kllen.value else 0, haltAt);
  }

  /** The invariant holds of every provisioned locker. */
  lemma CreateInv(E: Cipher, preset: Option<Bits>, policy: nat, tagLenP: nat)
    requires 0 < policy < 4 && (preset.Some? ==> policy == 2)
    ensures var m := Create(E, preset, policy, tagLenP);
            Inv(m, NOTHING.(ivb := if m.iv then m.J0[..96] else []))
  {
    hide WithCtr, Ctr32;
    if preset.Some? {
      CtrRoundTrip(Slice(preset.value, 0, 96) + Zeros(32), 1);
    }
  }

  /** Every instruction keeps the invariant. */
  lemma StepKeepsInv(m: Gcm, h: History, i: Instr)
    requires Inv(m, h)
    ensures Inv(Step(m, i).m, HistoryStep(m, h, i))
  {
    match i
    case SetSt(st, form, xs, inp) => SetStKeepsInv(m, h, st, form, xs, inp);
    case Exec(form, inp, kllen, klstart, haltAt) => ExecKeepsInv(m, h, form, inp, kllen, klstart, haltAt);
    case Restrict(mask) => RestrictKeepsInv(m, h, mask);
  }

  lemma RestrictKeepsInv(m: Gcm, h: History, mask: nat)
    requires Inv(m, h)
    ensures Inv(DoRestrict(m, mask), h)
  {
    hide MessageInv, SavInv;
    var p := And2(m.policy, mask);
    if m.st != INVALID && p != 0 {
      MessageIgnoresPolicy(m, h, p);
    }
  }

  lemma MessageIgnoresPolicy(m: Gcm, h: History, p: nat)
    ensures MessageInv(m, h) ==> MessageInv(m.(policy := p), h)
    ensures SavInv(m, h) ==> SavInv(m.(policy := p), h)
  {
  }
}
