/**
 Whole runs of the GCM Machine: any list of instructions from a provisioned locker, with any split of the data into
 transfers, any halts and resumptions, any restarts.  What the Machine hands out is what the reference computes.
 */
module GcmRuns {
  import opened Wrappers
  import opened Modular
  import opened BitStrings
  import opened Gf128
  import opened AeadBase
  import opened GcmMachine
  import opened GcmReference
  import opened GcmCorrect

  /** The locker after the instructions. */
  function After(m: Gcm, instrs: seq<Instr>): Gcm
    decreases instrs
  {
    if instrs == [] then m else After(Step(m, instrs[0]).m, instrs[1..])
  }

  /** What the instructions have fed in and handed out for the current message. */
  function HistoryAfter(m: Gcm, h: History, instrs: seq<Instr>): History
    decreases instrs
  {
    if instrs == [] then h else HistoryAfter(Step(m, instrs[0]).m, HistoryStep(m, h, instrs[0]), instrs[1..])
  }

  // ---------------------------------------------------------------- the history against the reference

  /** The message bits fed in, in order. */
  function TextIn(h: History): Bits {
    Flatten(h.ins) + h.lastIn
  }

  /** The message bits handed out, in order. */
  function TextOut(h: History): Bits {
    Flatten(h.outs) + h.lastOut
  }

  function CipherText(h: History): Bits {
    if h.enc then TextOut(h) else TextIn(h)
  }

  lemma {:induction false} StreamIsCtrMode(E: Cipher, j0: Block, n: nat, ins: seq<Block>, outs: seq<Block>, x: Bits,
      y: Bits)
    requires |ins| == |outs| && |x| == |y| < 128
    requires forall i :: 0 <= i < |ins| ==> outs[i] == Xor(ins[i], E(CtrBlock(j0, n + i + 1)))
    requires y == Xor(x, E(CtrBlock(j0, n + |ins| + 1))[..|x|])
    ensures Flatten(outs) + y == CtrMode(E, CtrBlock(j0, n), Flatten(ins) + x)
    decreases |ins|
  {
    hide CtrBlock, Inc32, CtrMode, Flatten;
    CtrBlockNext(j0, n);
    if ins == [] {
      FlattenNone(x);
      FlattenNone(y);
      CtrModeOnce(E, CtrBlock(j0, n), x);
    } else {
      var rest := Flatten(ins[1..]) + x;
      assert forall i :: 0 <= i < |ins| - 1 ==> ins[1..][i] == ins[i + 1] && outs[1..][i] == outs[i + 1];
      StreamIsCtrMode(E, j0, n + 1, ins[1..], outs[1..], x, y);
      CtrModeNext(E, CtrBlock(j0, n), ins[0], rest);
      FlattenHead(ins, x);
      FlattenHead(outs, y);
      assert outs[0] == Xor(ins[0], E(CtrBlock(j0, n + 1)));
    }
  }

  lemma FlattenNone(x: Bits)
    ensures Flatten([]) + x == x
  {
  }

  lemma FlattenHead(b: seq<Block>, x: Bits)
    requires b != []
    ensures Flatten(b) + x == b[0] + (Flatten(b[1..]) + x)
  {
  }

  lemma CtrModeNext(E: Cipher, cb: Block, x: Block, rest: Bits)
    ensures CtrMode(E, cb, x + rest) == Xor(x, E(Inc32(cb))) + CtrMode(E, Inc32(cb), rest)
  {
    hide Inc32;
    assert (x + rest)[..128] == x && (x + rest)[128..] == rest;
    assert E(Inc32(cb))[..128] == E(Inc32(cb));
  }

  lemma CtrModeOnce(E: Cipher, cb: Block, x: Bits)
    requires |x| < 128
    ensures CtrMode(E, cb, x) == Xor(x, E(Inc32(cb))[..|x|])
  {
    if x != [] {
      assert x[..|x|] == x && x[|x|..] == [];
    }
  }

  /** Everything handed out is the counter-mode stream over everything fed in. */
  lemma OutputIsCtrMode(m: Gcm, h: History)
    requires Inv(m, h) && IsMessageState(m.st)
    ensures TextOut(h) == CtrMode(m.E, GcmJ0(m.E, h.ivb), TextIn(h))
  {
    hide Absorb, CtrBlock, GcmJ0, Ctr32, CtrMode, PartialTag, CipherBlocks;
    var j0 := GcmJ0(m.E, h.ivb);
    StreamIsCtrMode(m.E, j0, 0, h.ins, h.outs, h.lastIn, h.lastOut);
    CtrBlockZero(j0);
  }

  /** The blocks hashed for the ciphertext are those of its zero-padded byte string. */
  lemma PaddedCipherText(h: History)
    requires |h.lastIn| == |h.lastOut| <= 120
    ensures CipherBlocks(h) == BlockSeq(Pad16(CipherText(h)))
  {
    hide BlockSeq, Flatten, Pad16, Placed;
    if h.enc {
      PaddedBlocks(h.outs, h.lastOut);
    } else {
      PaddedBlocks(h.ins, h.lastIn);
    }
  }

  lemma PaddedBlocks(blocks: seq<Block>, x: Bits)
    requires |x| <= 120
    ensures BlockSeq(Pad16(Flatten(blocks) + x)) == blocks + if x == [] then [] else [Placed(x, 0)]
  {
    hide BlockSeq, Flatten, Pad16, Placed;
    BlocksOfFlatten(blocks);
    PadTail(Flatten(blocks), x);
    if x == [] {
      assert Flatten(blocks) + x == Flatten(blocks);
    } else {
      var p := Placed(x, 0);
      BlocksConcat(Flatten(blocks), p);
      OneBlock(p);
    }
  }

  lemma PadTail(u: Bits, x: Bits)
    requires |u| % 128 == 0 && |x| <= 120
    ensures Pad16(u + x) == u + if x == [] then [] else Placed(x, 0)
  {
    assert |u + x| % 128 == |x|;
    var r, e := Pad16(u + x), u + if x == [] then [] else Placed(x, 0);
    assert |r| == |e|;
  }

  /** The masked hash is the reference tag once the length block is the one the standard asks for. */
  lemma FullTagIsGcmTag(m: Gcm, h: History, A: Bits)
    requires m.auth == m.E(Zeros(128)) && |h.lastIn| == |h.lastOut| <= 120
    requires h.aad == BlockSeq(Pad16(A)) && h.lens == Some(Be64(|A|) + Be64(|CipherText(h)|))
    ensures FullTag(m, h) == GcmTag(m.E, GcmJ0(m.E, h.ivb), A, CipherText(h))
  {
    hide Absorb, Ghash, BlockSeq, Pad16, CipherBlocks, CipherText, Be64, GcmJ0;
    var a, c, l := Pad16(A), Pad16(CipherText(h)), h.lens.value;
    PaddedCipherText(h);
    BlocksConcat(a, c);
    BlocksConcat(a + c, l);
    OneBlock(l);
    AbsorbIsGhash(h.aad + CipherBlocks(h) + [l], m.auth);
    var t, k := Absorb(Zeros(128), h.aad + CipherBlocks(h) + [l], m.auth), m.E(J0Of(m, h));
    XorLaws(t, k, k);
  }

  // ---------------------------------------------------------------- what a completed message gives

  /** A run asked for the tag of a message that was absorbed and encrypted as (A, P). */
  ghost predicate Encrypted(m: Gcm, h: History, A: Bits, P: Bits) {
    m.st == ETF && h.aad == BlockSeq(Pad16(A)) && TextIn(h) == P && h.lens == Some(Be64(|A|) + Be64(|P|))
  }

  ghost predicate Decrypted(m: Gcm, h: History, A: Bits, C: Bits) {
    m.st == VERIFY && h.aad == BlockSeq(Pad16(A)) && TextIn(h) == C && h.lens == Some(Be64(|A|) + Be64(|C|))
  }

  lemma SameLength(m: Gcm, h: History)
    requires Inv(m, h) && IsMessageState(m.st)
    ensures |TextOut(h)| == |TextIn(h)| && |h.lastIn| == |h.lastOut| <= 120 && m.auth == m.E(Zeros(128))
    ensures (m.st == ETF ==> h.enc) && (m.st == VERIFY ==> !h.enc && m.tagLen == m.tagLenP)
    ensures m.st == ETF || m.st == VERIFY ==> h.lens.Some? && m.tag == FullTag(m, h)
    ensures AdmitsTagLen(m.tagLenP)
  {
    hide Absorb, CtrBlock, GcmJ0, Ctr32, CipherBlocks, FullTag;
  }

  /** A provisioned locker after a run, with the history of its current message. */
  function AfterRun(E: Cipher, preset: Option<Bits>, policy: nat, tagLenP: nat, instrs: seq<Instr>): (Gcm, History)
    requires 0 < policy < 4 && (preset.Some? ==> policy == 2)
  {
    var m := Create(E, preset, policy, tagLenP);
    var h := NOTHING.(ivb := if m.iv then m.J0[..96] else []);
    (After(m, instrs), HistoryAfter(m, h, instrs))
  }

  /** No instruction changes the key, the tag length or a preset IV. */
  ghost predicate SameLocker(m: Gcm, h: History, E: Cipher, preset: Option<Bits>, tagLenP: nat) {
    && m.E == E && m.tagLenP == tagLenP && m.iv == preset.Some?
    && (m.iv && m.st != INVALID ==> h.ivb == Slice(preset.value, 0, 96))
  }

  /** A transfer of blocks changes the counter and the hash, and where it stopped. */
  lemma {:induction false} MultiFields(m: Gcm, inp: Bits, i: nat, n: nat, k: nat, haltAt: Option<nat>, out: Bits)
    requires i <= n
    ensures var m' := MultiFrom(m, inp, i, n, k, haltAt, out).m;
            m' == m.(J0 := m'.J0, tag := m'.tag, partial := m'.partial, klstart := m'.klstart, st := m'.st) &&
            (m'.st == m.st || m'.st == INVALID)
    decreases n - i
  {
    hide GhashMul, NextCtr, Slice;
    NextOnlyJ0(m);
    if i < n && BlockStep(m, Slice(inp, 128 * i, 128)).Some? {
      var (m1, o) := BlockStep(m, Slice(inp, 128 * i, 128)).value;
      MultiFields(m1, inp, i + 1, n, k, haltAt, out + o);
    }
  }

  lemma {:induction false} VliKeepsKey(m: Gcm, inp: Bits, ib: nat, kllen: nat, haltAt: Option<nat>)
    requires VliOk(m)
    ensures var m' := VliFrom(m, inp, ib, kllen, haltAt).m; m'.E == m.E && m'.tagLenP == m.tagLenP && m'.iv == m.iv
    decreases kllen - ib
  {
    hide VliPiece, Finalize, VliFrom, Amount, StopsAt;
    if ib >= kllen {
      VliEnd(m, inp, ib, kllen, haltAt);
    } else {
      var amt := Amount(m, ib, kllen);
      var m1 := VliPiece(m, inp, ib, amt);
      VliUnfold(m, inp, ib, kllen, haltAt);
      PieceFields(m, inp, ib, amt);
      FinalizeFields(m1);
      if m1.cumul != m1.len && !StopsAt(haltAt, ib + amt, kllen) {
        VliKeepsKey(m1, inp, ib + amt, kllen, haltAt);
      }
    }
  }

  lemma WorkKeepsKey(m: Gcm, inp: Bits, kllen: Option<nat>, klstart: nat, haltAt: Option<nat>)
    ensures var m' := Work(m, inp, kllen, klstart, haltAt).m; m'.E == m.E && m'.tagLenP == m.tagLenP && m'.iv == m.iv
  {
    hide GhashMul, NextCtr, MultiFrom, VliFrom, Xor;
    NextOnlyJ0(m);
    if kllen.Some? {
      var k, n := klstart * 8 / 128, kllen.value / 128;
      if k < n {
        MultiFields(m.(partial := []), inp, k, n, k, haltAt, Zeros(128 * k));
      }
      if VliOk(m) {
        VliKeepsKey(m, inp, 8 * klstart, kllen.value, haltAt);
      }
    }
  }

  lemma StepKeepsKey(m: Gcm, i: Instr)
    ensures var m' := Step(m, i).m; m'.E == m.E && m'.tagLenP == m.tagLenP && m'.iv == m.iv
  {
    hide GhashMul, WithCtr, Xor, Ctr32, Work;
    if i.Exec? {
      WorkKeepsKey(m.(klstart := 0), i.inp, i.kllen, i.klstart, i.haltAt);
    }
  }

  lemma StepKeepsLocker(m: Gcm, h: History, i: Instr, E: Cipher, preset: Option<Bits>, tagLenP: nat)
    requires Inv(m, h) && SameLocker(m, h, E, preset, tagLenP)
    ensures SameLocker(Step(m, i).m, HistoryStep(m, h, i), E, preset, tagLenP)
  {
    hide Inv, Step, HistoryStep;
    StepKeepsKey(m, i);
    if m.iv && Step(m, i).m.st != INVALID {
      PresetKept(m, h, i);
    }
  }

  lemma PresetKept(m: Gcm, h: History, i: Instr)
    requires m.iv && Inv(m, h) && Step(m, i).m.st != INVALID
    ensures HistoryStep(m, h, i).ivb == h.ivb && m.st != INVALID
  {
    hide MessageInv, Slice, BlockSeq, InputBlocks, Multi, Vli, LastBlock, AbsorbBlock, Ready, WithCtr;
  }

  lemma {:induction false} RunKeepsLocker(m: Gcm, h: History, instrs: seq<Instr>, E: Cipher, preset: Option<Bits>,
      tagLenP: nat)
    requires Inv(m, h) && SameLocker(m, h, E, preset, tagLenP)
    ensures Inv(After(m, instrs), HistoryAfter(m, h, instrs))
    ensures SameLocker(After(m, instrs), HistoryAfter(m, h, instrs), E, preset, tagLenP)
    decreases instrs
  {
    hide Inv, SameLocker, Step, HistoryStep;
    if instrs != [] {
      StepKeepsInv(m, h, instrs[0]);
      StepKeepsLocker(m, h, instrs[0], E, preset, tagLenP);
      RunKeepsLocker(Step(m, instrs[0]).m, HistoryStep(m, h, instrs[0]), instrs[1..], E, preset, tagLenP);
    }
  }

  lemma RunFacts(E: Cipher, preset: Option<Bits>, policy: nat, tagLenP: nat, instrs: seq<Instr>)
    requires 0 < policy < 4 && (preset.Some? ==> policy == 2)
    ensures var (m, h) := AfterRun(E, preset, policy, tagLenP, instrs);
            Inv(m, h) && SameLocker(m, h, E, preset, tagLenP)
  {
    hide Inv;
    var m := Create(E, preset, policy, tagLenP);
    CreateInv(E, preset, policy, tagLenP);
    RunKeepsLocker(m, NOTHING.(ivb := if m.iv then m.J0[..96] else []), instrs, E, preset, tagLenP);
  }

  // ---------------------------------------------------------------- the theorems

  /** An admitted exec in Enc_Tag_Final hands out the truncated tag T and ends in Success; any other one is refused. */
  ghost predicate HandsOut(m: Gcm, T: Block, kllen: nat) {
    var o := Step(m, Exec(FormC, [], Some(kllen), 0, None));
    if m.policy % 2 == 1 && kllen >= m.tagLenP then o.out == Slice(T, 0, m.tagLenP) && o.m.st == SUCCESS
    else o.m.st == INVALID || kllen == 0
  }

  /** An admitted exec in Verify ends in Success if the tag given is the truncated T, and in Failure if not. */
  ghost predicate Compares(m: Gcm, T: Block, given: Bits, kllen: nat) {
    var o := Step(m, Exec(FormB, given, Some(kllen), 0, None));
    if m.policy / 2 % 2 == 1 && kllen >= m.tagLenP
    then o.m.st == if Slice(given, 0, m.tagLenP) == Slice(T, 0, m.tagLenP) then SUCCESS else FAILURE
    else o.m.st == INVALID || kllen == 0
  }

  lemma TagCompared(m: Gcm, given: Bits, kllen: nat)
    requires m.st == VERIFY && m.tagLen == m.tagLenP && AdmitsTagLen(m.tagLenP)
    ensures Compares(m, m.tag, given, kllen)
  {
    hide Slice;
  }

  lemma TagHandedOut(m: Gcm, kllen: nat)
    requires m.st == ETF && AdmitsTagLen(m.tagLenP)
    ensures HandsOut(m, m.tag, kllen)
  {
    hide Slice;
  }

  /**
   Encryption.  Over any run, the output bits are the reference ciphertext of the input bits, and the tag handed out in
   Enc_Tag_Final is the truncated reference tag.
   */
  lemma EncryptionIsGcm(E: Cipher, preset: Option<Bits>, policy: nat, tagLenP: nat, instrs: seq<Instr>, A: Bits,
      P: Bits,
                        kllen: nat)
    requires 0 < policy < 4 && (preset.Some? ==> policy == 2)
    requires var (m, h) := AfterRun(E, preset, policy, tagLenP, instrs); Encrypted(m, h, A, P)
    ensures var (m, h) := AfterRun(E, preset, policy, tagLenP, instrs);
            var (C, T) := GcmEncrypt(E, h.ivb, A, P);
            TextOut(h) == C && m.tagLenP == tagLenP && HandsOut(m, T, kllen)
  {
    hide Inv, AfterRun, CtrMode, GcmJ0, BlockSeq, Pad16, Be64, FullTag, GcmTag, TextIn, TextOut, HandsOut;
    RunFacts(E, preset, policy, tagLenP, instrs);
    var (m, h) := AfterRun(E, preset, policy, tagLenP, instrs);
    SameLength(m, h);
    OutputIsCtrMode(m, h);
    FullTagIsGcmTag(m, h, A);
    TagHandedOut(m, kllen);
  }

  /**
   Decryption.  Over any run, the output bits are the reference plaintext of the input bits, and Verify ends in Success
   exactly when the tag given is the truncated reference tag of the ciphertext.
   */
  lemma DecryptionIsGcm(E: Cipher, preset: Option<Bits>, policy: nat, tagLenP: nat, instrs: seq<Instr>, A: Bits,
      C: Bits,
                        given: Bits, kllen: nat)
    requires 0 < policy < 4 && (preset.Some? ==> policy == 2)
    requires var (m, h) := AfterRun(E, preset, policy, tagLenP, instrs); Decrypted(m, h, A, C)
    ensures var (m, h) := AfterRun(E, preset, policy, tagLenP, instrs);
            var (P, T) := GcmDecrypt(E, h.ivb, A, C);
            TextOut(h) == P && m.tagLenP == tagLenP && Compares(m, T, given, kllen)
  {
    hide Inv, AfterRun, CtrMode, GcmJ0, BlockSeq, Pad16, Be64, FullTag, GcmTag, TextIn, TextOut, Compares;
    RunFacts(E, preset, policy, tagLenP, instrs);
    var (m, h) := AfterRun(E, preset, policy, tagLenP, instrs);
    SameLength(m, h);
    OutputIsCtrMode(m, h);
    FullTagIsGcmTag(m, h, A);
    TagCompared(m, given, kllen);
  }

  /**
   A message encrypted by one run and decrypted by another under the same key and IV comes back, and the tag that the
   first run hands out brings the second to Success, however either run cut its data into transfers.
   */
  lemma MessageComesBack(E: Cipher, policy1: nat, run1: seq<Instr>, preset2: Option<Bits>, policy2: nat,
      run2: seq<Instr>,
                         tagLenP: nat, A: Bits, P: Bits)
    requires 0 < policy1 < 4 && 0 < policy2 < 4 && (preset2.Some? ==> policy2 == 2)
    requires var (m1, h1) := AfterRun(E, None, policy1, tagLenP, run1); Encrypted(m1, h1, A, P) && m1.policy % 2 == 1
    requires var (m1, h1) := AfterRun(E, None, policy1, tagLenP, run1);
             var (m2, h2) := AfterRun(E, preset2, policy2, tagLenP, run2);
             Decrypted(m2, h2, A, TextOut(h1)) && m2.policy / 2 % 2 == 1 && h2.ivb == h1.ivb
    ensures var (m1, h1) := AfterRun(E, None, policy1, tagLenP, run1);
            var (m2, h2) := AfterRun(E, preset2, policy2, tagLenP, run2);
            var tag := Step(m1, Exec(FormC, [], Some(tagLenP), 0, None)).out;
            TextOut(h2) == P && Step(m2, Exec(FormB, tag, Some(tagLenP), 0, None)).m.st == SUCCESS
  {
    hide Inv, AfterRun, GcmEncrypt, GcmDecrypt, Encrypted, Decrypted, TextIn, TextOut, Step, Slice;
    var (m1, h1) := AfterRun(E, None, policy1, tagLenP, run1);
    var (m2, h2) := AfterRun(E, preset2, policy2, tagLenP, run2);
    var tag := Step(m1, Exec(FormC, [], Some(tagLenP), 0, None)).out;
    EncryptionIsGcm(E, None, policy1, tagLenP, run1, A, P, tagLenP);
    DecryptionIsGcm(E, preset2, policy2, tagLenP, run2, A, TextOut(h1), tag, tagLenP);
    DecryptEncrypt(E, h1.ivb, A, P);
    SliceTwice(GcmEncrypt(E, h1.ivb, A, P).1, tagLenP);
  }
}
