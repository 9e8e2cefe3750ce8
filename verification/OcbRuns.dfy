/**
 Whole runs of the OCB Machine: any list of instructions from a provisioned locker, with any split of the data into
 transfers, any halts and resumptions, any restarts.  What the Machine hands out is what the reference computes.
 */
module OcbRuns {
  import opened Wrappers
  import opened Modular
  import opened BitStrings
  import opened Gf128
  import opened AeadBase
  import opened Transfers
  import opened OcbReference
  import opened OcbMachine
  import opened OcbCorrect

  /** The locker and the history of its current message after the instructions. */
  function After(m: Ocb, h: History, instrs: seq<Instr>): (Ocb, History)
    decreases instrs
  {
    if instrs == [] then (m, h) else After(Step(m, instrs[0]).m, HistoryStep(m, h, instrs[0]), instrs[1..])
  }

  function AfterRun(k: Key, nonce: Option<(Bits, nat)>, policy: nat, instrs: seq<Instr>): (Ocb, History)
    requires 0 < policy < 4 && (nonce.Some? ==> policy == 2) && NonceOk(nonce)
  {
    After(Create(k, nonce, policy), NOTHING.(nonce := if nonce.Some? then nonce.value.0 else []), instrs)
  }

  /** No instruction changes the key or a preset nonce. */
  ghost predicate SameLocker(m: Ocb, h: History, k: Key, nonce: Option<(Bits, nat)>) {
    && m.k == k && m.preset == nonce.Some?
    && (nonce.Some? && m.st != INVALID ==> m.nlen == nonce.value.1 && h.nonce == nonce.value.0)
  }

  /** The fields that a block leaves alone, against the locker at the start of the transfer. */
  ghost predicate SameFields(m: Ocb, m': Ocb) {
    m'.k == m.k && m'.preset == m.preset && m'.nlen == m.nlen && m'.st == m.st && m'.policy == m.policy &&
    m'.klstart == m.klstart && m'.partial == m.partial
  }

  lemma BlockFields(m: Ocb, x: Block)
    ensures BlockStep(m, x).Some? ==> SameFields(m, BlockStep(m, x).value.0)
  {
    hide Ntz, Xor;
    if BlockStep(m, x).Some? {
      LookupInTable(m.index);
    }
  }

  lemma TransferFields(m: Ocb, inp: Bits, k: nat, n: nat, haltAt: Option<nat>)
    requires k <= n
    ensures SameFields(m, TransferFrom<Ocb>(BlockStep, m, inp, k, n, k, haltAt, Zeros(128 * k)).s)
  {
    hide BlockStep, InputBlocks;
    var keeps := (s: Ocb, xs: seq<Block>, ys: seq<Block>) => SameFields(m, s);
    forall s: Ocb, xs: seq<Block>, ys: seq<Block>, x: Block | keeps(s, xs, ys) && BlockStep(s, x).Some?
      ensures keeps(BlockStep(s, x).value.0, xs + [x], ys + [BlockStep(s, x).value.1])
    {
      BlockFields(s, x);
    }
    var outs := TransferKeeps<Ocb>(BlockStep, keeps, m, [], [], inp, k, n, k, haltAt, Zeros(128 * k));
  }

  lemma WorkKeepsLocker(m: Ocb, inp: Bits, kllen: Option<nat>, klstart: nat, haltAt: Option<nat>)
    ensures var m' := Work(m, inp, kllen, klstart, haltAt).m; m'.k == m.k && m'.preset == m.preset && m'.nlen == m.nlen
  {
    hide TransferFrom, Slice, Xor, PadOne, MaskNonce;
    if kllen.Some? && klstart * 8 / 128 <= kllen.value / 128 {
      TransferFields(m.(partial := []), inp, klstart * 8 / 128, kllen.value / 128, haltAt);
    }
  }

  lemma StepKeepsLocker(m: Ocb, h: History, i: Instr, k: Key, nonce: Option<(Bits, nat)>)
    requires Inv(m, h) && SameLocker(m, h, k, nonce)
    ensures SameLocker(Step(m, i).m, HistoryStep(m, h, i), k, nonce)
  {
    hide MessageInv, NonceKnown, Work, Slice, InputBlocks, OutputBlocks, Xor, StartOffset, Setup;
    if i.Exec? {
      WorkKeepsLocker(m.(klstart := 0), i.inp, i.kllen, i.klstart, i.haltAt);
    } else if i.SetSt? {
      EnterKeepsLocker(m, i.target, i.xs);
    }
  }

  lemma EnterKeepsLocker(m: Ocb, st: int, xs: nat)
    ensures Admits(m.preset, m.st, st) && Enter(m, st, xs).Some? ==>
              var m' := Enter(m, st, xs).value;
              m'.k == m.k && m'.preset == m.preset && (m.preset ==> m'.nlen == m.nlen)
  {
    hide Xor, StartOffset, Double, Doubles;
  }

  lemma {:induction false} RunKeeps(m: Ocb, h: History, instrs: seq<Instr>, k: Key, nonce: Option<(Bits, nat)>)
    requires Inv(m, h) && SameLocker(m, h, k, nonce)
    ensures var (m', h') := After(m, h, instrs); Inv(m', h') && SameLocker(m', h', k, nonce)
    decreases instrs
  {
    hide Inv, SameLocker, Step, HistoryStep;
    if instrs != [] {
      StepKeepsInv(m, h, instrs[0]);
      StepKeepsLocker(m, h, instrs[0], k, nonce);
      RunKeeps(Step(m, instrs[0]).m, HistoryStep(m, h, instrs[0]), instrs[1..], k, nonce);
    }
  }

  /** Every state that a provisioned locker can reach satisfies the invariant, under its key and its preset nonce. */
  lemma RunFacts(k: Key, nonce: Option<(Bits, nat)>, policy: nat, instrs: seq<Instr>)
    requires 0 < policy < 4 && (nonce.Some? ==> policy == 2) && NonceOk(nonce)
    ensures var (m, h) := AfterRun(k, nonce, policy, instrs); Inv(m, h) && SameLocker(m, h, k, nonce)
  {
    hide Inv, MaskNonce;
    CreateInv(k, nonce, policy);
    RunKeeps(Create(k, nonce, policy), NOTHING.(nonce := if nonce.Some? then nonce.value.0 else []), instrs, k, nonce);
  }

  // ---------------------------------------------------------------- the theorems

  /** An admitted exec in Enc_Tag_Final hands out the truncated tag T and ends in Success; any other one is refused. */
  ghost predicate HandsOut(m: Ocb, T: Block, kllen: nat) {
    var o := Step(m, Exec(FormC, [], Some(kllen), 0, None));
    if m.policy % 2 == 1 && kllen >= m.tagLen then o.out == Slice(T, 0, m.tagLen) && o.m.st == SUCCESS
    else o.m.st == INVALID || kllen == 0
  }

  /** An admitted exec in Verify ends in Success if the tag given is the truncated T, and in Failure if not. */
  ghost predicate Compares(m: Ocb, T: Block, given: Bits, kllen: nat) {
    var o := Step(m, Exec(FormB, given, Some(kllen), 0, None));
    if m.policy / 2 % 2 == 1 && kllen >= m.tagLen
    then o.m.st == if Slice(given, 0, m.tagLen) == Slice(T, 0, m.tagLen) then SUCCESS else FAILURE
    else o.m.st == INVALID || kllen == 0
  }

  lemma TagOutcomes(m: Ocb, given: Bits, kllen: nat)
    requires m.tagLen == 64 || m.tagLen == 96 || m.tagLen == 128
    ensures m.st == ETF ==> HandsOut(m, m.csum, kllen)
    ensures m.st == VERIFY ==> Compares(m, m.csum, given, kllen)
  {
    hide Slice;
  }

  lemma AtTheTag(m: Ocb, h: History)
    requires Inv(m, h) && (m.st == ETF || m.st == VERIFY)
    ensures AtTag(m, h) && (m.tagLen == 64 || m.tagLen == 96 || m.tagLen == 128) && h.enc == (m.st == ETF)
  {
    hide AtTag, AadDone, IsTable, NonceKnown;
  }

  /**
   Encryption.  Over any run, the output bits are the reference ciphertext of the input bits, and the tag handed out in
   Enc_Tag_Final is the truncated reference tag.
   */
  lemma EncryptionIsOcb(k: Key, nonce: Option<(Bits, nat)>, policy: nat, instrs: seq<Instr>, kllen: nat)
    requires 0 < policy < 4 && (nonce.Some? ==> policy == 2) && NonceOk(nonce)
    requires AfterRun(k, nonce, policy, instrs).0.st == ETF
    ensures var (m, h) := AfterRun(k, nonce, policy, instrs);
            |h.aadLast| <= 120 && |h.lastIn| <= 120 &&
            var (C, T) := Crypt(k, true, NonceOf(m, h), m.nlen, m.tagLen, AadText(h), TextIn(h));
            TextOut(h) == C && HandsOut(m, T, kllen)
  {
    hide Inv, AfterRun, Crypt, HandsOut, TextIn, TextOut, AadText;
    RunFacts(k, nonce, policy, instrs);
    var (m, h) := AfterRun(k, nonce, policy, instrs);
    AtTheTag(m, h);
    TagOutcomes(m, [], kllen);
  }

  /**
   Decryption.  Over any run, the output bits are the reference plaintext of the input bits, and Verify ends in Success
   exactly when the tag given is the truncated reference tag.
   */
  lemma DecryptionIsOcb(k: Key, nonce: Option<(Bits, nat)>, policy: nat, instrs: seq<Instr>, given: Bits, kllen: nat)
    requires 0 < policy < 4 && (nonce.Some? ==> policy == 2) && NonceOk(nonce)
    requires AfterRun(k, nonce, policy, instrs).0.st == VERIFY
    ensures var (m, h) := AfterRun(k, nonce, policy, instrs);
            |h.aadLast| <= 120 && |h.lastIn| <= 120 &&
            var (P, T) := Crypt(k, false, NonceOf(m, h), m.nlen, m.tagLen, AadText(h), TextIn(h));
            TextOut(h) == P && Compares(m, T, given, kllen)
  {
    hide Inv, AfterRun, Crypt, Compares, TextIn, TextOut, AadText;
    RunFacts(k, nonce, policy, instrs);
    var (m, h) := AfterRun(k, nonce, policy, instrs);
    AtTheTag(m, h);
    TagOutcomes(m, given, kllen);
  }

  /**
   Two lockers worked on the same nonce, associated data and tag length, and the second was given the first's output.
   */
  ghost predicate Answers(m1: Ocb, h1: History, m2: Ocb, h2: History) {
    m1.nlen == m2.nlen && NonceOf(m1, h1) == NonceOf(m2, h2) && m1.tagLen == m2.tagLen && AadText(h1) == AadText(h2) &&
    TextIn(h2) == TextOut(h1)
  }

  /**
   A message encrypted by one run and decrypted by another under the same key comes back, and the tag that the first run
   hands out brings the second to Success, however either run cut its data into transfers.
   */
  lemma MessageComesBack(k: Key, policy1: nat, run1: seq<Instr>, nonce2: Option<(Bits, nat)>, policy2: nat,
      run2: seq<Instr>)
    requires 0 < policy1 < 4 && 0 < policy2 < 4 && (nonce2.Some? ==> policy2 == 2) && NonceOk(nonce2) && Inverse(k)
    requires var (m1, h1) := AfterRun(k, None, policy1, run1); m1.st == ETF && m1.policy % 2 == 1
    requires var (m2, h2) := AfterRun(k, nonce2, policy2, run2); m2.st == VERIFY && m2.policy / 2 % 2 == 1
    requires var (m1, h1) := AfterRun(k, None, policy1, run1);
             var (m2, h2) := AfterRun(k, nonce2, policy2, run2); Answers(m1, h1, m2, h2)
    ensures var (m1, h1) := AfterRun(k, None, policy1, run1);
            var (m2, h2) := AfterRun(k, nonce2, policy2, run2);
            var tag := Step(m1, Exec(FormC, [], Some(m1.tagLen), 0, None)).out;
            TextOut(h2) == TextIn(h1) && Step(m2, Exec(FormB, tag, Some(m1.tagLen), 0, None)).m.st == SUCCESS
  {
    hide Inv, AfterRun, Crypt, TextIn, TextOut, AadText, Step, NonceOf, Slice;
    var (m1, h1) := AfterRun(k, None, policy1, run1);
    var (m2, h2) := AfterRun(k, nonce2, policy2, run2);
    EncryptionIsOcb(k, None, policy1, run1, m1.tagLen);
    var tag := Step(m1, Exec(FormC, [], Some(m1.tagLen), 0, None)).out;
    DecryptionIsOcb(k, nonce2, policy2, run2, tag, m1.tagLen);
    DecryptEncrypt(k, NonceOf(m1, h1), m1.nlen, m1.tagLen, AadText(h1), TextIn(h1));
    var T := Crypt(k, true, NonceOf(m1, h1), m1.nlen, m1.tagLen, AadText(h1), TextIn(h1)).1;
    SliceTwice(T, m1.tagLen);
  }

  // ---------------------------------------------------------------- how much is admitted, and halts

  /** A block is admitted exactly while fewer than 2^48 have been processed. */
  lemma BlockAdmitted(m: Ocb, h: History, x: Block)
    requires Inv(m, h) && (m.st == ABSORB || m.st == ENC || m.st == DEC)
    ensures BlockStep(m, x).Some? <==> (if m.st == ABSORB then |h.aad| else |h.ins|) < MAX_BLOCKS
  {
    hide Ntz, Xor, HashLoop, CryptLoop, Hash, InitialOffset, IsTable, NonceKnown;
  }

  /** An exec in a State with transfers, whose window is not empty. */
  predicate TransferAdmitted(m: Ocb, form: Form, kllen: nat, at: nat) {
    Allowed(m.policy, m.st) && ExecForm(m.st, m.lbl) == Some(form) && at * 8 < kllen
  }

  lemma ExecIsMulti(m: Ocb, form: Form, inp: Bits, kllen: nat, at: nat, haltAt: Option<nat>)
    requires m.st == ABSORB || m.st == ENC || m.st == DEC
    ensures var o := DoExec(m, form, inp, Some(kllen), at, haltAt);
            if TransferAdmitted(m, form, kllen, at) then o == Multi(m.(klstart := 0), inp, Some(kllen), at, haltAt)
            else o.m.klstart == 0
  {
    hide Multi;
  }

  /** No halt is requested up to byte position p. */
  predicate HaltsAfter(haltAt: Option<nat>, p: nat) {
    haltAt.Some? ==> haltAt.value > p
  }

  /** The transfer behind a Multi that does something. */
  function Transferring(m: Ocb, inp: Bits, k: nat, n: nat, haltAt: Option<nat>): Transfer<Ocb>
    requires k <= n
  {
    TransferFrom<Ocb>(BlockStep, m, inp, k, n, k, haltAt, Zeros(128 * k))
  }

  lemma MultiIs(m: Ocb, inp: Bits, kllen: nat, at: nat, haltAt: Option<nat>)
    requires m.klstart == 0
    ensures var o, k, n := Multi(m, inp, Some(kllen), at, haltAt), at / 16, kllen / 128;
            (o.m.klstart != 0 ==> kllen == 128 * n && at == 16 * k && k < n) &&
            (kllen == 128 * n && at == 16 * k && k < n ==>
               o == Concluded(Transferring(m.(partial := []), inp, k, n, haltAt)))
  {
    hide TransferFrom, BlockStep, Concluded;
  }

  /** The outcomes of an interrupted transfer and of its resumption add up to that of the uninterrupted one. */
  ghost predicate AddUp(o1: Outcome, o2: Outcome, o: Outcome) {
    o2.m.(partial := []) == o.m.(partial := []) && o2.reached == o.reached && |o1.out| <= |o2.out| &&
    o.out == o1.out + o2.out[|o1.out|..]
  }

  lemma ConcludedAddUp(t: Transfer<Ocb>, t2: Transfer<Ocb>, whole: Transfer<Ocb>, tail: Bits)
    requires t.end == Halted && |t.out| == 128 * t.reached
    requires whole.out == t.out + tail && t2 == whole.(out := Zeros(128 * t.reached) + tail)
    requires t2.s.partial == []
    ensures AddUp(Concluded(t), Concluded(t2), Concluded(whole))
  {
    assert (Zeros(128 * t.reached) + tail)[|t.out|..] == tail;
  }

  lemma TransferHalted(m: Ocb, inp: Bits, k: nat, n: nat, haltAt: Option<nat>, later: Option<nat>)
    requires k <= n && m.partial == [] && m.klstart == 0
    requires var t := Transferring(m, inp, k, n, haltAt); t.end == Halted && LaterThan(later, t.reached)
    ensures var t := Transferring(m, inp, k, n, haltAt);
            k < t.reached < n && SameFields(m, t.s) &&
            AddUp(Concluded(t), Concluded(Transferring(t.s, inp, t.reached, n, later)), Concluded(Transferring(m, inp,
                k, n, later)))
  {
    hide TransferFrom, BlockStep, Concluded, AddUp;
    var t := Transferring(m, inp, k, n, haltAt);
    var tail := TransferResumes<Ocb>(BlockStep, m, inp, n, k, haltAt, later);
    TransferFields(m, inp, k, n, haltAt);
    TransferSize(m, inp, k, n, haltAt);
    TransferFields(t.s, inp, t.reached, n, later);
    ConcludedAddUp(t, Transferring(t.s, inp, t.reached, n, later), Transferring(m, inp, k, n, later), tail);
  }

  lemma MultiHalted(m: Ocb, inp: Bits, kllen: nat, at: nat, haltAt: Option<nat>, later: Option<nat>)
    requires (m.st == ABSORB || m.st == ENC || m.st == DEC) && m.klstart == 0
    requires var o1 := Multi(m, inp, Some(kllen), at, haltAt); o1.m.klstart != 0 && HaltsAfter(later, o1.m.klstart)
    ensures var o1 := Multi(m, inp, Some(kllen), at, haltAt);
            SameFields(m, o1.m.(klstart := 0, partial := m.partial)) && o1.m.klstart * 8 < kllen &&
            AddUp(o1, Multi(o1.m.(klstart := 0), inp, Some(kllen), o1.m.klstart, later), Multi(m, inp, Some(kllen), at,
                later))
  {
    hide Multi, Transferring, AddUp;
    MultiIs(m, inp, kllen, at, haltAt);
    var k, n, m0 := at / 16, kllen / 128, m.(partial := []);
    var t := Transferring(m0, inp, k, n, haltAt);
    TransferringFields(m0, inp, k, n, haltAt);
    TransferHalted(m0, inp, k, n, haltAt, later);
    MultiIs(m, inp, kllen, at, later);
    var m1 := Concluded(t).m.(klstart := 0);
    assert m1.(partial := []) == t.s;
    MultiIs(m1, inp, kllen, 16 * t.reached, later);
  }

  lemma TransferringFields(m: Ocb, inp: Bits, k: nat, n: nat, haltAt: Option<nat>)
    requires k <= n
    ensures SameFields(m, Transferring(m, inp, k, n, haltAt).s)
  {
    hide TransferFrom;
    TransferFields(m, inp, k, n, haltAt);
  }

  lemma TransferSize(m: Ocb, inp: Bits, k: nat, n: nat, haltAt: Option<nat>)
    requires k <= n
    ensures var t := TransferFrom<Ocb>(BlockStep, m, inp, k, n, k, haltAt, Zeros(128 * k)); |t.out| == 128 * t.reached
  {
    hide BlockStep, InputBlocks;
    var outs := TransferKeeps<Ocb>(BlockStep, (s: Ocb, xs: seq<Block>, ys: seq<Block>) => true, m, [], [], inp, k, n, k,
        haltAt,
                                   Zeros(128 * k));
  }

  /**
   Interrupting a transfer and resuming it where it stopped changes nothing: the locker and the assembled output are
   those of the transfer that was not interrupted there.
   */
  lemma ResumedIsUninterrupted(m: Ocb, form: Form, inp: Bits, kllen: nat, at: nat, haltAt: Option<nat>,
      later: Option<nat>)
    requires m.st == ABSORB || m.st == ENC || m.st == DEC
    requires var o1 := DoExec(m, form, inp, Some(kllen), at, haltAt);
             o1.m.klstart != 0 && HaltsAfter(later, o1.m.klstart)
    ensures var o1 := DoExec(m, form, inp, Some(kllen), at, haltAt);
            var o2, o := DoExec(o1.m, form, inp, Some(kllen), o1.m.klstart, later), DoExec(m, form, inp, Some(kllen),
                at, later);
            o1.m.st == m.st && AddUp(o1, o2, o)
  {
    hide DoExec, Multi;
    var m0 := m.(klstart := 0);
    ExecIsMulti(m, form, inp, kllen, at, haltAt);
    ExecIsMulti(m, form, inp, kllen, at, later);
    MultiHalted(m0, inp, kllen, at, haltAt, later);
    var o1 := Multi(m0, inp, Some(kllen), at, haltAt);
    ExecIsMulti(o1.m, form, inp, kllen, o1.m.klstart, later);
  }
}
