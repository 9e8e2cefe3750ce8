/**
 What no instruction of the OCB Machines can get around: the rights in MachinePolicy, the pieces that were announced,
 the nonce, the tag length, and the end of a message.
 */
module OcbGates {
  import opened Wrappers
  import opened Modular
  import opened BitStrings
  import opened Gf128
  import opened AeadBase
  import opened Transfers
  import opened OcbReference
  import opened OcbMachine
  import opened OcbCorrect
  import opened OcbRuns

  predicate Encrypting(st: int) {
    st == ENC || st == ELB || st == ETF
  }

  predicate Decrypting(st: int) {
    st == DEC || st == DLB || st == VERIFY
  }

  predicate Ended(st: int) {
    st == SUCCESS || st == FAILURE || st == INVALID
  }

  lemma SetStLeads(m: Ocb, st: int, form: Form, xs: nat, inp: Bits)
    ensures var m' := DoSetSt(m, st, form, xs, inp);
            m'.policy == m.policy && m'.preset == m.preset && (m.st == INVALID ==> m'.st == INVALID) &&
            (m'.st == INVALID || m'.st == READY ||
             (m'.st == st && Admits(m.preset, m.st, st) && Allowed(m.policy, st) && LeaveOk(m) &&
              (st == ABSORB ==> (m.hasN || m.preset) && (xs == 64 || xs == 96 || xs == 128) && m'.tagLen == xs) &&
              (st != ABSORB && st != SAV ==> m'.tagLen == m.tagLen)))
  {
    hide Allowed, FormOk, LeaveOk, StartOffset, Double, Doubles, Xor;
  }

  lemma TransferLeads(m: Ocb, inp: Bits, k: nat, n: nat, haltAt: Option<nat>)
    requires k <= n
    ensures var s := TransferFrom<Ocb>(BlockStep, m, inp, k, n, k, haltAt, Zeros(128 * k)).s;
            s.st == m.st && s.klstart == m.klstart && s.policy == m.policy && s.lbl == m.lbl && s.tagLen == m.tagLen
  {
    hide Xor, Ntz;
    var keeps := (s: Ocb, xs: seq<Block>, ys: seq<Block>) =>
      s.st == m.st && s.klstart == m.klstart && s.policy == m.policy && s.lbl == m.lbl && s.tagLen == m.tagLen;
    var outs := TransferKeeps<Ocb>(BlockStep, keeps, m, [], [], inp, k, n, k, haltAt, Zeros(128 * k));
  }

  /** Where an exec can lead. */
  predicate Follows(st: int, st': int) {
    st' == st || st' == INVALID || (st == ELB && st' == ETF) || (st == DLB && st' == VERIFY) ||
    (st == ETF && st' == SUCCESS) || (st == VERIFY && (st' == SUCCESS || st' == FAILURE))
  }

  lemma WorkLeads(m: Ocb, inp: Bits, kllen: Option<nat>, klstart: nat, haltAt: Option<nat>)
    requires m.st == SAV || InMessage(m.st)
    ensures var m' := Work(m, inp, kllen, klstart, haltAt).m;
            m'.policy == m.policy && m'.tagLen == m.tagLen && Follows(m.st, m'.st)
  {
    hide TransferFrom, Xor, MaskNonce;
    if kllen.Some? && klstart * 8 / 128 < kllen.value / 128 {
      var k, n := klstart * 8 / 128, kllen.value / 128;
      TransferLeads(m.(partial := []), inp, k, n, haltAt);
    }
  }

  lemma ExecLeads(m: Ocb, form: Form, inp: Bits, kllen: Option<nat>, klstart: nat, haltAt: Option<nat>)
    ensures var o := DoExec(m, form, inp, kllen, klstart, haltAt);
            o.m.policy == m.policy && o.m.tagLen == m.tagLen && Follows(m.st, o.m.st) &&
            (m.st != INVALID && (!Allowed(m.policy, m.st) || Ended(m.st)) ==> o.m.st == INVALID && o.out == m.partial)
  {
    hide Work, Allowed;
    if m.st == SAV || InMessage(m.st) {
      WorkLeads(m.(klstart := 0), inp, kllen, klstart, haltAt);
    }
  }

  /**
   What one instruction keeps: no right is gained; without a right no State that needs it is entered, and an exec in one
   fails without working; a message that has ended is left for Ready only, and Invalid is never left.
   */
  predicate Guarded(m: Ocb, i: Instr, o: Outcome) {
    (o.m.policy % 2 == 1 ==> m.policy % 2 == 1) && (o.m.policy / 2 % 2 == 1 ==> m.policy / 2 % 2 == 1) &&
    (m.policy % 2 == 0 ==>
       (Encrypting(o.m.st) ==> o.m.st == m.st && i.Restrict?) &&
       (i.Exec? && Encrypting(m.st) ==> o.m.st == INVALID && o.out == m.partial)) &&
    (m.policy / 2 % 2 == 0 ==>
       (Decrypting(o.m.st) ==> o.m.st == m.st && i.Restrict?) &&
       (i.Exec? && Decrypting(m.st) ==> o.m.st == INVALID && o.out == m.partial)) &&
    (Ended(m.st) ==>
       o.m.st == INVALID ||
       (m.st != INVALID && ((o.m.st == m.st && i.Restrict?) || (o.m.st == READY && i.SetSt?))))
  }

  lemma StepGuarded(m: Ocb, i: Instr)
    ensures Guarded(m, i, Step(m, i))
  {
    hide DoSetSt, DoExec;
    match i
    case SetSt(st, form, xs, inp) => SetStLeads(m, st, form, xs, inp);
    case Exec(form, inp, kllen, klstart, haltAt) => ExecLeads(m, form, inp, kllen, klstart, haltAt);
    case Restrict(_) =>
  }

  /** Over a whole run a right that is missing at the start is never gained, nor is a State reached that needs it. */
  lemma {:induction false} RightsOverRuns(m: Ocb, h: History, instrs: seq<Instr>)
    ensures var m' := After(m, h, instrs).0;
            (m.policy % 2 == 0 && !Encrypting(m.st) ==> m'.policy % 2 == 0 && !Encrypting(m'.st)) &&
            (m.policy / 2 % 2 == 0 && !Decrypting(m.st) ==> m'.policy / 2 % 2 == 0 && !Decrypting(m'.st))
    decreases instrs
  {
    hide Step, Encrypting, Decrypting, HistoryStep;
    if instrs != [] {
      var i := instrs[0];
      StepGuarded(m, i);
      RightsOverRuns(Step(m, i).m, HistoryStep(m, h, i), instrs[1..]);
    }
  }

  /** Associated data that was announced is processed, or the message is given up. */
  lemma LastAadNotSkipped(m: Ocb, i: Instr)
    requires m.st == HABL && m.lbl != 0
    ensures var m' := Step(m, i).m; m'.st == HABL || m'.st == READY || m'.st == INVALID
  {
    hide DoSetSt, DoExec;
    match i
    case SetSt(st, form, xs, inp) => SetStLeads(m, st, form, xs, inp);
    case Exec(form, inp, kllen, klstart, haltAt) => ExecLeads(m, form, inp, kllen, klstart, haltAt);
    case Restrict(_) =>
  }

  /** A final piece that was announced is processed, or the message is given up. */
  lemma FinalPieceNotSkipped(m: Ocb, i: Instr)
    requires (m.st == ELB || m.st == DLB) && m.lbl != 0
    ensures var m' := Step(m, i).m;
            m'.st == m.st || m'.st == READY || m'.st == INVALID || (m'.st == TagState(m.st) && i.Exec?)
  {
    hide DoExec, Allowed, FormOk, Xor;
    match i
    case SetSt(st, form, xs, inp) =>
    case Exec(form, inp, kllen, klstart, haltAt) => ExecLeads(m, form, inp, kllen, klstart, haltAt);
    case Restrict(_) =>
  }

  /** A message starts with a nonce that was loaded or preset, and with one of the three tag lengths, which it keeps. */
  lemma MessageStarts(m: Ocb, i: Instr)
    ensures var m' := Step(m, i).m;
            (m'.st == ABSORB && m.st != ABSORB ==>
               i.SetSt? && (m.hasN || m.preset) && (m'.tagLen == 64 || m'.tagLen == 96 || m'.tagLen == 128)) &&
            (InMessage(m.st) && InMessage(m'.st) ==> m'.tagLen == m.tagLen)
  {
    hide DoSetSt, DoExec;
    match i
    case SetSt(st, form, xs, inp) => SetStLeads(m, st, form, xs, inp);
    case Exec(form, inp, kllen, klstart, haltAt) => ExecLeads(m, form, inp, kllen, klstart, haltAt);
    case Restrict(_) =>
  }

  // ---------------------------------------------------------------- nothing is left out

  /** The exec took in all of its window, or up to where it was interrupted, which klstart then says. */
  predicate WindowTaken(o: Outcome, kllen: nat, klstart: nat, haltAt: Option<nat>) {
    8 * klstart % 128 == 0 && kllen % 128 == 0 && |o.out| == 128 * o.reached &&
    ((128 * o.reached == kllen && o.m.klstart == 0) ||
     (HaltsAt(haltAt, 128 * o.reached) && o.m.klstart == 16 * o.reached && 8 * klstart < 128 * o.reached < kllen))
  }

  lemma ConcludedPosition(t: Transfer<Ocb>)
    requires t.s.st != INVALID
    ensures var o := Concluded(t);
            (t.end.Failed? <==> o.m.st == INVALID) &&
            (t.end.Done? ==> o.m.klstart == t.s.klstart && o.out == t.out && o.reached == t.reached) &&
            (t.end.Halted? ==> o.m.klstart == 16 * t.reached && o.out == t.out && o.reached == t.reached)
  {
  }

  /** A transfer that does not fail takes in exactly its window of the input, from klstart on. */
  lemma WindowConsumed(m: Ocb, form: Form, inp: Bits, kllen: nat, klstart: nat, haltAt: Option<nat>)
    requires m.st == ABSORB || m.st == ENC || m.st == DEC
    ensures var o := DoExec(m, form, inp, Some(kllen), klstart, haltAt);
            o.m.st != INVALID && 8 * klstart < kllen ==>
              WindowTaken(o, kllen, klstart, haltAt) &&
              Flatten(InputBlocks(inp, 8 * klstart / 128, o.reached)) ==
              Slice(inp, 8 * klstart, 128 * o.reached - 8 * klstart)
  {
    hide TransferFrom, Concluded, Slice, InputBlocks, Flatten, Multi, DoExec, BlockStep;
    var o := DoExec(m, form, inp, Some(kllen), klstart, haltAt);
    NotAdmitted(m, form, inp, kllen, klstart, haltAt);
    if o.m.st != INVALID && 8 * klstart < kllen {
      var k, n, m1 := klstart * 8 / 128, kllen / 128, m.(klstart := 0, partial := []);
      ExecIsMulti(m, form, inp, kllen, klstart, haltAt);
      MultiBlocks(m.(klstart := 0), inp, kllen, klstart, haltAt);
      WholeBlocks(kllen);
      WholeBlocks(8 * klstart);
      TransferReaches<Ocb>(BlockStep, m1, inp, k, n, k, haltAt, Zeros(128 * k));
      TransferLeads(m1, inp, k, n, haltAt);
      ConcludedPosition(TransferFrom<Ocb>(BlockStep, m1, inp, k, n, k, haltAt, Zeros(128 * k)));
      InputBlocksAre(inp, k, o.reached);
    }
  }

  lemma NotAdmitted(m: Ocb, form: Form, inp: Bits, kllen: nat, klstart: nat, haltAt: Option<nat>)
    requires m.st == ABSORB || m.st == ENC || m.st == DEC
    ensures 8 * klstart < kllen && !TransferAdmitted(m, form, kllen, klstart) ==>
              DoExec(m, form, inp, Some(kllen), klstart, haltAt).m.st == INVALID
  {
    hide Work;
  }

  lemma MultiBlocks(m: Ocb, inp: Bits, kllen: nat, klstart: nat, haltAt: Option<nat>)
    requires m.klstart == 0 && 8 * klstart < kllen
    ensures var o, k, n := Multi(m, inp, Some(kllen), klstart, haltAt), klstart * 8 / 128, kllen / 128;
            o.m.st != INVALID ==>
              kllen % 128 == 0 && klstart * 8 % 128 == 0 && k < n &&
              o == Concluded(TransferFrom<Ocb>(BlockStep, m.(partial := []), inp, k, n, k, haltAt, Zeros(128 * k)))
  {
    hide TransferFrom, BlockStep, Concluded;
  }
}
