/**
 What no instruction of the CMAC Machine can get around: the rights in MachinePolicy, the last block, the tag length,
 and the end of a message.
 */
module CmacGates {
  import opened Wrappers
  import opened Modular
  import opened BitStrings
  import opened Gf128
  import opened AeadBase
  import opened Transfers
  import opened CmacMachine
  import opened CmacRuns

  predicate Outputting(st: int) {
    st == HOUT
  }

  predicate Verifying(st: int) {
    st == VERIFY
  }

  predicate Ended(st: int) {
    st == SUCCESS || st == FAILURE || st == INVALID
  }

  /** A tag is handed out or compared only when the last block is in, at no fewer than 64 bits. */
  predicate Complete(m: Cmac) {
    (m.st != INVALID ==> AdmitsTagLen(m.tagLenP)) &&
    (m.st == HOUT || m.st == VERIFY ==> m.all && (m.st == VERIFY ==> m.tagLen == m.tagLenP))
  }

  lemma SetStLeads(m: Cmac, st: int, form: Form, xs: nat, inp: Bits)
    ensures var m' := DoSetSt(m, st, form, xs, inp);
            m'.policy == m.policy && m'.tagLenP == m.tagLenP && (m.st == INVALID ==> m'.st == INVALID) &&
            (m'.st == INVALID || m'.st == READY ||
             (m'.st == st && Admits(m.st, st) && Permits(m.policy, st) &&
              (st == HOUT || st == VERIFY ==> m.all && m'.all) && (st == VERIFY ==> m'.tagLen == m.tagLenP)))
  {
    hide Permits, FormOk, Subkey2, Xor;
  }

  lemma TransferLeads(m: Cmac, inp: Bits, k: nat, n: nat, haltAt: Option<nat>)
    requires k <= n
    ensures var s := TransferFrom<Cmac>(BlockStep, m, inp, k, n, k, haltAt, Zeros(128 * k)).s;
            s.st == m.st && s.klstart == m.klstart && s.policy == m.policy && s.tagLenP == m.tagLenP && s.all == m.all
  {
    hide Xor;
    var keeps := (s: Cmac, xs: seq<Block>, ys: seq<Block>) =>
      s.st == m.st && s.klstart == m.klstart && s.policy == m.policy && s.tagLenP == m.tagLenP && s.all == m.all;
    var outs := TransferKeeps<Cmac>(BlockStep, keeps, m, [], [], inp, k, n, k, haltAt, Zeros(128 * k));
  }

  /** Where an exec can lead. */
  predicate Follows(st: int, st': int) {
    st' == st || st' == INVALID || (st == HOUT && st' == SUCCESS) ||
    (st == VERIFY && (st' == SUCCESS || st' == FAILURE))
  }

  lemma ExecLeads(m: Cmac, form: Form, inp: Bits, kllen: Option<nat>, klstart: nat, haltAt: Option<nat>)
    ensures var o := DoExec(m, form, inp, kllen, klstart, haltAt);
            o.m.policy == m.policy && o.m.tagLenP == m.tagLenP && Follows(m.st, o.m.st) &&
            (m.st == HOUT || m.st == VERIFY ==> o.m.all == m.all && o.m.tagLen == m.tagLen) &&
            (m.st != INVALID && (!Permits(m.policy, m.st) || Ended(m.st)) ==> o.m.st == INVALID && o.out == m.partial)
  {
    hide TransferFrom, Permits, Xor, Subkey1, Subkey2;
    if kllen.Some? && klstart * 8 / 128 < kllen.value / 128 {
      var k, n := klstart * 8 / 128, kllen.value / 128;
      TransferLeads(m.(klstart := 0, partial := []), inp, k, n, haltAt);
    }
  }

  lemma StepKeepsComplete(m: Cmac, i: Instr)
    requires Complete(m)
    ensures Complete(Step(m, i).m)
  {
    hide DoSetSt, DoExec;
    match i
    case SetSt(st, form, xs, inp) => SetStLeads(m, st, form, xs, inp);
    case Exec(form, inp, kllen, klstart, haltAt) => ExecLeads(m, form, inp, kllen, klstart, haltAt);
    case Restrict(_) =>
  }

  /**
   What one instruction keeps: no right is gained; without a right no State that needs it is entered, and an exec in one
   fails without working; a message that has ended is left for Ready only, and Invalid is never left.
   */
  predicate Guarded(m: Cmac, i: Instr, o: Outcome) {
    (o.m.policy % 2 == 1 ==> m.policy % 2 == 1) && (o.m.policy / 2 % 2 == 1 ==> m.policy / 2 % 2 == 1) &&
    (m.policy % 2 == 0 ==>
       (Outputting(o.m.st) ==> o.m.st == m.st && i.Restrict?) &&
       (i.Exec? && Outputting(m.st) ==> o.m.st == INVALID && o.out == m.partial)) &&
    (m.policy / 2 % 2 == 0 ==>
       (Verifying(o.m.st) ==> o.m.st == m.st && i.Restrict?) &&
       (i.Exec? && Verifying(m.st) ==> o.m.st == INVALID && o.out == m.partial)) &&
    (Ended(m.st) ==>
       o.m.st == INVALID ||
       (m.st != INVALID && ((o.m.st == m.st && i.Restrict?) || (o.m.st == READY && i.SetSt?))))
  }

  lemma StepGuarded(m: Cmac, i: Instr)
    ensures Guarded(m, i, Step(m, i))
  {
    hide DoSetSt, DoExec;
    match i
    case SetSt(st, form, xs, inp) => SetStLeads(m, st, form, xs, inp);
    case Exec(form, inp, kllen, klstart, haltAt) => ExecLeads(m, form, inp, kllen, klstart, haltAt);
    case Restrict(_) =>
  }

  /** Over a whole run neither completeness is lost nor a right gained. */
  lemma {:induction false} RunGuarded(m: Cmac, h: History, instrs: seq<Instr>)
    requires Complete(m)
    ensures var m' := After(m, h, instrs).0;
            Complete(m') && (m.policy % 2 == 0 && m.st != HOUT ==> m'.policy % 2 == 0 && m'.st != HOUT) &&
            (m.policy / 2 % 2 == 0 && m.st != VERIFY ==> m'.policy / 2 % 2 == 0 && m'.st != VERIFY)
    decreases instrs
  {
    hide Step, HistoryStep, Complete;
    if instrs != [] {
      var i := instrs[0];
      StepKeepsComplete(m, i);
      StepGuarded(m, i);
      RunGuarded(Step(m, i).m, HistoryStep(m, h, i), instrs[1..]);
    }
  }

  lemma CreatedComplete(E: Cipher, policy: nat, tagLenP: nat)
    requires 0 < policy < 4
    ensures Complete(Create(E, policy, tagLenP))
  {
  }

  /** Over every run of a provisioned locker. */
  lemma TagsAreComplete(E: Cipher, policy: nat, tagLenP: nat, instrs: seq<Instr>)
    requires 0 < policy < 4
    ensures Complete(AfterRun(E, policy, tagLenP, instrs).0)
  {
    hide Complete, Create, After;
    CreatedComplete(E, policy, tagLenP);
    RunGuarded(Create(E, policy, tagLenP), NOTHING, instrs);
  }

  // ---------------------------------------------------------------- nothing is left out

  /** The exec took in all of its window, or up to where it was interrupted, which klstart then says. */
  predicate WindowTaken(o: Outcome, kllen: nat, klstart: nat, haltAt: Option<nat>) {
    8 * klstart % 128 == 0 && kllen % 128 == 0 && |o.out| == 128 * o.reached &&
    ((128 * o.reached == kllen && o.m.klstart == 0) ||
     (HaltsAt(haltAt, 128 * o.reached) && o.m.klstart == 16 * o.reached && 8 * klstart < 128 * o.reached < kllen))
  }

  lemma ConcludedPosition(t: Transfer<Cmac>)
    requires t.s.st != INVALID
    ensures var o := Concluded(t);
            (t.end.Failed? <==> o.m.st == INVALID) &&
            (t.end.Done? ==> o.m.klstart == t.s.klstart && o.out == t.out && o.reached == t.reached) &&
            (t.end.Halted? ==> o.m.klstart == 16 * t.reached && o.out == t.out && o.reached == t.reached)
  {
  }

  /** A transfer that does not fail takes in exactly its window of the input, from klstart on. */
  lemma WindowConsumed(m: Cmac, form: Form, inp: Bits, kllen: nat, klstart: nat, haltAt: Option<nat>)
    requires m.st == ABSORB
    ensures var o := DoExec(m, form, inp, Some(kllen), klstart, haltAt);
            o.m.st != INVALID && 8 * klstart < kllen ==>
              WindowTaken(o, kllen, klstart, haltAt) &&
              Flatten(InputBlocks(inp, 8 * klstart / 128, o.reached)) ==
              Slice(inp, 8 * klstart, 128 * o.reached - 8 * klstart)
  {
    hide TransferFrom, Concluded, Slice, InputBlocks, Flatten, Permits;
    if 8 * klstart < kllen && kllen % 128 == 0 && 8 * klstart % 128 == 0 {
      var k, n := klstart * 8 / 128, kllen / 128;
      WholeBlocks(kllen);
      WholeBlocks(8 * klstart);
      var m1 := m.(klstart := 0, partial := []);
      TransferReaches<Cmac>(BlockStep, m1, inp, k, n, k, haltAt, Zeros(128 * k));
      TransferLeads(m1, inp, k, n, haltAt);
      ConcludedPosition(TransferFrom<Cmac>(BlockStep, m1, inp, k, n, k, haltAt, Zeros(128 * k)));
      var o := DoExec(m, form, inp, Some(kllen), klstart, haltAt);
      if o.m.st != INVALID {
        InputBlocksAre(inp, k, o.reached);
      }
    }
  }
}
