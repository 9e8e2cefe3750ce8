/**
 What no instruction of the GCM-SIV Machine can get around: the rights in MachinePolicy, the final piece that was
 announced, the order of tag and text, and the end of a message.
 */
module SivGates {
  import opened Wrappers
  import opened Modular
  import opened BitStrings
  import opened Gf128
  import opened AeadBase
  import opened Transfers
  import opened SivMachine
  import opened SivRuns

  predicate Encrypting(st: int) {
    st == ENC || st == ELB || st == ETF
  }

  predicate Decrypting(st: int) {
    st == DEC || st == DLB || st == DTF
  }

  predicate Ended(st: int) {
    st == SUCCESS || st == FAILURE || st == INVALID
  }

  lemma SetStLeads(m: Siv, st: int, form: Form, xs: nat, inp: Bits)
    ensures var m' := DoSetSt(m, st, form, xs, inp);
            m'.policy == m.policy && (m.st == INVALID ==> m'.st == INVALID) &&
            (m'.st == INVALID || m'.st == READY || (m'.st == st && Admits(m.st, st) && Allowed(m.policy, st)))
  {
    hide Admits, Allowed, FormOk, EncKey, AuthKey;
  }

  lemma TransferLeads(m: Siv, inp: Bits, k: nat, n: nat, haltAt: Option<nat>)
    requires k <= n
    ensures var s := TransferFrom<Siv>(BlockStep, m, inp, k, n, k, haltAt, Zeros(128 * k)).s;
            s.st == m.st && s.klstart == m.klstart && s.policy == m.policy && s.lbl == m.lbl
  {
    hide Montmul, Xor, CounterBlock;
    var keeps := (s: Siv, xs: seq<Block>, ys: seq<Block>) =>
      s.st == m.st && s.klstart == m.klstart && s.policy == m.policy && s.lbl == m.lbl;
    var outs := TransferKeeps<Siv>(BlockStep, keeps, m, [], [], inp, k, n, k, haltAt, Zeros(128 * k));
  }

  /** Where an exec can lead: the tag is made before the text, and checked after it. */
  predicate Follows(st: int, st': int) {
    st' == st || st' == INVALID || (st == ETF && st' == ENC) || (st == DLB && st' == DTF) ||
    (st == DTF && (st' == SUCCESS || st' == FAILURE))
  }

  lemma WorkLeads(m: Siv, inp: Bits, kllen: Option<nat>, klstart: nat, haltAt: Option<nat>)
    requires m.st == ABSORB || Encrypting(m.st) || Decrypting(m.st)
    ensures var m' := Work(m, inp, kllen, klstart, haltAt).m; m'.policy == m.policy && Follows(m.st, m'.st)
  {
    hide TransferFrom, Montmul, Xor, TagOf, CounterBlock;
    if kllen.Some? && klstart * 8 / 128 < kllen.value / 128 {
      var k, n := klstart * 8 / 128, kllen.value / 128;
      TransferLeads(m.(partial := []), inp, k, n, haltAt);
    }
  }

  lemma ExecLeads(m: Siv, form: Form, inp: Bits, kllen: Option<nat>, klstart: nat, haltAt: Option<nat>)
    ensures var o := DoExec(m, form, inp, kllen, klstart, haltAt);
            o.m.policy == m.policy && Follows(m.st, o.m.st) &&
            (m.st != INVALID && (!Allowed(m.policy, m.st) || Ended(m.st)) ==> o.m.st == INVALID && o.out == m.partial)
  {
    hide Work, Allowed;
    if m.st == ABSORB || Encrypting(m.st) || Decrypting(m.st) {
      WorkLeads(m.(klstart := 0), inp, kllen, klstart, haltAt);
    }
  }

  /**
   What one instruction keeps: no right is gained; without a right no State that needs it is entered, and an exec in one
   fails without working; a message that has ended is left for Ready only, and Invalid is never left.
   */
  predicate Guarded(m: Siv, i: Instr, o: Outcome) {
    (o.m.policy % 2 == 1 ==> m.policy % 2 == 1) && (o.m.policy / 2 % 2 == 1 ==> m.policy / 2 % 2 == 1) &&
    (m.policy % 2 == 0 ==>
       (Encrypting(o.m.st) ==> o.m.st == m.st && i.Restrict?) &&
       (i.Exec? && Encrypting(m.st) ==> o.m.st == INVALID && o.out == m.partial)) &&
    (m.policy / 2 % 2 == 0 ==>
       (Decrypting(o.m.st) ==> o.m.st == m.st && i.Restrict?) &&
       (i.Exec? && Decrypting(m.st) ==> o.m.st == INVALID && o.out == m.partial)) &&
    (Ended(m.st) ==>
       o.m.st == INVALID ||
       (m.st != INVALID && ((o.m.st == m.st && i.Restrict?) || (o.m.st == READY && i.SetSt?))))
  }

  lemma StepGuarded(m: Siv, i: Instr)
    ensures Guarded(m, i, Step(m, i))
  {
    hide DoSetSt, DoExec;
    match i
    case SetSt(st, form, xs, inp) => SetStLeads(m, st, form, xs, inp);
    case Exec(form, inp, kllen, klstart, haltAt) => ExecLeads(m, form, inp, kllen, klstart, haltAt);
    case Restrict(_) =>
  }

  /** Over a whole run a right that is missing at the start is never gained, nor is a State reached that needs it. */
  lemma {:induction false} RightsOverRuns(m: Siv, h: History, instrs: seq<Instr>)
    ensures var m' := After(m, h, instrs).0;
            (m.policy % 2 == 0 && !Encrypting(m.st) ==> m'.policy % 2 == 0 && !Encrypting(m'.st)) &&
            (m.policy / 2 % 2 == 0 && !Decrypting(m.st) ==> m'.policy / 2 % 2 == 0 && !Decrypting(m'.st))
    decreases instrs
  {
    hide Step, Encrypting, Decrypting, HistoryStep;
    if instrs != [] {
      var i := instrs[0];
      StepGuarded(m, i);
      RightsOverRuns(Step(m, i).m, HistoryStep(m, h, i), instrs[1..]);
    }
  }

  /** A final piece that was announced is processed, or the message is given up. */
  lemma FinalPieceNotSkipped(m: Siv, i: Instr)
    requires (m.st == ELB || m.st == DLB) && m.lbl != 0
    ensures var m' := Step(m, i).m;
            m'.st == m.st || m'.st == READY || m'.st == INVALID || (m'.st == DTF && i.Exec? && m'.lbl == 0)
  {
    hide DoSetSt, DoExec;
    match i
    case SetSt(st, form, xs, inp) => SetStLeads(m, st, form, xs, inp);
    case Exec(form, inp, kllen, klstart, haltAt) =>
      ExecLeads(m, form, inp, kllen, klstart, haltAt);
      LastClears(m, form, inp, kllen, klstart, haltAt);
    case Restrict(_) =>
  }

  lemma LastClears(m: Siv, form: Form, inp: Bits, kllen: Option<nat>, klstart: nat, haltAt: Option<nat>)
    requires m.st == ELB || m.st == DLB
    ensures var m' := DoExec(m, form, inp, kllen, klstart, haltAt).m; m'.st == DTF ==> m'.lbl == 0
  {
    hide Montmul, Xor, CounterBlock;
  }

  /** No plaintext is encrypted before the tag over all of it has been made, which is where encryption starts. */
  lemma TagComesFirst(m: Siv, i: Instr)
    ensures var m' := Step(m, i).m;
            (m'.st == ENC && m.st != ENC ==> m.st == ETF && i.Exec? && m'.siv == m'.tmp) &&
            (m'.st == ELB && m.st != ELB ==> m.st == ENC && i.SetSt? && m'.siv == m.siv)
  {
    hide TransferFrom, Montmul, Xor, TagOf, CounterBlock, EncKey, AuthKey;
    match i
    case SetSt(st, form, xs, inp) =>
    case Exec(form, inp, kllen, klstart, haltAt) =>
      ExecLeads(m, form, inp, kllen, klstart, haltAt);
    case Restrict(_) =>
  }

  /** Success and Failure come from the comparison of tags only. */
  lemma OnlyTheTagDecides(m: Siv, i: Instr)
    ensures var m' := Step(m, i).m;
            m'.st != m.st && (m'.st == SUCCESS || m'.st == FAILURE) ==>
              m.st == DTF && i.Exec? && (m'.st == SUCCESS <==> m'.tmp == m'.siv)
  {
    hide DoSetSt, TransferFrom, Montmul, Xor, TagOf, CounterBlock;
    match i
    case SetSt(st, form, xs, inp) => SetStLeads(m, st, form, xs, inp);
    case Exec(form, inp, kllen, klstart, haltAt) => ExecLeads(m, form, inp, kllen, klstart, haltAt);
    case Restrict(_) =>
  }

  // ---------------------------------------------------------------- nothing is left out

  /** The exec took in all of its window, or up to where it was interrupted, which klstart then says. */
  predicate WindowTaken(o: Outcome, kllen: nat, klstart: nat, haltAt: Option<nat>) {
    8 * klstart % 128 == 0 && kllen % 128 == 0 && |o.out| == 128 * o.reached &&
    ((128 * o.reached == kllen && o.m.klstart == 0) ||
     (HaltsAt(haltAt, 128 * o.reached) && o.m.klstart == 16 * o.reached && 8 * klstart < 128 * o.reached < kllen))
  }

  lemma ConcludedPosition(t: Transfer<Siv>)
    requires t.s.st != INVALID
    ensures var o := Concluded(t);
            (t.end.Failed? <==> o.m.st == INVALID) &&
            (t.end.Done? ==> o.m.klstart == t.s.klstart && o.out == t.out && o.reached == t.reached) &&
            (t.end.Halted? ==> o.m.klstart == 16 * t.reached && o.out == t.out && o.reached == t.reached)
  {
  }

  /** A transfer that does not fail takes in exactly its window of the input, from klstart on. */
  lemma WindowConsumed(m: Siv, form: Form, inp: Bits, kllen: nat, klstart: nat, haltAt: Option<nat>)
    requires m.st == ABSORB || m.st == ENC || m.st == DEC
    ensures var o := DoExec(m, form, inp, Some(kllen), klstart, haltAt);
            o.m.st != INVALID && 8 * klstart < kllen ==>
              WindowTaken(o, kllen, klstart, haltAt) &&
              Flatten(InputBlocks(inp, 8 * klstart / 128, o.reached)) ==
              Slice(inp, 8 * klstart, 128 * o.reached - 8 * klstart)
  {
    hide TransferFrom, Concluded, Slice, InputBlocks, Flatten, Allowed;
    if 8 * klstart < kllen && kllen % 128 == 0 && 8 * klstart % 128 == 0 {
      var k, n := klstart * 8 / 128, kllen / 128;
      WholeBlocks(kllen);
      WholeBlocks(8 * klstart);
      var m1 := m.(klstart := 0, partial := []);
      TransferReaches<Siv>(BlockStep, m1, inp, k, n, k, haltAt, Zeros(128 * k));
      TransferLeads(m1, inp, k, n, haltAt);
      ConcludedPosition(TransferFrom<Siv>(BlockStep, m1, inp, k, n, k, haltAt, Zeros(128 * k)));
      var o := DoExec(m, form, inp, Some(kllen), klstart, haltAt);
      if o.m.st != INVALID {
        InputBlocksAre(inp, k, o.reached);
      }
    }
  }
}
