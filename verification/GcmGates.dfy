/**
 What no instruction of the GCM Machine can get around: the rights in MachinePolicy, the final piece that was
 announced, the IV in the making, the tag length, and the end of a message.
 */
module GcmGates {
  import opened Wrappers
  import opened Modular
  import opened BitStrings
  import opened Gf128
  import opened AeadBase
  import opened GcmMachine
  import opened GcmRuns

  predicate Encrypting(st: int) {
    st == ENC || st == ELB || st == ETF
  }

  predicate Decrypting(st: int) {
    st == DEC || st == DLB || st == DTF || st == VERIFY
  }

  predicate Ended(st: int) {
    st == SUCCESS || st == FAILURE || st == INVALID
  }

  /** Where kl.setst can lead. */
  lemma SetStLeads(m: Gcm, st: int, form: Form, xs: nat, inp: Bits)
    ensures var m' := DoSetSt(m, st, form, xs, inp);
            m'.policy == m.policy && m'.tagLenP == m.tagLenP && m'.iv == m.iv &&
            (m.st == INVALID ==> m'.st == INVALID) &&
            (m'.st == INVALID || m'.st == READY ||
             (m'.st == st && Admits(m.iv, m.st, st) && Allowed(m.policy, st) && LeaveOk(m, st)))
  {
    hide Admits, Allowed, LeaveOk, GhashMul, Xor, FormOk;
  }

  lemma {:induction false} MultiLeads(m: Gcm, inp: Bits, i: nat, n: nat, k: nat, haltAt: Option<nat>, out: Bits)
    requires i <= n
    ensures var m' := MultiFrom(m, inp, i, n, k, haltAt, out).m;
            (m'.st == m.st || m'.st == INVALID) && m'.policy == m.policy && m'.tagLenP == m.tagLenP && m'.iv == m.iv &&
            m'.lbl == m.lbl
    decreases n - i
  {
    hide GhashMul, NextCtr;
    NextOnlyJ0(m);
    if i < n {
      match BlockStep(m, Slice(inp, 128 * i, 128))
      case None =>
      case Some((m1, o)) => MultiLeads(m1, inp, i + 1, n, k, haltAt, out + o);
    }
  }

  lemma {:induction false} VliLeads(m: Gcm, inp: Bits, ib: nat, kllen: nat, haltAt: Option<nat>)
    requires VliOk(m)
    ensures var m' := VliFrom(m, inp, ib, kllen, haltAt).m;
            (m'.st == m.st || m'.st == ABSORB) && m'.policy == m.policy && m'.tagLenP == m.tagLenP && m'.iv == m.iv
    decreases kllen - ib
  {
    hide VliPiece, Finalize;
    if ib >= kllen {
      VliEnd(m, inp, ib, kllen, haltAt);
    } else {
      VliUnfold(m, inp, ib, kllen, haltAt);
      var amt := Amount(m, ib, kllen);
      var m1 := VliPiece(m, inp, ib, amt);
      PieceFields(m, inp, ib, amt);
      FinalizeFields(m1);
      if m1.cumul != m1.len && !StopsAt(haltAt, ib + amt, kllen) {
        VliLeads(m1, inp, ib + amt, kllen, haltAt);
      }
    }
  }

  lemma FinalizeFields(m: Gcm)
    ensures var r := Finalize(m); r.st == ABSORB && r.policy == m.policy && r.tagLenP == m.tagLenP && r.iv == m.iv
  {
    hide GhashMul, Ctr32, WithCtr, Xor;
  }

  /** Where the work of kl.exec can lead. */
  lemma WorkLeads(m: Gcm, inp: Bits, kllen: Option<nat>, klstart: nat, haltAt: Option<nat>)
    ensures var m' := Work(m, inp, kllen, klstart, haltAt).m;
            m'.policy == m.policy && m'.tagLenP == m.tagLenP && m'.iv == m.iv &&
            (m'.st == m.st || m'.st == INVALID || (m.st == SAV && m'.st == ABSORB) ||
             (m.st == ETF && m'.st == SUCCESS) ||
             (!(m.st == SAV || m.st == ABSORB || Encrypting(m.st) || m.st == DEC || m.st == DLB) &&
              (m'.st == SUCCESS || m'.st == FAILURE)))
  {
    hide MultiFrom, VliFrom, NextCtr, GhashMul, Xor;
    NextOnlyJ0(m);
    if m.st == SAV && m.cumul < m.len && m.blockBase < 128 && kllen.Some? {
      VliLeads(m, inp, 8 * klstart, kllen.value, haltAt);
    } else if kllen.Some? && klstart * 8 / 128 < kllen.value / 128 {
      var k, n := klstart * 8 / 128, kllen.value / 128;
      MultiLeads(m.(partial := []), inp, k, n, k, haltAt, Zeros(128 * k));
    }
  }

  lemma ExecLeads(m: Gcm, form: Form, inp: Bits, kllen: Option<nat>, klstart: nat, haltAt: Option<nat>)
    ensures var o := DoExec(m, form, inp, kllen, klstart, haltAt);
            o.m.policy == m.policy && o.m.tagLenP == m.tagLenP && o.m.iv == m.iv &&
            (o.m.st == m.st || o.m.st == INVALID || (m.st == SAV && o.m.st == ABSORB) ||
             (m.st == ETF && o.m.st == SUCCESS) || (m.st == VERIFY && (o.m.st == SUCCESS || o.m.st == FAILURE))) &&
            (m.st != INVALID && (!Allowed(m.policy, m.st) || Ended(m.st)) ==> o.m.st == INVALID && o.out == m.partial)
  {
    hide Work, Allowed;
    WorkLeads(m.(klstart := 0), inp, kllen, klstart, haltAt);
  }

  // ---------------------------------------------------------------- MachinePolicy

  /**
   What one instruction keeps: no right is gained; without a right no State that needs it is entered, and an exec in one
   fails without working; a message that has ended is left for Ready only, and Invalid is never left.
   */
  predicate Guarded(m: Gcm, i: Instr, o: Outcome) {
    (o.m.policy % 2 == 1 ==> m.policy % 2 == 1) && (o.m.policy / 2 % 2 == 1 ==> m.policy / 2 % 2 == 1) &&
    (m.policy % 2 == 0 ==>
       (Encrypting(o.m.st) ==> o.m.st == m.st && i.Restrict?) &&
       (i.Exec? && Encrypting(m.st) ==> o.m.st == INVALID && o.out == m.partial)) &&
    (m.policy / 2 % 2 == 0 ==>
       (Decrypting(o.m.st) ==> o.m.st == m.st && i.Restrict?) &&
       (i.Exec? && Decrypting(m.st) ==> o.m.st == INVALID && o.out == m.partial)) &&
    (Ended(m.st) ==>
       o.m.st == INVALID ||
       (m.st != INVALID && ((o.m.st == m.st && i.Restrict?) || (o.m.st == READY && i.SetSt?))))
  }

  lemma StepGuarded(m: Gcm, i: Instr)
    ensures Guarded(m, i, Step(m, i))
  {
    hide DoSetSt, DoExec;
    match i
    case SetSt(st, form, xs, inp) => SetStLeads(m, st, form, xs, inp);
    case Exec(form, inp, kllen, klstart, haltAt) => ExecLeads(m, form, inp, kllen, klstart, haltAt);
    case Restrict(_) =>
  }

  /** Over a whole run a right that is missing at the start is never gained, nor is a State reached that needs it. */
  lemma {:induction false} RightsOverRuns(m: Gcm, instrs: seq<Instr>)
    ensures var m' := After(m, instrs);
            (m.policy % 2 == 0 && !Encrypting(m.st) ==> m'.policy % 2 == 0 && !Encrypting(m'.st)) &&
            (m.policy / 2 % 2 == 0 && !Decrypting(m.st) ==> m'.policy / 2 % 2 == 0 && !Decrypting(m'.st))
    decreases instrs
  {
    hide Step, Encrypting, Decrypting;
    if instrs != [] {
      var i := instrs[0];
      StepGuarded(m, i);
      RightsOverRuns(Step(m, i).m, instrs[1..]);
    }
  }

  // ---------------------------------------------------------------- what cannot be skipped

  /** A final piece that was announced is processed, or the message is given up. */
  lemma FinalPieceNotSkipped(m: Gcm, i: Instr)
    requires (m.st == ELB || m.st == DLB) && m.lbl != 0
    ensures var m' := Step(m, i).m; m'.st == m.st || m'.st == READY || m'.st == INVALID
  {
    hide DoSetSt, DoExec;
    match i
    case SetSt(st, form, xs, inp) => SetStLeads(m, st, form, xs, inp);
    case Exec(form, inp, kllen, klstart, haltAt) => ExecLeads(m, form, inp, kllen, klstart, haltAt);
    case Restrict(_) =>
  }

  /** An IV of 8 to 8192 bits is announced, and then left only by kl.exec completing it, or given up. */
  lemma IvNotSkipped(m: Gcm, i: Instr)
    ensures var m' := Step(m, i).m;
            (m.st == SAV ==> m'.st == SAV || m'.st == READY || m'.st == INVALID || (m'.st == ABSORB && i.Exec?)) &&
            (m'.st == SAV && i.SetSt? ==> m'.len == i.xs && i.xs % 8 == 0 && 8 <= i.xs <= 8192 && m'.cumul == 0)
  {
    hide DoExec, GhashMul, Xor;
    match i
    case SetSt(st, form, xs, inp) =>
    case Exec(form, inp, kllen, klstart, haltAt) => ExecLeads(m, form, inp, kllen, klstart, haltAt);
    case Restrict(_) =>
  }

  /** A comparison that ends in Success or Failure is made in Verify, and a tag is compared at its full length. */
  lemma OnlyVerifyDecides(m: Gcm, i: Instr)
    ensures var m' := Step(m, i).m;
            (m'.st == FAILURE && m.st != FAILURE ==> m.st == VERIFY && i.Exec?) &&
            (m'.st == SUCCESS && m.st != SUCCESS ==> (m.st == VERIFY || m.st == ETF) && i.Exec?)
  {
    hide DoSetSt, DoExec;
    match i
    case SetSt(st, form, xs, inp) => SetStLeads(m, st, form, xs, inp);
    case Exec(form, inp, kllen, klstart, haltAt) => ExecLeads(m, form, inp, kllen, klstart, haltAt);
    case Restrict(_) =>
  }

  // ---------------------------------------------------------------- the tag length

  /** A locker that works has one of the six tag lengths of SP 800-38D, and Verify compares that many bits. */
  predicate TagLengthOk(m: Gcm) {
    m.st != INVALID ==>
      (m.tagLenP == 64 || (96 <= m.tagLenP <= 128 && m.tagLenP % 8 == 0)) && (m.st == VERIFY ==> m.tagLen == m.tagLenP)
  }

  lemma VerifyKeeps(m: Gcm, i: Instr)
    requires TagLengthOk(m)
    ensures TagLengthOk(Step(m, i).m)
  {
    hide DoSetSt, DoExec;
    match i
    case SetSt(st, form, xs, inp) =>
      SetStLeads(m, st, form, xs, inp);
      VerifyOnce(m, st, form, xs, inp);
    case Exec(form, inp, kllen, klstart, haltAt) =>
      ExecLeads(m, form, inp, kllen, klstart, haltAt);
      EmptyInVerify(m, form, inp, kllen, klstart, haltAt);
    case Restrict(_) =>
  }

  lemma VerifyOnce(m: Gcm, st: int, form: Form, xs: nat, inp: Bits)
    ensures var m' := DoSetSt(m, st, form, xs, inp); m'.st == VERIFY ==> m'.tagLen == m.tagLenP
  {
    hide GhashMul, Xor;
  }

  lemma EmptyInVerify(m: Gcm, form: Form, inp: Bits, kllen: Option<nat>, klstart: nat, haltAt: Option<nat>)
    ensures var m' := DoExec(m, form, inp, kllen, klstart, haltAt).m;
            m'.st == VERIFY && m.st == VERIFY ==> m'.tagLen == m.tagLen
  {
    hide Multi, Vli, LastBlock, EmitTag;
  }

  lemma {:induction false} TagLengthOverRuns(m: Gcm, instrs: seq<Instr>)
    requires TagLengthOk(m)
    ensures TagLengthOk(After(m, instrs))
    decreases instrs
  {
    hide Step, TagLengthOk;
    if instrs != [] {
      VerifyKeeps(m, instrs[0]);
      TagLengthOverRuns(Step(m, instrs[0]).m, instrs[1..]);
    }
  }

  lemma CreatedLength(E: Cipher, preset: Option<Bits>, policy: nat, tagLenP: nat)
    requires 0 < policy < 4 && (preset.Some? ==> policy == 2)
    ensures TagLengthOk(Create(E, preset, policy, tagLenP))
  {
    hide WithCtr, Slice;
  }

  /** Over every run of a provisioned locker. */
  lemma TagLengthHolds(E: Cipher, preset: Option<Bits>, policy: nat, tagLenP: nat, instrs: seq<Instr>)
    requires 0 < policy < 4 && (preset.Some? ==> policy == 2)
    ensures TagLengthOk(After(Create(E, preset, policy, tagLenP), instrs))
  {
    hide Create, TagLengthOk;
    CreatedLength(E, preset, policy, tagLenP);
    TagLengthOverRuns(Create(E, preset, policy, tagLenP), instrs);
  }

  // ---------------------------------------------------------------- nothing is left out

  /** The exec took in all of its window, or up to where it was interrupted, which klstart then says. */
  predicate WindowTaken(o: Outcome, kllen: nat, klstart: nat, haltAt: Option<nat>) {
    8 * klstart % 128 == 0 && kllen % 128 == 0 && |o.out| == 128 * o.reached &&
    ((128 * o.reached == kllen && o.m.klstart == 0) ||
     (HaltsAt(haltAt, 128 * o.reached) && o.m.klstart == 16 * o.reached && 8 * klstart < 128 * o.reached < kllen))
  }

  lemma {:induction false} MultiConsumes(m: Gcm, inp: Bits, i: nat, n: nat, k: nat, haltAt: Option<nat>, out: Bits)
    requires k <= i <= n && |out| == 128 * i && m.st != INVALID
    ensures var o := MultiFrom(m, inp, i, n, k, haltAt, out);
            o.m.st != INVALID ==>
              |o.out| == 128 * o.reached && i <= o.reached &&
              ((o.reached == n && o.m.klstart == m.klstart) ||
               (HaltsAt(haltAt, 128 * o.reached) && o.m.klstart == 16 * o.reached && k < o.reached < n))
    decreases n - i
  {
    hide GhashMul, NextCtr, Slice, Xor;
    NextOnlyJ0(m);
    if i < n {
      match BlockStep(m, Slice(inp, 128 * i, 128))
      case None =>
      case Some((m1, o)) => MultiConsumes(m1, inp, i + 1, n, k, haltAt, out + o);
    }
  }

  /** A transfer that does not fail takes in exactly its window of the input, from klstart on. */
  lemma WindowConsumed(m: Gcm, form: Form, inp: Bits, kllen: nat, klstart: nat, haltAt: Option<nat>)
    requires m.st == ABSORB || m.st == ENC || m.st == DEC
    ensures var o := DoExec(m, form, inp, Some(kllen), klstart, haltAt);
            o.m.st != INVALID && 8 * klstart < kllen ==>
              WindowTaken(o, kllen, klstart, haltAt) &&
              Flatten(InputBlocks(inp, 8 * klstart / 128, o.reached)) ==
              Slice(inp, 8 * klstart, 128 * o.reached - 8 * klstart)
  {
    hide MultiFrom, Allowed, Slice, InputBlocks, Flatten;
    if 8 * klstart < kllen && kllen % 128 == 0 && 8 * klstart % 128 == 0 {
      var k, n := klstart * 8 / 128, kllen / 128;
      WholeBlocks(kllen);
      WholeBlocks(8 * klstart);
      var m1 := m.(klstart := 0, partial := []);
      MultiConsumes(m1, inp, k, n, k, haltAt, Zeros(128 * k));
      var o := DoExec(m, form, inp, Some(kllen), klstart, haltAt);
      if o.m.st != INVALID {
        InputBlocksAre(inp, k, o.reached);
      }
    }
  }

  lemma {:induction false} VliConsumes(m: Gcm, inp: Bits, ib: nat, kllen: nat, haltAt: Option<nat>)
    requires VliOk(m) && ib <= kllen && m.st == SAV
    ensures var o := VliFrom(m, inp, ib, kllen, haltAt); ib <= o.reached <= kllen && IvTaken(m, o, ib, kllen, haltAt)
    decreases kllen - ib
  {
    hide VliPiece, Finalize, VliFrom;
    if ib == kllen {
      VliEnd(m, inp, ib, kllen, haltAt);
    } else {
      VliUnfold(m, inp, ib, kllen, haltAt);
      var amt := Amount(m, ib, kllen);
      var m1 := VliPiece(m, inp, ib, amt);
      FinalizeFields(m1);
      if m1.cumul != m1.len && !StopsAt(haltAt, ib + amt, kllen) {
        VliConsumes(m1, inp, ib + amt, kllen, haltAt);
      }
    }
  }

  /** The IV is complete with exactly its announced bits, or all of the window is in, or the exec was interrupted. */
  predicate IvTaken(m: Gcm, o: Outcome, ib: nat, kllen: nat, haltAt: Option<nat>) {
    if o.m.st == ABSORB then m.cumul + o.reached == m.len + ib
    else
      o.m.st == SAV && o.m.len == m.len && o.m.cumul + ib == m.cumul + o.reached < m.len + ib &&
      ((o.reached == kllen && o.m.klstart == m.klstart) ||
       (StopsAt(haltAt, o.reached, kllen) && o.m.klstart == o.reached / 8))
  }

  /** Reading an IV takes in its window from klstart on, up to the last announced bit. */
  lemma IvConsumed(m: Gcm, form: Form, inp: Bits, kllen: nat, klstart: nat, haltAt: Option<nat>)
    requires m.st == SAV
    ensures var o := DoExec(m, form, inp, Some(kllen), klstart, haltAt);
            o.m.st != INVALID && 8 * klstart < kllen ==>
              8 * klstart < o.reached <= kllen && IvTaken(m.(klstart := 0), o, 8 * klstart, kllen, haltAt)
  {
    hide VliFrom, Allowed, IvTaken;
    var m1 := m.(klstart := 0);
    if 8 * klstart < kllen && m.cumul < m.len && m.blockBase < 128 {
      VliConsumes(m1, inp, 8 * klstart, kllen, haltAt);
      VliMoves(m1, inp, 8 * klstart, kllen, haltAt);
    }
  }

  lemma VliMoves(m: Gcm, inp: Bits, ib: nat, kllen: nat, haltAt: Option<nat>)
    requires VliOk(m) && ib < kllen && m.st == SAV
    ensures VliFrom(m, inp, ib, kllen, haltAt).reached > ib
  {
    hide VliPiece, Finalize, VliFrom;
    VliUnfold(m, inp, ib, kllen, haltAt);
    var amt := Amount(m, ib, kllen);
    var m1 := VliPiece(m, inp, ib, amt);
    if m1.cumul != m1.len && !StopsAt(haltAt, ib + amt, kllen) {
      VliConsumes(m1, inp, ib + amt, kllen, haltAt);
    }
  }
}
