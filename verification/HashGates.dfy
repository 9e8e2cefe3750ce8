/**
 What no instruction of a hash locker can get around: the rights in MachinePolicy, the final piece that was announced,
 the length of the output, and the end of a message; and how much one read hands out.
 */
module HashGates {
  import opened Wrappers
  import opened Modular
  import opened BitStrings
  import opened HashMachine
  import opened HashReference
  import opened HashCorrect
  import opened HashRuns

  predicate Reading(st: St) {
    st == Output || st == OutBits
  }

  predicate Ended(st: St) {
    st == Success || st == Failure || st == Invalid
  }

  /** The locker holds a key: of HMAC, or of a keyed BLAKE2. */
  predicate Secret(g: Config) {
    g.key.Some? || g.sk.Some?
  }

  lemma ClosedFields(g: Config, m: Hash)
    requires Ok(g, m) && CoreOk(g.f, m.c)
    ensures var r := Closed(g, m);
            r.Some? ==>
              r.value.policy == m.policy && r.value.nn == m.nn && r.value.kk == m.kk && r.value.lbl == 0 &&
              r.value.st == m.st
  {
    hide HmacOuter, Finalized;
  }

  /** The bits of a digest of n output bits asked for; none for an XOF, or as many as asked for. */
  function OutputLength(g: Config, nn: nat, xs: nat): nat {
    if xs != 0 then xs
    else
      match g.f
      case Md(_, _, _, t) => t
      case Blake(_, _, _) => 8 * nn
      case Sponge(_, _, _, t, xof) => if xof then 0 else t
  }

  /**
   The digest as it is announced: whole bytes, of an unbounded output below 2^32 bits, else no more than there are.
   */
  predicate LengthAdmitted(g: Config, nn: nat, xs: nat) {
    xs != 0 ==>
      xs % 8 == 0 && (g.key.Some? ==> xs >= 64) &&
      if g.f.Sponge? && g.f.xof then xs < 0x1_0000_0000 else xs <= OutputLength(g, nn, 0)
  }

  /** Entering Hash_Output: the message is complete, the key may be used, and the length of the output is fixed. */
  lemma OutputEntered(g: Config, m: Hash, form: Form, xs: nat)
    requires Ok(g, m)
    ensures var r := SetOutput(g, m, form, xs);
            r.policy == m.policy && r.nn == m.nn && r.kk == m.kk &&
            (r.st == Invalid ||
             (r.st == Output && (m.st == Absorb || (m.st == Last && m.lbl == 0)) && (Secret(g) ==> m.policy % 2 == 1) &&
              LengthAdmitted(g, m.nn, xs) && r.outl == OutputLength(g, m.nn, xs)))
  {
    hide Closed;
    if OutputAdmitted(g, m, form, xs) {
      ClosedFields(g, m);
    }
  }

  lemma VerifyEntered(g: Config, m: Hash, form: Form, xs: nat)
    requires Ok(g, m)
    ensures var r := SetVerify(g, m, form, xs);
            r.policy == m.policy && r.nn == m.nn && r.kk == m.kk &&
            (r.st == Invalid ||
             (r.st == Verify && (m.st == Absorb || (m.st == Last && m.lbl == 0)) && g.key.Some? &&
              m.policy / 2 % 2 == 1 && xs >= 64 && r.tagLen == g.tagLenP))
  {
    hide Closed, T;
    if m.st == Absorb || m.st == Last {
      ClosedFields(g, m);
    }
  }

  /** Where kl.setst can lead. */
  predicate SetStFollows(g: Config, m: Hash, r: Hash) {
    r.policy == m.policy && r.nn == m.nn && r.kk == m.kk &&
    match r.st
    case Invalid => true
    case Ready => true
    case Absorb => m.st == Ready
    case Last => m.st == Absorb && r.lbl <= (if g.f.Sponge? then g.f.rate else 16 * g.f.w)
    case Output => (m.st == Absorb || (m.st == Last && m.lbl == 0)) && (Secret(g) ==> m.policy % 2 == 1)
    case OutBits =>
      (Reading(m.st) && r.outl == m.outl) ||
      ((m.st == Absorb || (m.st == Last && m.lbl == 0)) && (Secret(g) ==> m.policy % 2 == 1) &&
       r.outl == OutputLength(g, m.nn, 0))
    case Verify => (m.st == Absorb || (m.st == Last && m.lbl == 0)) && g.key.Some? && m.policy / 2 % 2 == 1
    case _ => false
  }

  lemma SetStLeads(g: Config, m: Hash, target: St, form: Form, xs: nat)
    requires Ok(g, m)
    ensures SetStFollows(g, m, DoSetSt(g, m, target, form, xs))
    ensures m.st == Invalid ==> DoSetSt(g, m, target, form, xs).st == Invalid
    ensures Ended(m.st) ==> DoSetSt(g, m, target, form, xs).st in {Invalid, Ready}
  {
    hide SetOutput, SetVerify, PutAll, T;
    OutputEntered(g, m, form, xs);
    OutputEntered(g, m, FormA, 0);
    VerifyEntered(g, m, form, xs);
  }

  // ---------------------------------------------------------------- kl.exec

  lemma {:induction false} OutLeads(g: Config, m: Hash, ob: nat, kl: nat, halt: bool, out: Bits)
    requires Emits(g, m) && ob < kl
    ensures var o := OutFrom(g, m, ob, kl, halt, out); o.m.policy == m.policy && (o.m.st == m.st || o.m.st == Success)
    decreases kl - ob
  {
    hide Emits, OutFrom, Moved, Ok, T, FnOk, CoreOk, ConfigOk, Amount;
    EmitsState(g, m);
    var a := OutTurn(g, m, ob, kl, halt, out);
    var piece, m2, e := m.c.S[m.c.bb..m.c.bb + a], Moved(g, m, a), ob + a;
    if m.outl != a && !StopsHere(m2, m.c.bb + a == T(g.f), e, kl, halt) && e < kl && !(m.st == OutBits && m2.lbl == 0) {
      OutLeads(g, m2, e, kl, halt, out + piece);
    }
  }

  /** Where kl.exec can lead. */
  predicate ExecFollows(g: Config, m: Hash, o: Outcome) {
    o.m.policy == m.policy &&
    (o.m.st == m.st || o.m.st == Invalid || (Reading(m.st) && o.m.st == Success) ||
     (m.st == Verify && (o.m.st == Success || o.m.st == Failure))) &&
    (Ended(m.st) ==> o.m.st == Invalid) &&
    (g.key.Some? && Reading(m.st) && m.policy % 2 == 0 ==> o.m.st == Invalid && o.out == []) &&
    (g.key.Some? && m.st == Verify && m.policy / 2 % 2 == 0 ==> o.m.st == Invalid) &&
    (!Reading(m.st) ==> o.out == [])
  }

  lemma ExecLeads(g: Config, m: Hash, form: Form, data: Bits, kllen: nat, klstart: nat, halt: bool)
    requires Readable(g, m) && |data| % 8 == 0
    ensures ExecFollows(g, m, DoExec(g, m, form, data, kllen, klstart, halt))
  {
    hide OutFrom, PutAll, Vli, Keyed, T;
    if Reading(m.st) && (m.st == OutBits ==> m.lbl > 0) && 8 * klstart < kllen {
      OutLeads(g, m, 8 * klstart, kllen, halt, []);
    }
  }

  // ---------------------------------------------------------------- rights

  /**
   What one instruction keeps: no right is gained; without the right to read, a locker with a key is not brought to an
   output State, and an HMAC hands out nothing in one; without the right to verify nothing is compared; a message that
   has ended is left for Ready only, and Invalid is never left.
   */
  predicate Guarded(g: Config, m: Hash, i: Instr, o: Outcome) {
    (o.m.policy % 2 == 1 ==> m.policy % 2 == 1) && (o.m.policy / 2 % 2 == 1 ==> m.policy / 2 % 2 == 1) &&
    (Secret(g) && m.policy % 2 == 0 ==>
       (Reading(o.m.st) ==> Reading(m.st)) &&
       (i.Exec? && (g.key.Some? || !Reading(m.st)) ==> o.out == [] && !(Reading(o.m.st) && Reading(m.st)))) &&
    (m.policy / 2 % 2 == 0 ==>
       (o.m.st == Verify ==> m.st == Verify) && (g.key.Some? && i.Exec? && m.st == Verify ==> o.m.st == Invalid)) &&
    (Ended(m.st) ==>
       o.m.st == Invalid ||
       (m.st != Invalid && ((o.m.st == m.st && i.Restrict?) || (o.m.st == Ready && i.SetSt?))))
  }

  lemma StepGuarded(g: Config, m: Hash, i: Instr)
    requires Readable(g, m) && (i.Exec? ==> |i.data| % 8 == 0)
    ensures Guarded(g, m, i, Step(g, m, i))
  {
    hide DoSetSt, DoExec, T;
    match i
    case SetSt(target, form, xs) => SetStLeads(g, m, target, form, xs);
    case SetAux(form, xs) =>
    case Exec(form, data, kllen, klstart, halt) => ExecLeads(g, m, form, data, kllen, klstart, halt);
    case Restrict(_) =>
  }

  /** Over a whole run a right that is missing at the start is never gained, nor is a State reached that needs it. */
  lemma {:induction false} RightsOverRuns(g: Config, m: Hash, h: History, instrs: seq<Instr>)
    requires Ok(g, m) && Inv(g, m, h) && WholeData(instrs)
    ensures var m' := After(g, m, h, instrs).0;
            (Secret(g) && m.policy % 2 == 0 && !Reading(m.st) ==> m'.policy % 2 == 0 && !Reading(m'.st)) &&
            (m.policy / 2 % 2 == 0 && m.st != Verify ==> m'.policy / 2 % 2 == 0 && m'.st != Verify)
    decreases |instrs|
  {
    hide Step, Reading, HistoryStep, Inv, Ok, Readable;
    if instrs != [] {
      var i := instrs[0];
      StepKeepsInv(g, m, h, i);
      StepGuarded(g, m, i);
      RightsOverRuns(g, Step(g, m, i).m, HistoryStep(g, m, h, i), instrs[1..]);
    }
  }

  // ---------------------------------------------------------------- what cannot be skipped

  /** A final piece that was announced is absorbed, or the message is given up. */
  lemma FinalPieceNotSkipped(g: Config, m: Hash, i: Instr)
    requires Readable(g, m) && (i.Exec? ==> |i.data| % 8 == 0) && m.st == Last && m.lbl != 0
    ensures var m' := Step(g, m, i).m; m'.st == Last || m'.st == Ready || m'.st == Invalid
  {
    hide DoSetSt, DoExec, T;
    match i
    case SetSt(target, form, xs) => SetStLeads(g, m, target, form, xs);
    case SetAux(form, xs) =>
    case Exec(form, data, kllen, klstart, halt) => ExecLeads(g, m, form, data, kllen, klstart, halt);
    case Restrict(_) =>
  }

  /** The digest and key lengths of BLAKE2 are in their ranges. */
  predicate LengthsOk(g: Config, m: Hash) {
    g.f.Blake? ==> 1 <= m.nn <= g.f.w && m.kk <= g.f.w
  }

  lemma StepKeepsLengths(g: Config, m: Hash, i: Instr)
    requires Readable(g, m) && (i.Exec? ==> |i.data| % 8 == 0) && LengthsOk(g, m)
    ensures LengthsOk(g, Step(g, m, i).m)
  {
    hide DoSetSt, DoExec, T;
    match i
    case SetSt(target, form, xs) => SetStLeads(g, m, target, form, xs);
    case SetAux(form, xs) =>
    case Exec(form, data, kllen, klstart, halt) => ExecKeepsLengths(g, m, form, data, kllen, klstart, halt);
    case Restrict(_) =>
  }

  lemma ExecKeepsLengths(g: Config, m: Hash, form: Form, data: Bits, kllen: nat, klstart: nat, halt: bool)
    requires Readable(g, m) && |data| % 8 == 0
    ensures var r := DoExec(g, m, form, data, kllen, klstart, halt).m; r.nn == m.nn && r.kk == m.kk
  {
    hide OutFrom, PutAll, Vli, Keyed, T;
  }

  lemma {:induction false} LengthsOverRuns(g: Config, m: Hash, h: History, instrs: seq<Instr>)
    requires Ok(g, m) && Inv(g, m, h) && WholeData(instrs) && LengthsOk(g, m)
    ensures LengthsOk(g, After(g, m, h, instrs).0)
    decreases |instrs|
  {
    hide Step, HistoryStep, Inv, Ok, Readable, LengthsOk;
    if instrs != [] {
      StepKeepsInv(g, m, h, instrs[0]);
      StepKeepsLengths(g, m, instrs[0]);
      LengthsOverRuns(g, Step(g, m, instrs[0]).m, HistoryStep(g, m, h, instrs[0]), instrs[1..]);
    }
  }

  lemma CreatedLengths(g: Config, policy: nat)
    requires ConfigOk(g)
    ensures LengthsOk(g, Create(g, policy))
  {
  }

  /** Over every run of a provisioned locker. */
  lemma LengthsHold(g: Config, policy: nat, instrs: seq<Instr>)
    requires ConfigOk(g) && WholeData(instrs)
    ensures LengthsOk(g, AfterRun(g, policy, instrs).0)
  {
    hide LengthsOk, Inv, After;
    CreatedLengths(g, policy);
    CreateInv(g, policy);
    LengthsOverRuns(g, Create(g, policy), HashRuns.NOTHING, instrs);
  }

  // ---------------------------------------------------------------- how much is moved

  /** The bits that one read hands out: to the end of its window, of the output, or of what was asked for. */
  function ReadLength(m: Hash, room: nat): nat {
    var a := if m.outl != 0 then Min(room, m.outl) else room;
    if m.st == OutBits then Min(a, m.lbl) else a
  }

  lemma {:induction false} ReadsAll(g: Config, m: Hash, ob: nat, kl: nat, out: Bits)
    requires Emits(g, m) && ob < kl
    ensures |OutFrom(g, m, ob, kl, false, out).out| == |out| + ReadLength(m, kl - ob)
    decreases kl - ob
  {
    hide Emits, OutFrom, Moved, Ok, T, FnOk, CoreOk, ConfigOk, Amount;
    EmitsState(g, m);
    var a := OutTurn(g, m, ob, kl, false, out);
    var piece, m2, e := m.c.S[m.c.bb..m.c.bb + a], Moved(g, m, a), ob + a;
    if m.outl != a && e < kl && !(m.st == OutBits && m2.lbl == 0) {
      ReadsAll(g, m2, e, kl, out + piece);
    }
  }

  /** An admitted read that is not halted hands out all of its bits. */
  lemma ReadIsComplete(g: Config, m: Hash, kl: nat, klstart: nat)
    requires Readable(g, m) && Reading(m.st)
    ensures var o := DoExec(g, m, FormC, [], kl, klstart, false);
            o.m.st != Invalid && 8 * klstart < kl ==> o.moved == |o.out| == ReadLength(m, kl - 8 * klstart)
  {
    hide OutFrom, T;
    if (m.st == OutBits ==> m.lbl > 0) && 8 * klstart < kl {
      ReadsAll(g, m, 8 * klstart, kl, []);
      OutMoves(g, m, 8 * klstart, kl, false);
    }
  }

  lemma {:induction false} VliReaches(f: Fn, c: Core, X: Bits, ib: nat, kl: nat, count: bool, halt: bool)
    requires CoreOk(f, c) && ib <= kl
    ensures var e := Vli(f, c, X, ib, kl, count, halt).1;
            e <= kl && (ib < kl ==> ib < e) && (!halt ==> e == kl)
    decreases kl - ib
  {
    hide Put, Released, CoreOk, Slice;
    if ib < kl {
      RoomLeft(f, c);
      var c1 := Released(f, c);
      var a := Min(kl - ib, B(f) - c1.bb);
      if !(halt && ib + a < kl) {
        VliReaches(f, Put(f, c1, Slice(X, ib, a), count), X, ib + a, kl, count, halt);
      }
    }
  }

  lemma RoomLeft(f: Fn, c: Core)
    requires CoreOk(f, c)
    ensures FnOk(f) && Released(f, c).bb < B(f)
  {
  }

  /** An admitted transfer in Absorb takes in all of its window, or up to where it was interrupted. */
  lemma AbsorbIsComplete(g: Config, m: Hash, data: Bits, klstart: nat, halt: bool)
    requires Readable(g, m) && m.st == Absorb && |data| % 8 == 0
    ensures var o := DoExec(g, m, FormB, data, |data|, klstart, halt);
            o.m.st != Invalid && 8 * klstart < |data| ==>
              (o.halted.None? ==> 8 * klstart + o.moved == |data|) &&
              (o.halted.Some? ==>
                 halt && 0 < o.moved && 8 * klstart + o.moved < |data| && o.halted.value == (8 * klstart + o.moved) / 8)
  {
    hide Vli, Keyed, T;
    if 8 * klstart < |data| {
      VliReaches(g.f, Keyed(g.f, g.sk, m.c), data, 8 * klstart, |data|, true, halt);
    }
  }
}
