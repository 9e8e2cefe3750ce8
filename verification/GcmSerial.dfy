/**
 Export and import of a GCM or GCM_IV locker: the Serialized Content, the round trip, and when the imported locker
 behaves as the original under every later run.
 */
module GcmSerial {
  import opened Wrappers
  import opened Modular
  import opened BitStrings
  import opened BitFields
  import opened Gf128
  import opened AeadBase
  import opened GcmMachine
  import opened GcmReference
  import opened GcmCorrect
  import opened GcmRuns

  /** The cipher for each key. */
  type Family = Bits -> Cipher

  // ---------------------------------------------------------------- Serialized Content

  /** In Set_Aux_Value the place of J0 holds the progress of the IV. */
  function CounterField(m: Gcm): Block {
    if m.st == SAV then FromNat(m.len, 16) + Zeros(16) + FromNat(m.blockBase, 16) + FromNat(m.cumul, 48) + Zeros(32)
    else m.J0
  }

  function Parts(m: Gcm, key: Bits): seq<Bits> {
    [key, CounterField(m), m.tag, FromNat(m.startCtr, 32), FromNat(m.lbl, 16), FromNat(m.tagLen, 16)]
  }

  function Export(m: Gcm, key: Bits): Bits {
    Fields(Parts(m, key))
  }

  /** The locker made from Serialized Content, a State and the metadata. */
  function Import(F: Family, iv: bool, keyLen: nat, policy: nat, tagLenP: nat, st: int, sc: Bits): Gcm {
    var f := Cut(sc, [keyLen, 128, 128, 32, 16, 16]);
    var E, j, sav := F(f[0]), f[1], st == SAV;
    var m := Gcm(E, iv, st, policy, 0, [], tagLenP, E(Zeros(128)), f[2], ToNat(f[5]), ToNat(f[4]),
                 if sav then Zeros(128) else j, ToNat(f[3]), if sav then ToNat(Slice(j, 0, 16)) else 0,
                 if sav then ToNat(Slice(j, 32, 16)) else 0, if sav then ToNat(Slice(j, 48, 48)) else 0);
    if (iv && m.startCtr != 1) || !AdmitsTagLen(tagLenP) then Fail(m) else m
  }

  /** Every field fits its place in the Serialized Content, and the fields of the IV are used only while it is read. */
  ghost predicate Fits(m: Gcm) {
    m.st != INVALID ==>
      && m.startCtr < Pow2(32) && m.tagLen <= 128 && (m.iv ==> m.st != SAV && m.startCtr == 1)
      && (if m.st == SAV then m.len <= 8192 && VliOk(m) && m.cumul <= 8192
          else m.len == 0 && m.blockBase == 0 && m.cumul == 0)
  }

  /** What survives: not the halt position and the pending output, nor J0 while an IV is read. */
  function Imported(m: Gcm): Gcm {
    m.(klstart := 0, partial := [], J0 := if m.st == SAV then Zeros(128) else m.J0)
  }

  lemma Widths16()
    ensures Pow2(16) == 65536 && Pow2(48) > 8192 && Pow2(32) > 2
  {
    assert Pow2(8) == 256;
    assert Pow2(12) == 4096;
    PowersGrow(16, 48);
    PowersGrow(16, 32);
  }

  /** Importing what was exported restores the locker. */
  lemma ImportExport(F: Family, m: Gcm, h: History, key: Bits)
    requires Inv(m, h) && Fits(m) && m.st != INVALID && m.E == F(key)
    ensures Import(F, m.iv, |key|, m.policy, m.tagLenP, m.st, Export(m, key)) == Imported(m)
  {
    hide Pow2, FromNat, ToNat, Slice, MessageInv, SavInv;
    Widths16();
    CutFields(Parts(m, key), [|key|, 128, 128, 32, 16, 16]);
    Number(m.startCtr, 32);
    Number(m.lbl, 16);
    Number(m.tagLen, 16);
    if m.st == SAV {
      Number(m.len, 16);
      Number(m.blockBase, 16);
      Number(m.cumul, 48);
      IvFields(m);
    }
  }

  lemma IvFields(m: Gcm)
    requires m.st == SAV
    ensures var j := CounterField(m);
            Slice(j, 0, 16) == FromNat(m.len, 16) && Slice(j, 32, 16) == FromNat(m.blockBase, 16) &&
            Slice(j, 48, 48) == FromNat(m.cumul, 48)
  {
    hide FromNat;
  }

  // ---------------------------------------------------------------- every reachable locker fits

  lemma {:induction false} VliKeepsFits(m: Gcm, inp: Bits, ib: nat, kllen: nat, haltAt: Option<nat>)
    requires m.st == SAV && Fits(m)
    ensures var m' := VliFrom(m, inp, ib, kllen, haltAt).m; Fits(m')
    decreases kllen - ib
  {
    hide VliPiece, Finalize, VliFrom, Amount, StopsAt, Ctr32, Pow2;
    if ib >= kllen {
      VliEnd(m, inp, ib, kllen, haltAt);
    } else {
      var amt := Amount(m, ib, kllen);
      var m1 := VliPiece(m, inp, ib, amt);
      VliUnfold(m, inp, ib, kllen, haltAt);
      PieceFields(m, inp, ib, amt);
      FinalizeFields(m1);
      if m1.cumul != m1.len && !StopsAt(haltAt, ib + amt, kllen) {
        VliKeepsFits(m1, inp, ib + amt, kllen, haltAt);
      }
    }
  }

  lemma WorkKeepsFits(m: Gcm, inp: Bits, kllen: Option<nat>, klstart: nat, haltAt: Option<nat>)
    requires Fits(m) && m.st != INVALID
    ensures Fits(Work(m, inp, kllen, klstart, haltAt).m)
  {
    hide GhashMul, NextCtr, MultiFrom, VliFrom, Xor, Pow2;
    NextOnlyJ0(m);
    if kllen.Some? {
      var k, n := klstart * 8 / 128, kllen.value / 128;
      if k < n {
        MultiFields(m.(partial := []), inp, k, n, k, haltAt, Zeros(128 * k));
      }
      if m.st == SAV {
        VliKeepsFits(m, inp, 8 * klstart, kllen.value, haltAt);
      }
    }
  }

  lemma EnterKeepsFits(m: Gcm, st: int, xs: nat, inp: Bits)
    requires Fits(m) && m.st != INVALID && st != INVALID && m.st != SAV && (m.iv ==>
             st != SAV) && AdmitsTagLen(m.tagLenP)
    ensures Enter(m.(st := st), st, xs, inp).Some? ==> Fits(Enter(m.(st := st), st, xs, inp).value)
  {
    hide GhashMul, WithCtr, Xor, Pow2, Slice;
  }

  lemma SetStKeepsFits(m: Gcm, h: History, st: int, form: Form, xs: nat, inp: Bits)
    requires Inv(m, h) && Fits(m)
    ensures Fits(DoSetSt(m, st, form, xs, inp))
  {
    hide GhashMul, WithCtr, Xor, Ctr32, MessageInv, SavInv, Pow2;
    Widths16();
    if st != READY && m.st != INVALID && st != INVALID && (m.iv ==> st != SAV) {
      if m.st != SAV {
        EnterKeepsFits(m, st, xs, if form == FormA then [] else inp);
      }
    }
  }

  lemma StepKeepsFits(m: Gcm, h: History, i: Instr)
    requires Inv(m, h) && Fits(m)
    ensures Fits(Step(m, i).m)
  {
    hide Work, Inv, DoSetSt, Pow2;
    if i.SetSt? {
      SetStKeepsFits(m, h, i.target, i.form, i.xs, i.inp);
    } else if i.Exec? && m.st != INVALID {
      WorkKeepsFits(m.(klstart := 0), i.inp, i.kllen, i.klstart, i.haltAt);
    }
  }

  lemma {:induction false} RunKeepsFits(m: Gcm, h: History, instrs: seq<Instr>)
    requires Inv(m, h) && Fits(m)
    ensures Fits(After(m, instrs))
    decreases instrs
  {
    hide Inv, Fits, Step, HistoryStep;
    if instrs != [] {
      StepKeepsInv(m, h, instrs[0]);
      StepKeepsFits(m, h, instrs[0]);
      RunKeepsFits(Step(m, instrs[0]).m, HistoryStep(m, h, instrs[0]), instrs[1..]);
    }
  }

  // ---------------------------------------------------------------- equal behaviour

  /** Lockers that may differ where the difference is never seen: J0 is set when the IV is complete. */
  ghost predicate Alike(a: Gcm, b: Gcm) {
    && a.st == b.st
    && (a.st != INVALID ==>
          b == a.(klstart := b.klstart, partial := b.partial, J0 := b.J0) &&
          (a.iv || (a.st != READY && a.st != SAV) ==> b.J0 == a.J0))
  }

  /** Outcomes of two alike lockers, whose pending outputs are left as they were. */
  ghost predicate AlikeOutcomes(oa: Outcome, ob: Outcome, a: Gcm, b: Gcm) {
    Alike(oa.m, ob.m) && oa.out == ob.out && oa.m.partial == a.partial && ob.m.partial == b.partial
  }

  lemma {:induction false} VliAlike(a: Gcm, b: Gcm, inp: Bits, ib: nat, kllen: nat, haltAt: Option<nat>)
    requires a.st == SAV && !a.iv && VliOk(a) && Alike(a, b)
    ensures VliOk(b)
    ensures AlikeOutcomes(VliFrom(a, inp, ib, kllen, haltAt), VliFrom(b, inp, ib, kllen, haltAt), a, b)
    decreases kllen - ib
  {
    hide VliPiece, Finalize, VliFrom, Amount, StopsAt, Alike, AlikeOutcomes;
    AlikePieces(a, b);
    if ib >= kllen {
      VliEnd(a, inp, ib, kllen, haltAt);
      VliEnd(b, inp, ib, kllen, haltAt);
      OutcomesAlike(a, b, a, b, ib);
    } else {
      PieceAlike(a, b, inp, ib, kllen);
      var amt := Amount(a, ib, kllen);
      var a1, b1 := VliPiece(a, inp, ib, amt), VliPiece(b, inp, ib, amt);
      VliUnfold(a, inp, ib, kllen, haltAt);
      VliUnfold(b, inp, ib, kllen, haltAt);
      if a1.cumul == a1.len {
        FinalizeAlike(a1, b1);
        OutcomesAlike(Finalize(a1), Finalize(b1), a, b, ib + amt);
      } else if StopsAt(haltAt, ib + amt, kllen) {
        var p := (ib + amt) / 8;
        AlikeHalted(a1, b1, p);
        OutcomesAlike(a1.(klstart := p), b1.(klstart := p), a, b, ib + amt);
      } else {
        VliAlike(a1, b1, inp, ib + amt, kllen, haltAt);
        OutcomesFrom(VliFrom(a, inp, ib, kllen, haltAt), VliFrom(b, inp, ib, kllen, haltAt), a1, b1, a, b);
      }
    }
  }

  lemma OutcomesAlike(a': Gcm, b': Gcm, a: Gcm, b: Gcm, reached: nat)
    requires Alike(a', b') && a'.partial == a.partial && b'.partial == b.partial
    ensures AlikeOutcomes(Outcome(a', [], reached), Outcome(b', [], reached), a, b)
  {
  }

  lemma OutcomesFrom(oa: Outcome, ob: Outcome, a1: Gcm, b1: Gcm, a: Gcm, b: Gcm)
    requires AlikeOutcomes(oa, ob, a1, b1) && a1.partial == a.partial && b1.partial == b.partial
    ensures AlikeOutcomes(oa, ob, a, b)
  {
  }

  lemma AlikePieces(a: Gcm, b: Gcm)
    requires Alike(a, b) && a.st == SAV && VliOk(a)
    ensures VliOk(b) && b.st == SAV
  {
  }

  lemma AlikeHalted(a: Gcm, b: Gcm, p: nat)
    requires Alike(a, b)
    ensures Alike(a.(klstart := p), b.(klstart := p))
  {
  }

  lemma PieceAlike(a: Gcm, b: Gcm, inp: Bits, ib: nat, kllen: nat)
    requires a.st == SAV && VliOk(a) && Alike(a, b) && ib < kllen
    ensures VliOk(b) && Amount(b, ib, kllen) == Amount(a, ib, kllen)
    ensures var amt := Amount(a, ib, kllen);
            var a1, b1 := VliPiece(a, inp, ib, amt), VliPiece(b, inp, ib, amt);
            Alike(a1, b1) && a1.st == SAV && a1.iv == a.iv && a1.partial == a.partial && b1.partial == b.partial &&
            b1.cumul == a1.cumul && b1.len == a1.len
  {
    hide GhashMul, Slice, Xor, Placed;
    PieceFields(a, inp, ib, Amount(a, ib, kllen));
  }

  lemma FinalizeAlike(a: Gcm, b: Gcm)
    requires a.st == SAV && Alike(a, b)
    ensures Alike(Finalize(a), Finalize(b)) && Finalize(a).partial == a.partial && Finalize(b).partial == b.partial
  {
    hide GhashMul, Xor, WithCtr, Ctr32, ByteSwap, FromNat;
  }

  lemma WorkAlike(a: Gcm, b: Gcm, inp: Bits, kllen: Option<nat>, klstart: nat, haltAt: Option<nat>)
    requires Fits(a) && a.st != INVALID && Alike(a, b) && a.klstart == b.klstart && SameValue(a.partial, b.partial)
    requires a.st != READY && a.st != SUCCESS && a.st != FAILURE
    ensures var oa, ob := Work(a, inp, kllen, klstart, haltAt), Work(b, inp, kllen, klstart, haltAt);
            Alike(oa.m, ob.m) && SameValue(oa.out, ob.out) && SameValue(oa.m.partial, ob.m.partial)
  {
    hide GhashMul, NextCtr, MultiFrom, VliFrom, Xor, Pow2, Slice, Placed;
    if a.st == SAV {
      if kllen.Some? {
        VliAlike(a, b, inp, 8 * klstart, kllen.value, haltAt);
      }
    } else if a.st == ELB || a.st == DLB {
      NextOnlyJ0(a);
      NextOnlyJ0(b);
      NextAlike(a, b);
    }
  }

  lemma NextAlike(a: Gcm, b: Gcm)
    requires a.J0 == b.J0 && a.startCtr == b.startCtr
    ensures NextCtr(a).Some? == NextCtr(b).Some? && (NextCtr(a).Some? ==> NextCtr(a).value.J0 == NextCtr(b).value.J0)
  {
    hide Ctr32, WithCtr;
  }

  lemma EnterAlike(a: Gcm, b: Gcm, st: int, xs: nat, inp: Bits)
    requires Alike(a, b) && a.st != INVALID && a.st != SAV && st != READY && (a.iv || a.st != READY || st == SAV)
    ensures var ra, rb := Enter(a.(st := st), st, xs, inp), Enter(b.(st := st), st, xs, inp);
            ra.Some? == rb.Some? &&
            (ra.Some? ==> Alike(ra.value, rb.value) && ra.value.partial == a.partial && rb.value.partial == b.partial)
  {
    hide GhashMul, WithCtr, Xor, Slice;
  }

  lemma ReadyAlike(a: Gcm, b: Gcm)
    requires Alike(a, b) && a.st != INVALID
    ensures var ra, rb := Ready(a.(st := READY)), Ready(b.(st := READY));
            Alike(ra, rb) && ra.partial == a.partial && rb.partial == b.partial
  {
    hide WithCtr, Zeros;
  }

  lemma SetStAlike(a: Gcm, b: Gcm, st: int, form: Form, xs: nat, inp: Bits)
    requires Fits(a) && Alike(a, b)
    ensures var a', b' := DoSetSt(a, st, form, xs, inp), DoSetSt(b, st, form, xs, inp);
            Alike(a', b') && (a'.st != INVALID ==> a'.partial == a.partial && b'.partial == b.partial)
  {
    hide Enter, Ready, Pow2, FormOk, SetForm, Allowed;
    if a.st != INVALID {
      if st == READY {
        ReadyAlike(a, b);
      } else if a.st == SAV && st == SAV {
        SavAgain(a, b, xs, if form == FormA then [] else inp);
      } else if a.st != SAV && Admits(a.iv, a.st, st) {
        EnterAlike(a, b, st, xs, if form == FormA then [] else inp);
      }
    }
  }

  lemma SavAgain(a: Gcm, b: Gcm, xs: nat, inp: Bits)
    requires Alike(a, b) && a.st == SAV
    ensures var ra, rb := Enter(a.(st := SAV), SAV, xs, inp), Enter(b.(st := SAV), SAV, xs, inp);
            ra.Some? == rb.Some? &&
            (ra.Some? ==> Alike(ra.value, rb.value) && ra.value.partial == a.partial && rb.value.partial == b.partial)
  {
  }

  lemma ExecAlike(a: Gcm, b: Gcm, form: Form, inp: Bits, kllen: Option<nat>, klstart: nat, haltAt: Option<nat>)
    requires Fits(a) && a.st != INVALID && Alike(a, b) && SameValue(a.partial, b.partial)
    ensures var oa, ob := DoExec(a, form, inp, kllen, klstart, haltAt), DoExec(b, form, inp, kllen, klstart, haltAt);
            Alike(oa.m, ob.m) && SameValue(oa.out, ob.out) && (oa.m.st != INVALID ==>
                SameValue(oa.m.partial, ob.m.partial))
  {
    hide Work, Fits, SameValue, Allowed;
    SameSelf([]);
    if ExecForm(a.st).Some? {
      FitsAnywhere(a);
      WorkAlike(a.(klstart := 0), b.(klstart := 0), inp, kllen, klstart, haltAt);
    }
  }

  lemma RestrictAlike(a: Gcm, b: Gcm, mask: nat)
    requires Alike(a, b)
    ensures var a', b' := DoRestrict(a, mask), DoRestrict(b, mask);
            Alike(a', b') && (a'.st != INVALID ==> a'.partial == a.partial && b'.partial == b.partial)
  {
  }

  /** Alike lockers whose pending outputs are equal stay so, and hand out the same. */
  lemma StepAlike(a: Gcm, b: Gcm, i: Instr)
    requires Fits(a) && a.st != INVALID && Alike(a, b) && SameValue(a.partial, b.partial)
    ensures var oa, ob := Step(a, i), Step(b, i);
            Alike(oa.m, ob.m) && SameValue(oa.out, ob.out) && (oa.m.st != INVALID ==>
                SameValue(oa.m.partial, ob.m.partial))
  {
    hide DoExec, DoSetSt, DoRestrict, Fits, SameValue, Alike;
    SameSelf([]);
    match i
    case SetSt(st, form, xs, inp) => SetStAlike(a, b, st, form, xs, inp);
    case Exec(form, inp, kllen, klstart, haltAt) => ExecAlike(a, b, form, inp, kllen, klstart, haltAt);
    case Restrict(mask) => RestrictAlike(a, b, mask);
  }

  lemma FitsAnywhere(m: Gcm)
    requires Fits(m)
    ensures Fits(m.(klstart := 0))
  {
    hide Pow2;
  }

  /** The two lockers hand out the same values and are in the same States, instruction by instruction. */
  ghost predicate Agree(a: Gcm, b: Gcm, instrs: seq<Instr>)
    decreases instrs
  {
    a.st == b.st &&
    (instrs != [] ==>
      SameValue(Step(a, instrs[0]).out, Step(b, instrs[0]).out) &&
          Agree(Step(a, instrs[0]).m, Step(b, instrs[0]).m, instrs[1..]))
  }

  lemma {:induction false} RunsAgree(a: Gcm, b: Gcm, h: History, instrs: seq<Instr>)
    requires Inv(a, h) && Fits(a) && Alike(a, b) && (a.st != INVALID ==> SameValue(a.partial, b.partial))
    ensures Agree(a, b, instrs)
    decreases instrs
  {
    hide Inv, Fits, Step, HistoryStep, SameValue, Alike;
    AlikeStates(a, b);
    if instrs != [] {
      var i := instrs[0];
      if a.st == INVALID {
        InvalidStep(a, i);
        InvalidStep(b, i);
        SameSelf([]);
      } else {
        StepAlike(a, b, i);
      }
      StepKeepsInv(a, h, i);
      StepKeepsFits(a, h, i);
      RunsAgree(Step(a, i).m, Step(b, i).m, HistoryStep(a, h, i), instrs[1..]);
    }
  }

  lemma AlikeStates(a: Gcm, b: Gcm)
    ensures Alike(a, b) ==> a.st == b.st
    ensures a.st == INVALID && b.st == INVALID ==> Alike(a, b)
  {
  }

  lemma InvalidStep(m: Gcm, i: Instr)
    requires m.st == INVALID
    ensures Step(m, i).out == [] && Step(m, i).m == m
  {
  }

  /** The locker imported from the export of m, with the same key length, policy and tag length. */
  function Copy(F: Family, m: Gcm, key: Bits): Gcm {
    Import(F, m.iv, |key|, m.policy, m.tagLenP, m.st, Export(m, key))
  }

  /**
   After any run that leaves the locker valid, the imported locker gives the same outputs and States as the original
   under every later run exactly when the original has no output pending: an interrupted Encrypt or Decrypt keeps its
   partial output, and the next instruction that fails before a transfer starts hands it out again.
   */
  lemma ImportBehavesIff(F: Family, key: Bits, preset: Option<Bits>, policy: nat, tagLenP: nat, instrs: seq<Instr>)
    requires 0 < policy < 4 && (preset.Some? ==> policy == 2)
    requires AfterRun(F(key), preset, policy, tagLenP, instrs).0.st != INVALID
    ensures var m := AfterRun(F(key), preset, policy, tagLenP, instrs).0;
            (forall later :: Agree(m, Copy(F, m, key), later)) <==> SameValue(m.partial, [])
  {
    hide Inv, Fits, Create, HistoryAfter, After, Agree, SameValue, Import, Export;
    RunFacts(F(key), preset, policy, tagLenP, instrs);
    RunFits(F(key), preset, policy, tagLenP, instrs);
    var (m, h) := AfterRun(F(key), preset, policy, tagLenP, instrs);
    ImportExport(F, m, h, key);
    ImportedAlike(m);
    if SameValue(m.partial, []) {
      forall later
        ensures Agree(m, Copy(F, m, key), later)
      {
        RunsAgree(m, Copy(F, m, key), h, later);
      }
    } else {
      PendingShows(m, Copy(F, m, key));
    }
  }

  lemma ImportedAlike(m: Gcm)
    requires Fits(m)
    ensures Alike(m, Imported(m))
  {
    hide Pow2;
  }

  lemma PendingShows(m: Gcm, c: Gcm)
    requires m.st != INVALID && c.partial == [] && c.st == m.st && !SameValue(m.partial, [])
    ensures exists later :: !Agree(m, c, later)
  {
    hide SameValue, Work;
    var i := Exec(FormD, [], None, 0, None);
    assert Step(m, i).out == m.partial && Step(c, i).out == [];
    assert !Agree(m, c, [i]);
  }

  lemma RunFits(E: Cipher, preset: Option<Bits>, policy: nat, tagLenP: nat, instrs: seq<Instr>)
    requires 0 < policy < 4 && (preset.Some? ==> policy == 2)
    ensures Fits(AfterRun(E, preset, policy, tagLenP, instrs).0)
  {
    hide Inv, After, HistoryAfter;
    CreateInv(E, preset, policy, tagLenP);
    var m := Create(E, preset, policy, tagLenP);
    FitsCreated(E, preset, policy, tagLenP);
    RunKeepsFits(m, NOTHING.(ivb := if m.iv then m.J0[..96] else []), instrs);
  }

  lemma FitsCreated(E: Cipher, preset: Option<Bits>, policy: nat, tagLenP: nat)
    requires 0 < policy < 4 && (preset.Some? ==> policy == 2)
    ensures Fits(Create(E, preset, policy, tagLenP))
  {
    hide Pow2, WithCtr;
    Widths16();
  }

  // ---------------------------------------------------------------- the case is reached

  function ZeroCipher(): Family {
    (key: Bits) => ((b: Block) => Zeros(128))
  }

  /** An IV of twelve zero bytes, and two blocks to encrypt that are interrupted after the first. */
  const INTERRUPTED: seq<Instr> :=
    [SetSt(SAV, FormB, 96, []), Exec(FormB, [], Some(96), 0, None), SetSt(ENC, FormA, 0, []),
     Exec(FormA, [true], Some(256), 0, Some(16))]

  lemma ShortIvRead(m: Gcm)
    requires m.st == SAV && m.len == 96 && m.cumul == 0 && m.blockBase == 0
    ensures var o := DoExec(m, FormB, [], Some(96), 0, None).m;
            o.st == ABSORB && Ctr32(o.J0) == 1 && o.startCtr == 1 && o.policy == m.policy && o.E == m.E &&
                o.partial == m.partial
  {
    hide GhashMul, Xor, WithCtr, Ctr32;
    var m0 := m.(klstart := 0);
    var m1 := VliPiece(m0, [], 0, 96);
    PieceFields(m0, [], 0, 96);
    assert VliFrom(m0, [], 0, 96, None) == Outcome(Finalize(m1), [], 96);
    CtrRoundTripOne(m1.tag);
  }

  lemma CtrRoundTripOne(b: Block)
    ensures Ctr32(WithCtr(b, 1)) == 1
  {
    hide WithCtr, Ctr32;
    Widths16();
    CtrRoundTrip(b, 1);
  }

  lemma OneBlockThenHalt(m: Gcm)
    requires m.st == ENC && m.policy % 2 == 1 && Ctr32(m.J0) == 1 && m.startCtr == 1 && m.E == ZeroCipher()([])
    ensures var o := DoExec(m, FormA, [true], Some(256), 0, Some(16)).m; o.st == ENC && Bit(o.partial, 0)
  {
    hide GhashMul, WithCtr, Ctr32, Pow2;
    Widths16();
    var m0 := m.(klstart := 0, partial := []);
    var x := Slice([true], 0, 128);
    assert Succ32(1) != Pred32(1) by { SmallPowers(); }
    var r := BlockStep(m0, x);
    assert r.Some? && Bit(r.value.1, 0);
    assert MultiFrom(m0, [true], 0, 2, 0, Some(16), Zeros(0)) == MultiFrom(r.value.0, [true], 1, 2, 0, Some(16),
           Zeros(0) + r.value.1);
  }

  lemma SmallPowers()
    ensures Succ32(1) == 2 && Pred32(1) == 0
  {
    hide Pow2;
    Widths16();
    SmallMod(2, Pow2(32));
    DivModUnique(Pow2(32), Pow2(32), 1, 0);
  }

  /** The exception is real: a valid locker with output pending, which its imported copy does not hand out. */
  lemma PendingOutputReached()
    ensures var m := AfterRun(ZeroCipher()([]), None, 1, 128, INTERRUPTED).0; m.st == ENC && !SameValue(m.partial, [])
  {
    hide GhashMul, WithCtr, Ctr32, Pow2, DoExec;
    var E := ZeroCipher()([]);
    var m0 := Create(E, None, 1, 128);
    var m1 := Step(m0, INTERRUPTED[0]).m;
    ShortIvRead(m1);
    var m2 := Step(m1, INTERRUPTED[1]).m;
    var m3 := Step(m2, INTERRUPTED[2]).m;
    OneBlockThenHalt(m3);
    var m4 := Step(m3, INTERRUPTED[3]).m;
    FourSteps(m0, INTERRUPTED);
    assert Bit(m4.partial, 0) != Bit([], 0);
  }

  lemma FourSteps(m: Gcm, v: seq<Instr>)
    requires |v| == 4
    ensures After(m, v) == Step(Step(Step(Step(m, v[0]).m, v[1]).m, v[2]).m, v[3]).m
  {
    hide Step;
    var m1 := Step(m, v[0]).m;
    var m2 := Step(m1, v[1]).m;
    assert After(m, v) == After(m1, v[1..]);
    assert After(m1, v[1..]) == After(m2, v[2..]) by { assert v[1..][1..] == v[2..]; }
    var m3 := Step(m2, v[2]).m;
    assert After(m2, v[2..]) == After(m3, v[3..]) by { assert v[2..][1..] == v[3..]; }
    assert v[3..][1..] == [];
  }
}
