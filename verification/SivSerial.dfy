/**
 Export and import of a GCM-SIV locker: the round trip, and when the imported locker behaves as the original under every
 later run.
 */
module SivSerial {
  import opened Wrappers
  import opened Modular
  import opened BitStrings
  import opened BitFields
  import opened Gf128
  import opened AeadBase
  import opened Transfers
  import opened SivMachine
  import opened Rfc8452
  import opened SivRuns

  // ---------------------------------------------------------------- the round trip

  /** The low bits of a number are the number itself when it is small. */
  lemma {:induction false} LowBits(x: nat, k: nat, n: nat)
    requires k <= n
    ensures FromNat(x, n)[..k] == FromNat(x, k)
  {
    if k > 0 {
      LowBits(x / 2, k - 1, n - 1);
      var rest := FromNat(x / 2, n - 1);
      assert ([x % 2 == 1] + rest)[..k] == [x % 2 == 1] + rest[..k - 1];
    }
  }

  lemma LengthField(lbl: nat, top: bool)
    requires lbl <= 120
    ensures var f := FromNat(lbl, 15) + [top]; ToNat(f[..7]) == lbl && f[15] == top
  {
    hide FromNat, ToNat;
    assert Pow2(7) == 128;
    LowBits(lbl, 7, 15);
    assert (FromNat(lbl, 15) + [top])[..7] == FromNat(lbl, 15)[..7];
    Number(lbl, 7);
  }

  lemma EndIsPower()
    ensures Pow2(32) == CTR_END
  {
    assert Pow2(8) == 256;
    assert Pow2(16) == 65536 by { assert Pow2(12) == 4096; }
    assert Pow2(24) == 0x100_0000 by { assert Pow2(20) == 0x10_0000; }
    assert Pow2(28) == 0x1000_0000;
  }

  /** The counter goes through a 32-bit field and one bit for its end. */
  lemma CounterField(ctr: nat)
    requires ctr <= CTR_END
    ensures ToNat(FromNat(ctr, 32)) + (if ctr >= CTR_END then CTR_END else 0) == ctr
  {
    hide FromNat, ToNat, Pow2;
    EndIsPower();
    NatRoundTrip(ctr, 32);
    if ctr == CTR_END {
      DivModUnique(ctr, CTR_END, 1, 0);
    } else {
      DivModUnique(ctr, CTR_END, 0, ctr);
    }
  }

  /** What survives: not the halt position and the pending output. */
  function Imported(m: Siv): Siv {
    m.(klstart := 0, partial := [])
  }

  /** Importing what was exported restores the locker, with the keys of its message derived again. */
  lemma ImportExport(m: Siv, h: History)
    requires Inv(m, h) && m.st != INVALID
    ensures Import(m.aes, |m.key|, m.policy, m.st, Export(m)) == Imported(m)
  {
    hide FromNat, ToNat, Pow2, EncKey, AuthKey, AtText, Fresh, NoText, Encrypting, Decrypting, Decided, Hashed;
    CutFields(Parts(m), [|m.key|, 96, 32, 128, 128, 16]);
    CounterField(m.ctr);
    LengthField(m.lbl, m.ctr >= CTR_END);
  }

  // ---------------------------------------------------------------- equal behaviour

  /** The same locker but for the halt position and the pending output. */
  ghost predicate Alike(a: Siv, b: Siv) {
    a.st == b.st && (a.st != INVALID ==> b == a.(klstart := b.klstart, partial := b.partial))
  }

  lemma SetStAlike(a: Siv, b: Siv, st: int, form: Form, xs: nat, inp: Bits)
    requires Alike(a, b)
    ensures var a', b' := DoSetSt(a, st, form, xs, inp), DoSetSt(b, st, form, xs, inp);
            Alike(a', b') && (a'.st != INVALID ==> a'.partial == a.partial && b'.partial == b.partial)
  {
    hide EncKey, AuthKey, FormOk, Allowed, Slice;
  }

  lemma WorkAlike(a: Siv, b: Siv, inp: Bits, kllen: Option<nat>, klstart: nat, haltAt: Option<nat>)
    requires a.st != INVALID && Alike(a, b) && a.klstart == b.klstart && SameValue(a.partial, b.partial)
    ensures var oa, ob := Work(a, inp, kllen, klstart, haltAt), Work(b, inp, kllen, klstart, haltAt);
            Alike(oa.m, ob.m) && SameValue(oa.out, ob.out) && SameValue(oa.m.partial, ob.m.partial)
  {
    hide Xor, Montmul, TransferFrom, Slice, CounterBlock, TagOf, Placed;
    assert a.(partial := []) == b.(partial := []);
  }

  lemma ExecAlike(a: Siv, b: Siv, form: Form, inp: Bits, kllen: Option<nat>, klstart: nat, haltAt: Option<nat>)
    requires a.st != INVALID && Alike(a, b) && SameValue(a.partial, b.partial)
    ensures var oa, ob := DoExec(a, form, inp, kllen, klstart, haltAt), DoExec(b, form, inp, kllen, klstart, haltAt);
            Alike(oa.m, ob.m) && SameValue(oa.out, ob.out) && SameValue(oa.m.partial, ob.m.partial)
  {
    hide Work, SameValue, Allowed;
    SameSelf([]);
    WorkAlike(a.(klstart := 0), b.(klstart := 0), inp, kllen, klstart, haltAt);
  }

  /** Alike lockers whose pending outputs are equal stay so, and hand out the same. */
  lemma StepAlike(a: Siv, b: Siv, i: Instr)
    requires Alike(a, b) && (a.st != INVALID ==> SameValue(a.partial, b.partial))
    ensures var oa, ob := Step(a, i), Step(b, i);
            Alike(oa.m, ob.m) && SameValue(oa.out, ob.out) && (oa.m.st != INVALID ==>
              SameValue(oa.m.partial, ob.m.partial))
  {
    hide DoExec, DoSetSt, SameValue;
    SameSelf([]);
    if a.st == INVALID {
      InvalidStep(a, i);
      InvalidStep(b, i);
    } else {
      match i
      case SetSt(st, form, xs, inp) => SetStAlike(a, b, st, form, xs, inp);
      case Exec(form, inp, kllen, klstart, haltAt) => ExecAlike(a, b, form, inp, kllen, klstart, haltAt);
      case Restrict(mask) =>
    }
  }

  lemma InvalidStep(m: Siv, i: Instr)
    requires m.st == INVALID
    ensures Step(m, i).out == [] && Step(m, i).m == m
  {
    hide Work, Enter;
  }

  /** The two lockers hand out the same values and are in the same States, instruction by instruction. */
  ghost predicate Agree(a: Siv, b: Siv, instrs: seq<Instr>)
    decreases instrs
  {
    a.st == b.st &&
    (instrs != [] ==>
      SameValue(Step(a, instrs[0]).out, Step(b, instrs[0]).out) &&
      Agree(Step(a, instrs[0]).m, Step(b, instrs[0]).m, instrs[1..]))
  }

  lemma {:induction false} RunsAgree(a: Siv, b: Siv, instrs: seq<Instr>)
    requires Alike(a, b) && (a.st != INVALID ==> SameValue(a.partial, b.partial))
    ensures Agree(a, b, instrs)
    decreases instrs
  {
    hide Step, SameValue;
    if instrs != [] {
      StepAlike(a, b, instrs[0]);
      RunsAgree(Step(a, instrs[0]).m, Step(b, instrs[0]).m, instrs[1..]);
    }
  }

  /**
   After any run that leaves the locker valid, the imported locker gives the same outputs and States as the original
   under every later run exactly when the original has no output pending.
   */
  lemma ImportBehavesIff(aes: Keyed, key: Bits, policy: nat, instrs: seq<Instr>)
    requires 0 < policy < 4 && AfterRun(aes, key, policy, instrs).0.st != INVALID
    ensures var m := AfterRun(aes, key, policy, instrs).0;
            (forall later :: Agree(m, Import(aes, |key|, m.policy, m.st, Export(m)), later)) <==>
                SameValue(m.partial, [])
  {
    hide Inv, AfterRun, Agree, SameValue, Import, Export;
    RunFacts(aes, key, policy, instrs);
    var (m, h) := AfterRun(aes, key, policy, instrs);
    ImportExport(m, h);
    var c := Imported(m);
    if SameValue(m.partial, []) {
      forall later
        ensures Agree(m, c, later)
      {
        RunsAgree(m, c, later);
      }
    } else {
      PendingShows(m, c);
    }
  }

  lemma PendingShows(m: Siv, c: Siv)
    requires m.st != INVALID && c.partial == [] && c.st == m.st && !SameValue(m.partial, [])
    ensures exists later :: !Agree(m, c, later)
  {
    hide SameValue, Work;
    var i := Exec(FormD, [], None, 0, None);
    assert Step(m, i).out == m.partial && Step(c, i).out == [];
    assert !Agree(m, c, [i]);
  }
}
