/**
 The GCM-SIV locker object itself: its fields are updated in place, block by block, and every method is proved to make
 exactly the step of the machine in SivMachine.
 */
module SivLocker {
  import opened Wrappers
  import opened Modular
  import opened BitStrings
  import opened Gf128
  import opened AeadBase
  import opened Transfers
  import opened SivMachine
  import opened Rfc8452

  /** The same locker, where everything in a cleared locker is forgotten. */
  ghost predicate Same(a: Siv, b: Siv) {
    a == b || (a.st == INVALID && b.st == INVALID)
  }

  class Locker {
    const aes: Keyed
    const key: Bits
    var st: int
    var policy: nat
    var klstart: nat
    var partial: Bits
    var nonce: Bits
    var ctr: nat
    var tmp: Block
    var siv: Block
    var lbl: nat
    var ek: Bits
    var ak: Block

    ghost predicate Valid()
      reads this
    {
      |nonce| == 96 && lbl <= 120
    }

    ghost function State(): (m: Siv)
      reads this
      requires Valid()
    {
      Fields.Siv(aes, key, st, policy, klstart, partial, nonce, ctr, tmp, siv, lbl, ek, ak)
    }

    /** The State without the partial output. */
    ghost function Core(): (m: Siv)
      reads this
      requires Valid()
      ensures m == State().(partial := [])
    {
      State().(partial := [])
    }

    constructor (aes: Keyed, key: Bits, policy: nat)
      requires 0 < policy < 4
      ensures Valid() && State() == Create(aes, key, policy)
    {
      this.aes, this.key, this.policy, st := aes, key, policy, READY;
      klstart, partial, nonce, ctr, lbl, ek := 0, [], Zeros(96), 0, 0, [];
      tmp, siv, ak := Zeros(128), Zeros(128), Zeros(128);
    }

    method EnterReady()
      requires Valid()
      modifies this`st, this`nonce, this`ctr, this`tmp, this`siv, this`ek, this`ak
      ensures Valid() && State() == Ready(old(State()))
    {
      st, nonce, ctr, ek := READY, Zeros(96), 0, [];
      tmp, siv, ak := Zeros(128), Zeros(128), Zeros(128);
    }

    /** The key of the message, half a block at a time. */
    method DeriveKeys()
      requires Valid()
      modifies this`ek, this`ak
      ensures Valid() && State() == WithNonce(old(State()), nonce)
    {
      hide KeyHalves, KeyHalf;
      ek := [];
      var i, n := 2, |key| / 64 + 2;
      while i < n
        invariant 2 <= i <= n
        invariant ek + KeyHalves(aes, key, nonce, i, n) == EncKey(aes, key, nonce)
      {
        HalvesUnfold(aes, key, nonce, i, n);
        ek, i := ek + KeyHalf(aes, key, nonce, i), i + 1;
      }
      HalvesUnfold(aes, key, nonce, n, n);
      assert ek + [] == ek;
      ak := KeyHalf(aes, key, nonce, 0) + KeyHalf(aes, key, nonce, 1);
    }

    method EnterTarget(target: int, xs: nat, inp: Bits) returns (ok: bool)
      requires Valid()
      modifies this`st, this`nonce, this`siv, this`lbl, this`ek, this`ak
      ensures Valid() && ok == Enter(old(State()), target, xs, inp).Some?
      ensures if ok then State() == Enter(old(State()), target, xs, inp).value else State() == old(State())
    {
      hide EncKey, AuthKey, Slice;
      ok := !(target == ELB || target == DLB) || (xs % 8 == 0 && 8 <= xs <= 120);
      if !ok {
        return;
      }
      st := target;
      if target == SAV {
        nonce := Slice(inp, 0, 96);
        DeriveKeys();
      } else if target == SAV2 {
        siv := Slice(inp, 0, 128);
      } else if target == ELB || target == DLB {
        lbl := xs;
      }
    }

    method SetSt(target: int, form: Form, xs: nat, inp: Bits)
      requires Valid()
      modifies this
      ensures Valid() && Same(State(), DoSetSt(old(State()), target, form, xs, inp))
    {
      hide Enter, Ready, Allowed, FormOk;
      if st == INVALID {
        return;
      }
      if target == READY && form == FormA {
        EnterReady();
      } else if target != READY && Admits(st, target) && FormOk(SetForm(target), form, xs, inp) &&
          Allowed(policy, target) {
        var ok := EnterTarget(target, xs, if form == FormA then [] else inp);
        if !ok {
          st := INVALID;
        }
      } else {
        st := INVALID;
      }
    }

    method Absorb(d: Block)
      requires Valid()
      modifies this`tmp
      ensures Valid() && State() == AbsorbBlock(old(State()), d)
    {
      hide Montmul, Xor;
      tmp := Montmul(Xor(tmp, d), ak);
    }

    method ProcessBlock(x: Block) returns (ok: bool, o: Block)
      requires Valid()
      modifies this`tmp, this`ctr
      ensures Valid() && ok == BlockStep(old(State()), x).Some?
      ensures if ok then BlockStep(old(State()), x).value == (State(), o) else State() == old(State())
    {
      hide AbsorbBlock, CounterBlock, Xor;
      ok, o := true, Zeros(128);
      if st == ABSORB {
        Absorb(x);
      } else if ctr == CTR_END {
        ok := false;
      } else {
        o := Xor(x, aes(ek, CounterBlock(siv, ctr)));
        ctr := ctr + 1;
        if st == DEC {
          Absorb(o);
        }
      }
    }

    /** One block of a transfer that has handed out `out` so far. */
    method NextBlock(x: Block, out: Bits) returns (ok: bool, o: Block)
      requires Valid()
      modifies this`tmp, this`ctr, this`partial
      ensures Valid() && ok == BlockStep(old(State()), x).Some?
      ensures if ok then
                var (m1, o1) := BlockStep(old(State()), x).value; o == o1 && State() == m1.(partial := out + o)
              else State() == old(State()).(partial := out)
    {
      hide BlockStep;
      ok, o := ProcessBlock(x);
      partial := out;
      if ok {
        partial := out + o;
      }
    }

    /** The transfer of blocks from to n - 1. */
    method Blocks(inp: Bits, from: nat, n: nat, haltAt: Option<nat>) returns (end: End, out: Bits, ghost reached: nat)
      requires Valid() && from < n
      modifies this`tmp, this`ctr, this`partial
      ensures Valid()
      ensures var t := TransferFrom<Siv>(BlockStep, old(Core()), inp, from, n, from, haltAt, Zeros(128 * from));
              end == t.end && out == t.out && reached == t.reached && (end != Failed ==> Core() == t.s)
      ensures end == Halted ==> HaltsAt(haltAt, 128 * reached)
    {
      hide BlockStep, Slice, TransferFrom, Zeros, State, HaltsAt;
      ghost var t := TransferFrom<Siv>(BlockStep, Core(), inp, from, n, from, haltAt, Zeros(128 * from));
      out := Zeros(128 * from);
      end := Done;
      var i := from;
      while i < n && end == Done
        invariant Valid() && from <= i <= n
        invariant if end == Done then t == TransferFrom<Siv>(BlockStep, Core(), inp, i, n, from, haltAt, out)
                  else t == Transfer(t.s, out, i, end) && (end == Halted ==> HaltsAt(haltAt, 128 * i) && Core() == t.s)
        decreases n - i, end == Done
      {
        TransferUnfold(State(), inp, i, n, from, haltAt, out);
        if HaltsAt(haltAt, 128 * i) && i > from {
          end := Halted;
        } else {
          var ok, o := NextBlock(Slice(inp, 128 * i, 128), out);
          if ok {
            out, i := out + o, i + 1;
          } else {
            end := Failed;
          }
        }
      }
      if end == Done {
        TransferUnfold(State(), inp, i, n, from, haltAt, out);
      }
      reached := i;
    }

    /** The transfer, with the position and the partial output that a halt leaves. */
    method RunBlocks(inp: Bits, from: nat, n: nat, haltAt: Option<nat>)
      returns (ok: bool, out: Bits, ghost reached: nat)
      requires Valid() && from < n
      modifies this`tmp, this`ctr, this`klstart, this`partial
      ensures Valid()
      ensures var t := TransferFrom<Siv>(BlockStep, old(Core()), inp, from, n, from, haltAt, Zeros(128 * from));
              var r := Concluded(t);
              r.reached == reached && if ok then r == Outcome(State(), out, reached)
              else r.m.st == INVALID && r.out == partial
    {
      hide TransferFrom, BlockStep, Zeros;
      var end;
      end, out, reached := Blocks(inp, from, n, haltAt);
      ok := end != Failed;
      partial := if end == Done then [] else out;
      if end == Halted {
        klstart := haltAt.value;
      }
    }

    /** The transfer over the window of the instruction; ok is false when the instruction fails. */
    method TransferBlocks(inp: Bits, kllen: Option<nat>, at: nat, haltAt: Option<nat>)
      returns (ok: bool, out: Bits, ghost reached: nat)
      requires Valid()
      modifies this`tmp, this`ctr, this`klstart, this`partial
      ensures Valid()
      ensures var r := Multi(old(State()), inp, kllen, at, haltAt);
              r.reached == reached && if ok then r == Outcome(State(), out, reached)
              else r.m.st == INVALID && r.out == partial
    {
      hide TransferFrom, BlockStep, Zeros, Concluded;
      if kllen.None? || kllen.value % 128 != 0 || at * 8 % 128 != 0 {
        return false, [], 0;
      }
      var from, n := at * 8 / 128, kllen.value / 128;
      partial := [];
      if from < n {
        ok, out, reached := RunBlocks(inp, from, n, haltAt);
      } else {
        ok, out, reached := true, Zeros(128 * from), from;
      }
    }

    /** The length block, then the tag: it is handed out and becomes the synthetic IV. */
    method FinishTag(inp: Bits, kllen: Option<nat>) returns (ok: bool, out: Bits)
      requires Valid()
      modifies this`st, this`tmp, this`siv
      ensures Valid()
      ensures var r := MakeTag(old(State()), inp, kllen);
              if ok then r == Outcome(State(), out, 1) else r.m.st == INVALID && r.out == partial
    {
      hide AbsorbBlock, TagOf, Slice;
      ok, out := kllen.Some? && kllen.value >= 128, [];
      if ok {
        Absorb(Slice(inp, 0, 128));
        tmp := TagOf(aes, ek, nonce, tmp);
        siv, st, out := tmp, ENC, tmp;
      }
    }

    method CryptLast(inp: Bits, kllen: Option<nat>) returns (ok: bool, out: Bits)
      requires Valid()
      modifies this`st, this`tmp, this`ctr, this`lbl
      ensures Valid()
      ensures var r := LastBlock(old(State()), inp, kllen);
              if ok then r == Outcome(State(), out, 1) else r.m.st == INVALID && r.out == partial
    {
      hide AbsorbBlock, CounterBlock, Xor, Slice, Placed;
      ok, out := kllen.Some? && kllen.value >= lbl && lbl != 0 && ctr != CTR_END, [];
      if ok {
        out := Xor(Slice(inp, 0, lbl), aes(ek, CounterBlock(siv, ctr))[..lbl]);
        ctr, lbl := ctr + 1, 0;
        if st == DLB {
          Absorb(Placed(out, 0));
          st := DTF;
        }
      }
    }

    method CompareTag(inp: Bits, kllen: Option<nat>) returns (ok: bool)
      requires Valid()
      modifies this`st, this`tmp
      ensures Valid()
      ensures var r := CheckTag(old(State()), inp, kllen);
              if ok then r == Outcome(State(), [], 1) else r.m.st == INVALID && r.out == partial
    {
      hide AbsorbBlock, TagOf, Slice;
      ok := kllen.Some? && kllen.value >= 128;
      if ok {
        Absorb(Slice(inp, 0, 128));
        tmp := TagOf(aes, ek, nonce, tmp);
        st := if tmp == siv then SUCCESS else FAILURE;
      }
    }

    method DoWork(inp: Bits, kllen: Option<nat>, at: nat, haltAt: Option<nat>)
      returns (ok: bool, out: Bits, ghost reached: nat)
      requires Valid()
      modifies this
      ensures Valid()
      ensures var r := Work(old(State()), inp, kllen, at, haltAt);
              if ok then r == Outcome(State(), out, reached) else r.m.st == INVALID && r.out == partial
    {
      hide Multi, MakeTag, LastBlock, CheckTag;
      out, reached := [], 1;
      if st == ABSORB || st == ENC || st == DEC {
        ok, out, reached := TransferBlocks(inp, kllen, at, haltAt);
      } else if st == ETF {
        ok, out := FinishTag(inp, kllen);
      } else if st == ELB || st == DLB {
        ok, out := CryptLast(inp, kllen);
      } else {
        ok := CompareTag(inp, kllen);
      }
    }

    /** kl.exec: the value handed out, also when the instruction fails after part of a transfer. */
    method Exec(form: Form, inp: Bits, kllen: Option<nat>, at: nat, haltAt: Option<nat>) returns (out: Bits)
      requires Valid()
      modifies this
      ensures Valid()
      ensures var r := DoExec(old(State()), form, inp, kllen, at, haltAt); Same(State(), r.m) && out == r.out
    {
      hide Work, Allowed, ExecForm;
      if st == INVALID {
        return [];
      }
      klstart := 0;
      var ok := false;
      if Allowed(policy, st) && ExecForm(st) == Some(form) {
        if kllen.Some? && at * 8 >= kllen.value && !((st == ELB || st == DLB) && lbl == 0) {
          return [];
        }
        ghost var reached: nat;
        ok, out, reached := DoWork(inp, kllen, at, haltAt);
      }
      if !ok {
        out, partial, st := partial, [], INVALID;
      }
    }

    method Restrict(mask: nat)
      requires Valid()
      modifies this`policy, this`st
      ensures Valid() && Same(State(), DoRestrict(old(State()), mask))
    {
      if st != INVALID {
        policy := And2(policy, mask);
        if policy == 0 {
          st := INVALID;
        }
      }
    }
  }

  lemma HalvesUnfold(aes: Keyed, key: Bits, nonce: Bits, i: nat, n: nat)
    requires |nonce| == 96 && i <= n
    ensures KeyHalves(aes, key, nonce, i, n) ==
            if i == n then [] else KeyHalf(aes, key, nonce, i) + KeyHalves(aes, key, nonce, i + 1, n)
  {
  }

  lemma TransferUnfold(m: Siv, inp: Bits, i: nat, n: nat, k: nat, haltAt: Option<nat>, out: Bits)
    requires i <= n
    ensures var m0: Siv := m.(partial := []);
            var t, x := TransferFrom<Siv>(BlockStep, m0, inp, i, n, k, haltAt, out), Slice(inp, 128 * i, 128);
            if i == n then t == Transfer(m0, out, i, Done)
            else if HaltsAt(haltAt, 128 * i) && i > k then t == Transfer(m0, out, i, Halted)
            else if BlockStep(m, x).None? then t == Transfer(m0, out, i, Failed)
            else
              var (m1, o) := BlockStep(m, x).value;
              t == TransferFrom<Siv>(BlockStep, m1.(partial := []), inp, i + 1, n, k, haltAt, out + o)
  {
    hide BlockStep, Slice;
    BlockIgnoresPartial(m, Slice(inp, 128 * i, 128));
  }

  lemma BlockIgnoresPartial(m: Siv, x: Block)
    ensures BlockStep(m.(partial := []), x).Some? == BlockStep(m, x).Some?
    ensures BlockStep(m, x).Some? ==>
              var (m1, o) := BlockStep(m, x).value;
              BlockStep(m.(partial := []), x).value == (m1.(partial := []), o)
  {
    hide Montmul, Xor, CounterBlock;
  }
}
