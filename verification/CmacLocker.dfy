/**
 The CMAC locker object itself: its fields are updated in place, block by block, and every method is proved to make
 exactly the step of the machine in CmacMachine.
 */
module CmacLocker {
  import opened Wrappers
  import opened Modular
  import opened BitStrings
  import opened Gf128
  import opened AeadBase
  import opened Transfers
  import opened CmacMachine

  /** The same locker, where everything in a cleared locker is forgotten. */
  ghost predicate Same(a: Cmac, b: Cmac) {
    a == b || (a.st == INVALID && b.st == INVALID)
  }

  class Locker {
    const E: Cipher
    const tagLenP: nat
    var st: int
    var policy: nat
    var klstart: nat
    var partial: Bits
    var hash: Block
    var lbl: nat
    var tagLen: nat
    var any: bool
    var all: bool

    ghost function State(): (m: Cmac)
      reads this
    {
      Cmac(E, st, policy, klstart, partial, tagLenP, hash, lbl, tagLen, any, all)
    }

    /** The State without the partial output. */
    ghost function Core(): (m: Cmac)
      reads this
      ensures m == State().(partial := [])
    {
      State().(partial := [])
    }

    constructor (E: Cipher, policy: nat, tagLenP: nat)
      requires 0 < policy < 4
      ensures State() == Create(E, policy, tagLenP)
    {
      this.E, this.policy, this.tagLenP := E, policy, tagLenP;
      klstart, partial, hash, lbl, tagLen, any, all := 0, [], Zeros(128), 0, 0, false, false;
      st := if AdmitsTagLen(tagLenP) then READY else INVALID;
    }

    method EnterReady()
      modifies this`st, this`hash, this`lbl, this`tagLen, this`any, this`all
      ensures State() == Ready(old(State()))
    {
      st, hash, lbl, tagLen, any, all := READY, Zeros(128), 0, 0, false, false;
    }

    /** The last block is announced; an empty message is complete at once. */
    method AnnounceLast(xs: nat) returns (ok: bool)
      modifies this`st, this`hash, this`lbl, this`all
      ensures ok == Enter(old(State()), HABL, xs).Some?
      ensures if ok then State() == Enter(old(State()), HABL, xs).value else State() == old(State())
    {
      hide Subkey2, PadOne, Xor;
      ok := xs % 8 == 0 && xs <= 128 && (xs != 0 || !any);
      if ok {
        st, lbl := HABL, xs;
        if xs == 0 {
          hash, all := E(Xor(Xor(hash, PadOne([])), Subkey2(E))), true;
        }
      }
    }

    method EnterTarget(target: int, xs: nat) returns (ok: bool)
      modifies this`st, this`hash, this`lbl, this`all, this`tagLen
      ensures ok == Enter(old(State()), target, xs).Some?
      ensures if ok then State() == Enter(old(State()), target, xs).value else State() == old(State())
    {
      hide Subkey2, PadOne, Xor;
      if target == HABL {
        ok := AnnounceLast(xs);
      } else if target == VERIFY {
        ok := xs % 8 == 0 && xs >= 64 && all && Min(xs, 128) == tagLenP;
        if ok {
          st, tagLen := target, Min(xs, 128);
        }
      } else {
        ok := target == HOUT ==> all;
        if ok {
          st := target;
        }
      }
    }

    method SetSt(target: int, form: Form, xs: nat, inp: Bits)
      modifies this
      ensures Same(State(), DoSetSt(old(State()), target, form, xs, inp))
    {
      hide Enter, Ready, FormOk, Permits;
      if st == INVALID {
        return;
      }
      if target == READY && form == FormA {
        EnterReady();
      } else if target != READY && Admits(st, target) && FormOk(SetForm(target), form, xs, inp) &&
          Permits(policy, target) {
        var ok := EnterTarget(target, xs);
        if !ok {
          st := INVALID;
        }
      } else {
        st := INVALID;
      }
    }

    /** The transfer of blocks from to n - 1. */
    method Blocks(inp: Bits, from: nat, n: nat, haltAt: Option<nat>) returns (end: End, out: Bits, ghost reached: nat)
      requires from < n
      modifies this`hash, this`any, this`partial
      ensures var t := TransferFrom<Cmac>(BlockStep, old(Core()), inp, from, n, from, haltAt, Zeros(128 * from));
              end == t.end && out == t.out && reached == t.reached && end != Failed && Core() == t.s
      ensures end == Halted ==> HaltsAt(haltAt, 128 * reached)
    {
      hide Slice, TransferFrom, Zeros, Xor, HaltsAt;
      ghost var t := TransferFrom<Cmac>(BlockStep, Core(), inp, from, n, from, haltAt, Zeros(128 * from));
      out := Zeros(128 * from);
      end := Done;
      var i := from;
      while i < n && end == Done
        invariant from <= i <= n && end != Failed
        invariant if end == Done then t == TransferFrom<Cmac>(BlockStep, Core(), inp, i, n, from, haltAt, out)
                  else t == Transfer(Core(), out, i, end) && HaltsAt(haltAt, 128 * i)
        decreases n - i, end == Done
      {
        TransferUnfold(Core(), inp, i, n, from, haltAt, out);
        if HaltsAt(haltAt, 128 * i) && i > from {
          end := Halted;
        } else {
          hash, any := E(Xor(hash, Slice(inp, 128 * i, 128))), true;
          out, i := out + Zeros(128), i + 1;
          partial := out;
        }
      }
      if end == Done {
        TransferUnfold(Core(), inp, i, n, from, haltAt, out);
      }
      reached := i;
    }

    /** The transfer over the window of the instruction; ok is false when the instruction is refused. */
    method TransferBlocks(inp: Bits, kllen: Option<nat>, at: nat, haltAt: Option<nat>)
      returns (ok: bool, out: Bits, ghost reached: nat)
      modifies this`hash, this`any, this`klstart, this`partial
      ensures var r := Multi(old(State()), inp, kllen, at, haltAt);
              if ok then r == Outcome(State(), out, reached) else r.m.st == INVALID && r.out == partial
    {
      hide TransferFrom, BlockStep, Zeros;
      if kllen.None? || kllen.value % 128 != 0 || at * 8 % 128 != 0 {
        return false, [], 0;
      }
      var from, n := at * 8 / 128, kllen.value / 128;
      ok, out, reached, partial := true, Zeros(128 * from), from, [];
      if from < n {
        var end: End;
        end, out, reached := Blocks(inp, from, n, haltAt);
        partial := if end == Done then [] else out;
        if end == Halted {
          klstart := haltAt.value;
        }
      }
    }

    method CloseMessage(inp: Bits, kllen: Option<nat>) returns (ok: bool)
      modifies this`hash, this`all
      ensures var r := LastBlock(old(State()), inp, kllen);
              if ok then r == Outcome(State(), [], 1) else r.m.st == INVALID && r.out == partial
    {
      hide Subkey1, Subkey2, PadOne, Xor, Slice;
      ok := kllen.Some? && kllen.value >= lbl && !all && lbl != 0 && lbl <= 128 && lbl % 8 == 0;
      if ok {
        var x := Slice(inp, 0, lbl);
        if lbl == 128 {
          hash := E(Xor(Xor(hash, x), Subkey1(E)));
        } else {
          assert lbl <= 120;
          hash := E(Xor(Xor(hash, PadOne(x)), Subkey2(E)));
        }
        all := true;
      }
    }

    method HandOutTag(kllen: Option<nat>) returns (ok: bool, out: Bits)
      modifies this`st
      ensures var r := EmitTag(old(State()), kllen);
              if ok then r == Outcome(State(), out, 0) else r.m.st == INVALID && r.out == partial
    {
      ok, out := kllen.Some? && kllen.value >= tagLenP, [];
      if ok {
        st, out := SUCCESS, Slice(hash, 0, tagLenP);
      }
    }

    method CompareTag(inp: Bits, kllen: Option<nat>) returns (ok: bool)
      modifies this`st
      ensures var r := CheckTag(old(State()), inp, kllen);
              if ok then r == Outcome(State(), [], 0) else r.m.st == INVALID && r.out == partial
    {
      ok := kllen.Some? && kllen.value >= tagLen;
      if ok {
        st := if Slice(inp, 0, tagLen) == Slice(hash, 0, tagLen) then SUCCESS else FAILURE;
      }
    }

    method DoWork(inp: Bits, kllen: Option<nat>, at: nat, haltAt: Option<nat>)
      returns (ok: bool, out: Bits, ghost reached: nat)
      modifies this
      ensures var r := Work(old(State()), inp, kllen, at, haltAt);
              if ok then r == Outcome(State(), out, reached) else r.m.st == INVALID && r.out == partial
    {
      hide Multi, LastBlock, EmitTag, CheckTag;
      out, reached := [], 0;
      if st == ABSORB {
        ok, out, reached := TransferBlocks(inp, kllen, at, haltAt);
      } else if st == HABL {
        ok := CloseMessage(inp, kllen);
        reached := 1;
      } else if st == HOUT {
        ok, out := HandOutTag(kllen);
      } else {
        ok := CompareTag(inp, kllen);
      }
    }

    /** kl.exec: the value handed out, also when the instruction is refused with output pending. */
    method Exec(form: Form, inp: Bits, kllen: Option<nat>, at: nat, haltAt: Option<nat>) returns (out: Bits)
      modifies this
      ensures var r := DoExec(old(State()), form, inp, kllen, at, haltAt); Same(State(), r.m) && out == r.out
    {
      hide Work, Permits, ExecForm;
      if st == INVALID {
        return [];
      }
      klstart := 0;
      var ok := false;
      if Permits(policy, st) && ExecForm(st) == Some(form) {
        if kllen.Some? && at * 8 >= kllen.value && !(st == HABL && (all || lbl == 0)) {
          return [];
        }
        ghost var reached: nat;
        ok, out, reached := DoWork(inp, kllen, at, haltAt);
      }
      if !ok {
        out, partial, st := partial, [], INVALID;
      }
    }

    method Restrict(mask: nat)
      modifies this`policy, this`st
      ensures Same(State(), DoRestrict(old(State()), mask))
    {
      if st != INVALID {
        policy := And2(policy, mask);
        if policy == 0 {
          st := INVALID;
        }
      }
    }
  }

  lemma TransferUnfold(m: Cmac, inp: Bits, i: nat, n: nat, k: nat, haltAt: Option<nat>, out: Bits)
    requires i <= n
    ensures var t, x := TransferFrom<Cmac>(BlockStep, m, inp, i, n, k, haltAt, out), Slice(inp, 128 * i, 128);
            if i == n then t == Transfer(m, out, i, Done)
            else if HaltsAt(haltAt, 128 * i) && i > k then t == Transfer(m, out, i, Halted)
            else t == TransferFrom<Cmac>(BlockStep, m.(hash := m.E(Xor(m.hash, x)), any := true), inp, i + 1, n, k,
                haltAt,
                                         out + Zeros(128))
  {
    hide Slice, Xor;
  }
}
