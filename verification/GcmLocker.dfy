/**
 The locker object itself: its fields are updated in place by SetSt, Exec and Restrict, block by block, and every method
 is proved to make exactly the step of the machine in GcmMachine.
 */
module GcmLocker {
  import opened Wrappers
  import opened Modular
  import opened BitStrings
  import opened Gf128
  import opened AeadBase
  import opened GcmMachine

  /** The same locker, where everything in a cleared locker is forgotten. */
  ghost predicate Same(a: Gcm, b: Gcm) {
    a == b || (a.st == INVALID && b.st == INVALID)
  }

  class Locker {
    const E: Cipher
    const iv: bool
    const tagLenP: nat
    var st: int
    var policy: nat
    var klstart: nat
    var partial: Bits
    var auth: Block
    var tag: Block
    var tagLen: nat
    var lbl: nat
    var J0: Block
    var startCtr: nat
    var len: nat
    var blockBase: nat
    var cumul: nat

    function State(): (m: Gcm)
      reads this
    {
      Gcm(E, iv, st, policy, klstart, partial, tagLenP, auth, tag, tagLen, lbl, J0, startCtr, len, blockBase, cumul)
    }

    constructor (E: Cipher, preset: Option<Bits>, policy: nat, tagLenP: nat)
      requires 0 < policy < 4 && (preset.Some? ==> policy == 2)
      ensures State() == Create(E, preset, policy, tagLenP)
    {
      this.E, this.iv, this.tagLenP, this.policy, st := E, preset.Some?, tagLenP, policy, READY;
      klstart, partial, lbl, startCtr := 0, [], 0, 0;
      J0 := if preset.Some? then Slice(preset.value, 0, 96) + Zeros(32) else Zeros(128);
      new;
      EnterReady();
      if !AdmitsTagLen(tagLenP) {
        st := INVALID;
      }
    }

    method EnterReady()
      modifies this
      ensures State() == Ready(old(State()))
    {
      hide WithCtr, Pow2, Zeros;
      ForgetMessage();
      auth := E(Zeros(128));
      if iv {
        J0, startCtr := WithCtr(J0, 1), 1;
      }
    }

    method ForgetMessage()
      modifies this`tag, this`tagLen, this`len, this`blockBase, this`cumul, this`klstart
      ensures State() == old(State()).(tag := Zeros(128), tagLen := 0, len := 0, blockBase := 0, cumul := 0,
              klstart := 0)
    {
      hide Zeros;
      tag, tagLen := Zeros(128), 0;
      len, blockBase, cumul, klstart := 0, 0, 0, 0;
    }

    method Hash(d: Block)
      modifies this`tag
      ensures State() == AbsorbBlock(old(State()), d)
    {
      tag := GhashMul(Xor(tag, d), auth);
    }

    method Advance() returns (ok: bool)
      modifies this`J0
      ensures ok == NextCtr(old(State())).Some? && State() == if ok then NextCtr(old(State())).value else old(State())
    {
      var c := Succ32(Ctr32(J0));
      ok := c != Pred32(startCtr);
      if ok {
        J0 := WithCtr(J0, c);
      }
    }

    method EnterState(target: int, xs: nat, inp: Bits) returns (ok: bool)
      modifies this
      ensures ok == Enter(old(State()), target, xs, inp).Some?
      ensures ok ==> State() == Enter(old(State()), target, xs, inp).value
    {
      hide GhashMul, Xor, WithCtr, Slice;
      ok := true;
      if target == SAV {
        ok := xs % 8 == 0 && 8 <= xs <= 8192;
        tag, blockBase, cumul, len := Zeros(128), 0, 0, xs;
      } else if target == ELB || target == DLB {
        ok := xs % 8 == 0 && 8 <= xs <= 120;
        lbl := xs;
      } else if target == ETF || target == DTF {
        Hash(Slice(inp, 0, 128));
        tag := Xor(tag, E(WithCtr(J0, startCtr)));
      } else if target == VERIFY {
        ok := xs == tagLenP;
        tagLen := xs;
      }
    }

    method SetSt(target: int, form: Form, xs: nat, inp: Bits)
      modifies this
      ensures Same(State(), DoSetSt(old(State()), target, form, xs, inp))
    {
      hide Enter, Ready, GhashMul;
      if st == INVALID {
        return;
      }
      if target == READY {
        if form == FormA {
          st := READY;
          EnterReady();
        } else {
          st := INVALID;
        }
        return;
      }
      if Admits(iv, st, target) && FormOk(SetForm(target), form, xs, inp) && Allowed(policy, target) &&
          LeaveOk(State(), target) {
        st := target;
        var ok := EnterState(target, xs, if form == FormA then [] else inp);
        if !ok {
          st := INVALID;
        }
      } else {
        st := INVALID;
      }
    }

    method CryptBlock(x: Block) returns (ok: bool, o: Block)
      modifies this`J0, this`tag
      ensures ok == BlockStep(old(State()), x).Some?
      ensures if ok then BlockStep(old(State()), x).value == (State(), o) else State() == old(State())
    {
      hide GhashMul, WithCtr, Ctr32;
      ok, o := true, Zeros(128);
      if st == ABSORB {
        Hash(x);
      } else {
        ok := Advance();
        if ok {
          o := Xor(x, E(J0));
          Hash(if st == ENC then o else x);
        }
      }
    }

    /** The transfer of blocks k to n - 1; ok is false when a block fails. */
    method Blocks(inp: Bits, k: nat, n: nat, haltAt: Option<nat>) returns (ok: bool, out: Bits, ghost reached: nat)
      requires klstart == 0 && partial == [] && k < n && (st == ABSORB || st == ENC || st == DEC)
      modifies this`J0, this`tag, this`klstart, this`partial
      ensures var r := MultiFrom(old(State()), inp, k, n, k, haltAt, Zeros(128 * k));
              r.reached == reached && if ok then r == Outcome(State(), out, reached)
                  else r.m.st == INVALID && r.out == partial
    {
      hide BlockStep, Slice, MultiFrom;
      out := Zeros(128 * k);
      var i := k;
      while i < n
        invariant k <= i <= n && st == old(st) && klstart == 0 && (i > k ==> partial == out)
        invariant MultiFrom(State().(partial := []), inp, i, n, k, haltAt, out) ==
                  MultiFrom(old(State()), inp, k, n, k, haltAt, Zeros(128 * k))
      {
        MultiUnfold(State(), inp, i, n, k, haltAt, out);
        if HaltsAt(haltAt, 128 * i) && i > k {
          klstart := haltAt.value;
          return true, out, i;
        }
        var o: Block;
        ok, o := CryptBlock(Slice(inp, 128 * i, 128));
        partial := out;
        if !ok {
          return false, out, i;
        }
        out := out + o;
        partial := out;
        i := i + 1;
      }
      MultiUnfold(State(), inp, i, n, k, haltAt, out);
      partial := [];
      return true, out, i;
    }

    /** The transfer loop over whole blocks; ok is false when the instruction fails. */
    method Transfer(inp: Bits, kllen: Option<nat>, at: nat, haltAt: Option<nat>) returns (ok: bool, out: Bits,
        ghost reached: nat)
      requires klstart == 0 && (st == ABSORB || st == ENC || st == DEC)
      modifies this`J0, this`tag, this`klstart, this`partial
      ensures var r := Multi(old(State()), inp, kllen, at, haltAt);
              r.reached == reached && if ok then r == Outcome(State(), out, reached)
                  else r.m.st == INVALID && r.out == partial
    {
      hide MultiFrom;
      if kllen.None? || kllen.value % 128 != 0 || at * 8 % 128 != 0 {
        return false, [], 0;
      }
      var k, n := at * 8 / 128, kllen.value / 128;
      partial := [];
      if k < n {
        ok, out, reached := Blocks(inp, k, n, haltAt);
      } else {
        ok, out, reached := true, Zeros(128 * k), k;
      }
    }

    method FinishIv()
      modifies this
      ensures State() == Finalize(old(State()))
    {
      hide GhashMul, WithCtr, Ctr32, Xor, FromNat, ByteSwap, Pow2, Zeros;
      var t := tag;
      if len == 96 {
        t := WithCtr(t, 1);
      } else {
        if blockBase != 0 {
          t := GhashMul(t, auth);
        }
        t := GhashMul(Xor(t, Zeros(64) + ByteSwap(FromNat(len, 64))), auth);
      }
      J0, startCtr := t, Ctr32(t);
      tag, len, blockBase, cumul := Zeros(128), 0, 0, 0;
      st := ABSORB;
    }

    method HashPiece(inp: Bits, ib: nat, amt: nat)
      requires blockBase + amt <= 128
      modifies this`tag, this`blockBase, this`cumul
      ensures State() == VliPiece(old(State()), inp, ib, amt)
    {
      hide GhashMul, Xor, Slice, Placed;
      tag := Xor(tag, Placed(Slice(inp, ib, amt), blockBase));
      blockBase, cumul := blockBase + amt, cumul + amt;
      if blockBase == 128 {
        tag, blockBase := GhashMul(tag, auth), 0;
      }
    }

    /** The loop over the IV, in pieces that end at block boundaries or with the IV. */
    method IvPieces(inp: Bits, at: nat, kllen: nat, haltAt: Option<nat>) returns (ghost reached: nat)
      requires VliOk(State())
      modifies this
      ensures VliFrom(old(State()), inp, at, kllen, haltAt) == Outcome(State(), [], reached)
    {
      hide VliPiece, Finalize;
      var ib := at;
      while ib < kllen
        invariant VliOk(State())
        invariant VliFrom(State(), inp, ib, kllen, haltAt) == VliFrom(old(State()), inp, at, kllen, haltAt)
      {
        var amt := Min(Min(kllen - ib, 128 - blockBase), len - cumul);
        PieceFields(State(), inp, ib, amt);
        HashPiece(inp, ib, amt);
        ib := ib + amt;
        if cumul == len {
          FinishIv();
          return ib;
        }
        if ib < kllen && ib % 128 == 0 && HaltsAt(haltAt, ib) {
          klstart := ib / 8;
          return ib;
        }
      }
      return ib;
    }

    method HashIv(inp: Bits, kllen: Option<nat>, at: nat, haltAt: Option<nat>) returns (ok: bool, ghost reached: nat)
      modifies this
      ensures var r := Vli(old(State()), inp, kllen, at, haltAt);
              r.reached == reached && if ok then r == Outcome(State(), [], reached)
                                      else r.m.st == INVALID && r.out == partial
    {
      hide VliFrom;
      ok, reached := false, 8 * at;
      if kllen.None? || cumul >= len || (kllen.value % 128 != 0 && cumul + kllen.value < len)
         || !(at == 0 || (blockBase == 0 && at * 8 % 128 == 0)) || blockBase >= 128 {
        return;
      }
      reached := IvPieces(inp, 8 * at, kllen.value, haltAt);
      ok := true;
    }

    method CryptLast(inp: Bits, kllen: Option<nat>) returns (ok: bool, out: Bits)
      modifies this`J0, this`tag, this`lbl
      ensures var r := LastBlock(old(State()), inp, kllen);
              if ok then r == Outcome(State(), out, 1) else r.m.st == INVALID && r.out == partial
    {
      hide GhashMul, NextCtr;
      if kllen.None? || kllen.value < lbl || lbl == 0 || lbl > 128 {
        return false, [];
      }
      NextOnlyJ0(State());
      ok := Advance();
      if !ok {
        return false, [];
      }
      var x := Slice(inp, 0, lbl);
      out := Xor(x, E(J0)[..lbl]);
      Hash(Placed(if st == ELB then out else x, 0));
      lbl := 0;
    }

    method HandOutTag(kllen: Option<nat>) returns (ok: bool, out: Bits)
      modifies this`st
      ensures var r := EmitTag(old(State()), kllen);
              if ok then r == Outcome(State(), out, 0) else r.m.st == INVALID && r.out == partial
    {
      ok, out := false, [];
      if kllen.Some? && kllen.value >= tagLenP {
        ok, st, out := true, SUCCESS, Slice(tag, 0, tagLenP);
      }
    }

    method CompareTag(inp: Bits, kllen: Option<nat>) returns (ok: bool)
      modifies this`st, this`tagLen
      ensures var r := CheckTag(old(State()), inp, kllen);
              if ok then r == Outcome(State(), [], 0) else r.m.st == INVALID && r.out == partial
    {
      ok := false;
      if kllen.Some? && kllen.value >= tagLen {
        ok, st := true, if Slice(inp, 0, tagLen) == Slice(tag, 0, tagLen) then SUCCESS else FAILURE;
        tagLen := 0;
      }
    }

    method DoWork(inp: Bits, kllen: Option<nat>, at: nat, haltAt: Option<nat>) returns (ok: bool, out: Bits,
        ghost reached: nat)
      requires klstart == 0
      modifies this
      ensures var r := Work(old(State()), inp, kllen, at, haltAt);
              if ok then r == Outcome(State(), out, reached) else r.m.st == INVALID && r.out == partial
    {
      hide Vli, Multi, LastBlock, EmitTag, CheckTag;
      out, reached := [], 0;
      if st == SAV {
        ok, reached := HashIv(inp, kllen, at, haltAt);
      } else if st == ABSORB || st == ENC || st == DEC {
        ok, out, reached := Transfer(inp, kllen, at, haltAt);
      } else if st == ELB || st == DLB {
        ok, out := CryptLast(inp, kllen);
        reached := 1;
      } else if st == ETF {
        ok, out := HandOutTag(kllen);
      } else {
        ok := CompareTag(inp, kllen);
      }
    }

    /** kl.exec: the value handed out, also when the instruction fails after part of a transfer. */
    method Exec(form: Form, inp: Bits, kllen: Option<nat>, at: nat, haltAt: Option<nat>) returns (out: Bits)
      modifies this
      ensures var r := DoExec(old(State()), form, inp, kllen, at, haltAt);
              Same(State(), r.m) && out == r.out
    {
      hide Work;
      if st == INVALID {
        return [];
      }
      klstart := 0;
      var ok := false;
      if Allowed(policy, st) && ExecForm(st) == Some(form) {
        if kllen.Some? && at * 8 >= kllen.value && !((st == ELB || st == DLB) && lbl == 0) {
          return [];
        }
        ghost var reached: nat;
        ok, out, reached := DoWork(inp, kllen, at, haltAt);
      }
      if !ok {
        out, partial, st := partial, [], INVALID;
      }
    }

    method Restrict(mask: nat)
      modifies this`policy, this`st
      ensures Same(State(), DoRestrict(old(State()), mask))
    {
      if st != INVALID {
        policy := And2(policy, mask);
        if policy == 0 {
          st := INVALID;
        }
      }
    }
  }

  lemma MultiUnfold(m: Gcm, inp: Bits, i: nat, n: nat, k: nat, haltAt: Option<nat>, out: Bits)
    requires i <= n
    ensures var r, x := MultiFrom(m.(partial := []), inp, i, n, k, haltAt, out), Slice(inp, 128 * i, 128);
            if i == n then r == Outcome(m.(partial := []), out, i)
            else if HaltsAt(haltAt, 128 * i) &&
                i > k then r == Outcome(m.(klstart := haltAt.value, partial := out), out, i)
            else if BlockStep(m, x).None? then r.m.st == INVALID && r.out == out && r.reached == i
            else
              var (m1, o) := BlockStep(m, x).value;
              m1.st == m.st && r == MultiFrom(m1.(partial := []), inp, i + 1, n, k, haltAt, out + o)
  {
    hide BlockStep, Slice;
    BlockKeepsPartial(m, Slice(inp, 128 * i, 128));
  }

  lemma BlockKeepsPartial(m: Gcm, x: Block)
    ensures BlockStep(m.(partial := []), x).Some? == BlockStep(m, x).Some?
    ensures BlockStep(m, x).Some? ==>
              var (m1, o) := BlockStep(m, x).value;
              BlockStep(m.(partial := []), x).value == (m1.(partial := []), o) && m1.st == m.st
  {
    hide GhashMul, WithCtr, Ctr32;
  }
}
