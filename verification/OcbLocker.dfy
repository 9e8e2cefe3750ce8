/**
 The OCB locker object itself: its fields are updated in place, block by block, and every method is proved to make
 exactly the step of the machine in OcbMachine.
 */
module OcbLocker {
  import opened Wrappers
  import opened Modular
  import opened BitStrings
  import opened Gf128
  import opened AeadBase
  import opened Transfers
  import opened OcbReference
  import opened OcbMachine

  /** The same locker, where everything in a cleared locker is forgotten. */
  ghost predicate Same(a: Ocb, b: Ocb) {
    a == b || (a.st == INVALID && b.st == INVALID)
  }

  class Locker {
    const k: Key
    const preset: bool
    var st: int
    var policy: nat
    var klstart: nat
    var partial: Bits
    var N: Bits
    var nlen: nat
    var hasN: bool
    var hashA: Block
    var csum: Block
    var index: nat
    var offset: Block
    var lbl: nat
    var tagLen: nat
    var Ls: Block
    var Ld: Block
    var table: seq<Block>

    function Snapshot(): (m: Fields)
      reads this
    {
      Fields(k, preset, st, policy, klstart, partial, N, nlen, hasN, hashA, csum, index, offset, lbl, tagLen, Ls, Ld,
          table)
    }

    ghost predicate Valid()
      reads this
    {
      Bounded(Snapshot())
    }

    ghost function State(): (m: Ocb)
      reads this
      requires Valid()
    {
      Snapshot()
    }

    /** The State without the partial output. */
    ghost function Core(): (m: Ocb)
      reads this
      requires Valid()
      ensures m == State().(partial := [])
    {
      State().(partial := [])
    }

    constructor (k: Key, nonce: Option<(Bits, nat)>, policy: nat)
      requires 0 < policy < 4 && (nonce.Some? ==> policy == 2) && NonceOk(nonce)
      ensures Valid() && State() == Create(k, nonce, policy)
    {
      hide MaskNonce;
      this.k, preset, this.policy, st := k, nonce.Some?, policy, INVALID;
      if nonce.Some? {
        N, nlen := MaskNonce(nonce.value.0, nonce.value.1), nonce.value.1;
      } else {
        N, nlen := [], 0;
      }
      klstart, partial, hasN, index, lbl, tagLen, table := 0, [], false, 0, 0, 128, [];
      hashA, csum, offset, Ls, Ld := Zeros(128), Zeros(128), Zeros(128), Zeros(128), Zeros(128);
      new;
      EnterReady();
    }

    method EnterReady()
      requires Valid()
      modifies this
      ensures Valid() && State() == Ready(old(State()))
    {
      hide Zeros;
      ForgetNonce();
      ForgetText();
      table := [];
    }

    method ForgetNonce()
      requires Valid()
      modifies this`st, this`N, this`nlen, this`hasN
      ensures Valid() && State() == old(State()).(st := READY, N := if preset then old(N) else [],
                                                 nlen := if preset then old(nlen) else 0, hasN := false)
    {
      st, hasN := READY, false;
      if !preset {
        N, nlen := [], 0;
      }
    }

    method ForgetText()
      requires Valid() && st == READY
      modifies this`hashA, this`csum, this`index, this`tagLen, this`Ld
      ensures Valid() && State() == old(State()).(hashA := Zeros(128), csum := Zeros(128), index := 0, tagLen := 128,
                                                 Ld := Zeros(128))
    {
      hide Zeros;
      index, tagLen := 0, 128;
      hashA, csum, Ld := Zeros(128), Zeros(128), Zeros(128);
    }

    /** The table of 49 doubled values, entry by entry. */
    method FillTable()
      modifies this`table
      ensures table == Doubles(Ld, TABLE_SIZE)
    {
      hide Double, Doubles;
      var t: seq<Block> := [];
      var x := Ld;
      while |t| < TABLE_SIZE
        invariant |t| <= TABLE_SIZE
        invariant t + Doubles(x, TABLE_SIZE - |t|) == Doubles(Ld, TABLE_SIZE)
      {
        DoublesUnfold(x, TABLE_SIZE - |t|);
        x := Double(x);
        t := t + [x];
      }
      DoublesUnfold(x, 0);
      table := t;
    }

    method StartMessage(xs: nat)
      requires Valid()
      modifies this`st, this`Ls, this`Ld, this`table, this`index, this`tagLen, this`offset
      ensures Valid() && State() == Setup(old(State()), xs)
    {
      hide Double, Doubles, Zeros;
      DeriveMasks();
      index, tagLen, offset := 1, xs, Zeros(128);
      st := ABSORB;
    }

    method DeriveMasks()
      requires Valid()
      modifies this`Ls, this`Ld, this`table
      ensures var L := k.E(Zeros(128));
              Valid() && |table| == TABLE_SIZE &&
              State() == old(State()).(Ls := L, Ld := Double(L), table := Doubles(Double(L), TABLE_SIZE))
    {
      hide Double, Doubles, Zeros;
      Ls := k.E(Zeros(128));
      Ld := Double(Ls);
      FillTable();
    }

    method MaskTag()
      requires Valid()
      modifies this`csum
      ensures Valid() && State() == old(State()).(csum := Masked(old(State()), old(csum), offset))
    {
      hide Xor;
      csum := Xor(k.E(Xor(Xor(csum, offset), Ld)), hashA);
    }

    /** Entering Set_Aux_Value, or starting a message. */
    method EnterFirst(target: int, xs: nat) returns (ok: bool)
      requires Valid() && Admits(preset, st, target) && (target == SAV || target == ABSORB)
      modifies this
      ensures Valid() && ok == Enter(old(State()), target, xs).Some?
      ensures if ok then State() == Enter(old(State()), target, xs).value else State() == old(State())
    {
      hide Setup;
      ok := false;
      if target == SAV {
        if 6 <= xs <= 120 {
          ok, st, nlen, N, hasN := true, SAV, xs, [], false;
        }
      } else if (hasN || preset) && (xs == 64 || xs == 96 || xs == 128) {
        StartMessage(xs);
        ok := true;
      }
    }

    /** The States behind the associated data. */
    method EnterLater(target: int, xs: nat) returns (ok: bool)
      requires Valid() && Admits(preset, st, target) && target != SAV && target != ABSORB
      modifies this`st, this`csum, this`index, this`offset, this`lbl
      ensures Valid() && ok == Enter(old(State()), target, xs).Some?
      ensures if ok then State() == Enter(old(State()), target, xs).value else State() == old(State())
    {
      hide Setup, Masked, StartOffset;
      ok := false;
      if target == ETF || target == VERIFY {
        if lbl == 0 && index <= MAX_BLOCKS {
          MaskTag();
          ok, st := true, target;
        }
      } else if target == ENC || target == DEC {
        ok, st, index, offset := true, target, 1, StartOffset(k.E, N, nlen, tagLen);
      } else if xs % 8 == 0 && xs <= 120 {
        ok, st, lbl := true, target, xs;
      }
    }

    method SetSt(target: int, form: Form, xs: nat, inp: Bits)
      requires Valid()
      modifies this
      ensures Valid() && Same(State(), DoSetSt(old(State()), target, form, xs, inp))
    {
      hide Enter, Ready, Allowed, FormOk;
      if st == INVALID {
        return;
      }
      if target == READY && form == FormA {
        EnterReady();
      } else if target != READY && Admits(preset, st, target) && FormOk(SetForm(target), form, xs, inp)
                && Allowed(policy, target) && (st == HABL ==> lbl == 0) {
        var ok: bool;
        if target == SAV || target == ABSORB {
          ok := EnterFirst(target, xs);
        } else {
          ok := EnterLater(target, xs);
        }
        if !ok {
          st := INVALID;
        }
      } else {
        st := INVALID;
      }
    }

    method ProcessBlock(x: Block) returns (ok: bool, o: Block)
      requires Valid() && (st == ABSORB || st == ENC || st == DEC)
      modifies this`offset, this`hashA, this`csum, this`index
      ensures Valid() && ok == BlockStep(old(State()), x).Some?
      ensures if ok then BlockStep(old(State()), x).value == (State(), o) else State() == old(State())
    {
      hide Ntz, Xor;
      ok, o := index <= MAX_BLOCKS, Zeros(128);
      if !ok {
        return;
      }
      LookupInTable(index);
      offset := Xor(offset, table[Ntz(index)]);
      if st == ABSORB {
        hashA := Xor(hashA, k.E(Xor(x, offset)));
      } else if st == ENC {
        csum := Xor(csum, x);
        o := Xor(offset, k.E(Xor(x, offset)));
      } else {
        o := Xor(offset, k.D(Xor(x, offset)));
        csum := Xor(csum, o);
      }
      index := index + 1;
    }

    /** One block of a transfer that has handed out `out` so far. */
    method NextBlock(x: Block, out: Bits) returns (ok: bool, o: Block)
      requires Valid() && (st == ABSORB || st == ENC || st == DEC)
      modifies this`offset, this`hashA, this`csum, this`index, this`partial
      ensures Valid() && ok == BlockStep(old(State()), x).Some?
      ensures if ok then
                var (m1, o1) := BlockStep(old(State()), x).value; o == o1 && State() == m1.(partial := out + o)
              else State() == old(State()).(partial := out)
    {
      hide BlockStep;
      ok, o := ProcessBlock(x);
      partial := out;
      if ok {
        partial := out + o;
      }
    }

    /** The transfer of blocks from to n - 1; ok is false when a block fails. */
    method Blocks(inp: Bits, from: nat, n: nat, haltAt: Option<nat>) returns (end: End, out: Bits, ghost reached: nat)
      requires Valid() && from < n && (st == ABSORB || st == ENC || st == DEC)
      modifies this`offset, this`hashA, this`csum, this`index, this`partial
      ensures Valid()
      ensures var t := TransferFrom<Ocb>(BlockStep, old(Core()), inp, from, n, from, haltAt, Zeros(128 * from));
              end == t.end && out == t.out && reached == t.reached && (end != Failed ==> Core() == t.s)
      ensures end == Halted ==> HaltsAt(haltAt, 128 * reached)
    {
      hide BlockStep, Slice, TransferFrom, Zeros, Bounded, State, Flatten;
      ghost var t := TransferFrom<Ocb>(BlockStep, Core(), inp, from, n, from, haltAt, Zeros(128 * from));
      out := Zeros(128 * from);
      end := Done;
      var i := from;
      while i < n && end == Done
        invariant Valid() && from <= i <= n && st == old(st)
        invariant if end == Done then t == TransferFrom<Ocb>(BlockStep, Core(), inp, i, n, from, haltAt, out)
                  else t == Transfer(t.s, out, i, end) && (end == Halted ==> HaltsAt(haltAt, 128 * i) && Core() == t.s)
        decreases n - i, end == Done
      {
        TransferUnfold(State(), inp, i, n, from, haltAt, out);
        if HaltsAt(haltAt, 128 * i) && i > from {
          end := Halted;
        } else {
          var ok, o := NextBlock(Slice(inp, 128 * i, 128), out);
          if ok {
            out, i := out + o, i + 1;
          } else {
            end := Failed;
          }
        }
      }
      if end == Done {
        TransferUnfold(State(), inp, i, n, from, haltAt, out);
      }
      reached := i;
    }

    /** The transfer, with the position and the partial output that a halt leaves. */
    method RunBlocks(inp: Bits, from: nat, n: nat, haltAt: Option<nat>) returns (ok: bool, out: Bits,
        ghost reached: nat)
      requires Valid() && from < n && (st == ABSORB || st == ENC || st == DEC)
      modifies this`offset, this`hashA, this`csum, this`index, this`klstart, this`partial
      ensures Valid()
      ensures var r := Concluded(TransferFrom<Ocb>(BlockStep, old(Core()), inp, from, n, from, haltAt,
              Zeros(128 * from)));
              r.reached == reached && if ok then r == Outcome(State(), out, reached)
                  else r.m.st == INVALID && r.out == partial
    {
      hide TransferFrom, BlockStep, Zeros;
      var end;
      end, out, reached := Blocks(inp, from, n, haltAt);
      ok := end != Failed;
      partial := if end == Done then [] else out;
      if end == Halted {
        klstart := haltAt.value;
      }
    }

    /** The transfer over the window of the instruction; ok is false when the instruction fails. */
    method TransferBlocks(inp: Bits, kllen: Option<nat>, at: nat, haltAt: Option<nat>)
      returns (ok: bool, out: Bits, ghost reached: nat)
      requires Valid() && (st == ABSORB || st == ENC || st == DEC)
      modifies this`offset, this`hashA, this`csum, this`index, this`klstart, this`partial
      ensures Valid()
      ensures var r := Multi(old(State()), inp, kllen, at, haltAt);
              r.reached == reached && if ok then r == Outcome(State(), out, reached)
                  else r.m.st == INVALID && r.out == partial
    {
      hide TransferFrom, BlockStep, Zeros, Concluded;
      if kllen.None? || kllen.value % 128 != 0 || at * 8 % 128 != 0 {
        return false, [], 0;
      }
      var from, n := at * 8 / 128, kllen.value / 128;
      partial := [];
      if from < n {
        ok, out, reached := RunBlocks(inp, from, n, haltAt);
      } else {
        ok, out, reached := true, Zeros(128 * from), from;
      }
    }

    method TakeNonce(inp: Bits, kllen: Option<nat>) returns (ok: bool)
      requires Valid()
      modifies this`N, this`hasN
      ensures Valid()
      ensures var r := LoadNonce(old(State()), inp, kllen);
              if ok then r == Outcome(State(), [], 1) else r.m.st == INVALID && r.out == partial
    {
      hide MaskNonce;
      ok := kllen.Some? && kllen.value >= 8 * NonceBytes(nlen);
      if ok {
        N, hasN := MaskNonce(inp, nlen), true;
      }
    }

    method HashLast(inp: Bits, kllen: Option<nat>) returns (ok: bool)
      requires Valid()
      modifies this`offset, this`hashA, this`lbl
      ensures Valid()
      ensures var r := LastAad(old(State()), inp, kllen);
              if ok then r == Outcome(State(), [], 1) else r.m.st == INVALID && r.out == partial
    {
      hide Xor, PadOne, Slice;
      ok := lbl != 0 && kllen.Some? && kllen.value >= lbl && index <= MAX_BLOCKS;
      if ok {
        offset := Xor(offset, Ls);
        hashA := Xor(hashA, k.E(Xor(PadOne(Slice(inp, 0, lbl)), offset)));
        lbl := 0;
      }
    }

    method CryptLast(inp: Bits, kllen: Option<nat>) returns (ok: bool, out: Bits)
      requires Valid() && (st == ELB || st == DLB)
      modifies this`offset, this`csum, this`st
      ensures Valid()
      ensures var r := LastText(old(State()), inp, kllen);
              if ok then r == Outcome(State(), out, 1) else r.m.st == INVALID && r.out == partial
    {
      hide Xor, PadOne, Slice;
      ok, out := true, [];
      if lbl == 0 {
        MaskTag();
      } else if kllen.None? || kllen.value < lbl || index > MAX_BLOCKS {
        return false, [];
      } else {
        var x := Slice(inp, 0, lbl);
        offset := Xor(offset, Ls);
        out := Xor(x, k.E(offset)[..lbl]);
        var t := Xor(offset, PadOne(if st == ELB then x else out));
        csum := Xor(k.E(Xor(Xor(csum, t), Ld)), hashA);
      }
      st := if st == ELB then ETF else VERIFY;
    }

    method HandOutTag(kllen: Option<nat>) returns (ok: bool, out: Bits)
      requires Valid()
      modifies this`st
      ensures Valid()
      ensures var r := EmitTag(old(State()), kllen);
              if ok then r == Outcome(State(), out, 0) else r.m.st == INVALID && r.out == partial
    {
      ok, out := false, [];
      if kllen.Some? && kllen.value >= tagLen {
        ok, st, out := true, SUCCESS, Slice(csum, 0, tagLen);
      }
    }

    method CompareTag(inp: Bits, kllen: Option<nat>) returns (ok: bool)
      requires Valid()
      modifies this`st
      ensures Valid()
      ensures var r := CheckTag(old(State()), inp, kllen);
              if ok then r == Outcome(State(), [], 0) else r.m.st == INVALID && r.out == partial
    {
      ok := false;
      if kllen.Some? && kllen.value >= tagLen {
        ok, st := true, if Slice(inp, 0, tagLen) == Slice(csum, 0, tagLen) then SUCCESS else FAILURE;
      }
    }

    method DoWork(inp: Bits, kllen: Option<nat>, at: nat, haltAt: Option<nat>) returns (ok: bool, out: Bits,
        ghost reached: nat)
      requires Valid()
      modifies this
      ensures Valid()
      ensures var r := Work(old(State()), inp, kllen, at, haltAt);
              if ok then r == Outcome(State(), out, reached) else r.m.st == INVALID && r.out == partial
    {
      hide Multi, LoadNonce, LastAad, LastText, EmitTag, CheckTag;
      out, reached := [], 0;
      if st == SAV {
        ok := TakeNonce(inp, kllen);
        reached := 1;
      } else if st == ABSORB || st == ENC || st == DEC {
        ok, out, reached := TransferBlocks(inp, kllen, at, haltAt);
      } else if st == HABL {
        ok := HashLast(inp, kllen);
        reached := 1;
      } else if st == ELB || st == DLB {
        ok, out := CryptLast(inp, kllen);
        reached := 1;
      } else if st == ETF {
        ok, out := HandOutTag(kllen);
      } else {
        ok := CompareTag(inp, kllen);
      }
    }

    /** kl.exec: the value handed out, also when the instruction fails after part of a transfer. */
    method Exec(form: Form, inp: Bits, kllen: Option<nat>, at: nat, haltAt: Option<nat>) returns (out: Bits)
      requires Valid()
      modifies this
      ensures Valid()
      ensures var r := DoExec(old(State()), form, inp, kllen, at, haltAt);
              Same(State(), r.m) && out == r.out
    {
      hide Work, Allowed, ExecForm, And2;
      if st == INVALID {
        return [];
      }
      klstart := 0;
      var ok := false;
      if Allowed(policy, st) && ExecForm(st, lbl) == Some(form) {
        if kllen.Some? && at * 8 >= kllen.value && !(st == HABL && lbl == 0) {
          return [];
        }
        ghost var reached: nat;
        ok, out, reached := DoWork(inp, kllen, at, haltAt);
      }
      if !ok {
        out, partial, st := partial, [], INVALID;
      }
    }

    method Restrict(mask: nat)
      requires Valid()
      modifies this`policy, this`st
      ensures Valid() && Same(State(), DoRestrict(old(State()), mask))
    {
      if st != INVALID {
        policy := And2(policy, mask);
        if policy == 0 {
          st := INVALID;
        }
      }
    }
  }

  lemma DoublesUnfold(x: Block, n: nat)
    ensures Doubles(x, n) == if n == 0 then [] else [Double(x)] + Doubles(Double(x), n - 1)
  {
  }

  lemma TransferUnfold(m: Ocb, inp: Bits, i: nat, n: nat, k: nat, haltAt: Option<nat>, out: Bits)
    requires i <= n
    ensures var m0: Ocb := m.(partial := []);
            var t, x := TransferFrom<Ocb>(BlockStep, m0, inp, i, n, k, haltAt, out), Slice(inp, 128 * i, 128);
            if i == n then t == Transfer(m0, out, i, Done)
            else if HaltsAt(haltAt, 128 * i) && i > k then t == Transfer(m0, out, i, Halted)
            else if BlockStep(m, x).None? then t == Transfer(m0, out, i, Failed)
            else
              var (m1, o) := BlockStep(m, x).value;
              m1.st == m.st && m1.klstart == m.klstart &&
              t == TransferFrom<Ocb>(BlockStep, m1.(partial := []), inp, i + 1, n, k, haltAt, out + o)
  {
    hide BlockStep, Slice;
    BlockIgnoresPartial(m, Slice(inp, 128 * i, 128));
  }

  lemma BlockIgnoresPartial(m: Ocb, x: Block)
    ensures BlockStep(m.(partial := []), x).Some? == BlockStep(m, x).Some?
    ensures BlockStep(m, x).Some? ==>
              var (m1, o) := BlockStep(m, x).value;
              BlockStep(m.(partial := []), x).value == (m1.(partial := []), o) && m1.st == m.st &&
                  m1.klstart == m.klstart
  {
    hide Ntz, Xor;
    if BlockStep(m, x).Some? {
      LookupInTable(m.index);
    }
  }
}
