/**
 Whole runs of the CMAC Machine: the tag is CMAC of the message, and a locker that was exported and imported behaves
 as the original.
 */
module CmacRuns {
  import opened Wrappers
  import opened Modular
  import opened BitStrings
  import opened BitFields
  import opened Gf128
  import opened AeadBase
  import opened BlockNumbers
  import opened Transfers
  import opened CmacMachine

  /** The whole blocks absorbed, and the last one. */
  datatype History = History(blocks: seq<Block>, last: Bits)

  const NOTHING: History := History([], [])

  function Message(h: History): Bits {
    Flatten(h.blocks) + h.last
  }

  function HistoryStep(m: Cmac, h: History, i: Instr): History {
    var o := Step(m, i);
    match i
    case SetSt(st, form, xs, inp) => if st == READY then NOTHING else h
    case Exec(form, inp, kllen, klstart, haltAt) =>
      if m.st == ABSORB then
        var k := klstart * 8 / 128;
        if o.reached <= k then h else h.(blocks := h.blocks + InputBlocks(inp, k, o.reached))
      else if m.st == HABL && o.reached == 1 then h.(last := Slice(inp, 0, m.lbl))
      else h
    case Restrict(_) => h
  }

  // ---------------------------------------------------------------- the invariant

  /** Only whole blocks so far, chained. */
  ghost predicate AtBlocks(m: Cmac, h: History) {
    h.last == [] && !m.all && (m.any <==> h.blocks != []) && m.hash == ChainLoop(m.E, Flatten(h.blocks), |h.blocks|)
  }

  /** The message is complete. */
  ghost predicate AtEnd(m: Cmac, h: History) {
    m.all && |Message(h)| % 8 == 0 && m.hash == MacOf(m.E, Message(h))
  }

  ghost predicate Inv(m: Cmac, h: History) {
    m.st != INVALID ==>
      && AdmitsTagLen(m.tagLenP) && m.lbl <= 128 && m.lbl % 8 == 0 && m.tagLen <= 128 &&
          !(exists i :: Bit(m.partial, i))
      && (m.st == READY || m.st == ABSORB ==> AtBlocks(m, h))
      && (m.st == READY ==> h.blocks == [])
      && (m.st == HABL ==> AtEnd(m, h) || (AtBlocks(m, h) && m.lbl != 0))
      && (m.st == HOUT || m.st == VERIFY ==> AtEnd(m, h))
      && (m.st == VERIFY ==> m.tagLen == m.tagLenP)
  }

  lemma {:induction false} ChainPrefix(E: Cipher, msg: Bits, x: Bits, i: nat)
    requires 128 * i <= |msg|
    ensures ChainLoop(E, msg + x, i) == ChainLoop(E, msg, i)
  {
    if i > 0 {
      ChainPrefix(E, msg, x, i - 1);
      assert BlockAt(msg + x, i - 1) == BlockAt(msg, i - 1);
    }
  }

  lemma ChainNext(E: Cipher, b: seq<Block>, x: Block)
    ensures ChainLoop(E, Flatten(b + [x]), |b| + 1) == E(Xor(ChainLoop(E, Flatten(b), |b|), x))
  {
    hide Flatten;
    FlattenSnoc(b, x);
    ChainPrefix(E, Flatten(b), x, |b|);
    assert BlockAt(Flatten(b) + x, |b|) == x;
  }

  /** What closes the chain is what closes the whole message. */
  lemma Closes(E: Cipher, b: seq<Block>, x: Bits)
    requires |x| <= 128 && |x| % 8 == 0 && (x == [] ==> b == [])
    ensures |Flatten(b) + x| % 8 == 0
    ensures var c := ChainLoop(E, Flatten(b), |b|);
            MacOf(E, Flatten(b) + x) ==
            E(if |x| == 128 then Xor(Xor(c, x), Subkey1(E)) else Xor(Xor(c, PadOne(x)), Subkey2(E)))
  {
    hide Flatten, PadOne, Subkey1, Subkey2, ChainLoop, MacOf, Before, Xor;
    var msg, c := Flatten(b) + x, ChainLoop(E, Flatten(b), |b|);
    WholeBytes(|b|, |x|);
    BeforeLast(|b|, |x|);
    assert msg[128 * |b|..] == x;
    MacUnfold(E, msg, |b|, x);
    ChainPrefix(E, Flatten(b), x, |b|);
    if |x| == 128 {
      XorLaws(c, x, Subkey1(E));
    } else {
      XorLaws(c, PadOne(x), Subkey2(E));
    }
  }

  lemma WholeBytes(k: nat, n: nat)
    requires n % 8 == 0
    ensures (128 * k + n) % 8 == 0
  {
  }

  lemma MacUnfold(E: Cipher, msg: Bits, k: nat, last: Bits)
    requires |msg| % 8 == 0 && k == Before(|msg|) && 128 * k <= |msg| && last == msg[128 * k..]
    ensures |last| <= 128 && (|last| < 128 ==> |last| <= 120)
    ensures MacOf(E, msg) ==
            E(Xor(ChainLoop(E, msg, k), if |last| == 128 then Xor(last, Subkey1(E)) else Xor(PadOne(last), Subkey2(E))))
  {
    hide PadOne, RefPad, Double, RefDouble, ChainLoop, Xor;
    DoubleIsReference(E(Zeros(128)));
    DoubleIsReference(Subkey1(E));
    if |msg[128 * k..]| <= 120 {
      PadIsReference(msg[128 * k..]);
    }
  }

  lemma BeforeLast(k: nat, n: nat)
    requires n <= 128 && (n == 0 ==> k == 0)
    ensures Before(128 * k + n) == k
  {
  }

  lemma BlockKeeps(m: Cmac, h: History, x: Block)
    requires m.st == ABSORB && Inv(m, h)
    ensures Inv(BlockStep(m, x).value.0, h.(blocks := h.blocks + [x]))
  {
    hide ChainLoop, MacOf;
    ChainNext(m.E, h.blocks, x);
  }

  ghost predicate Transferred(h: History, m: Cmac, xs: seq<Block>, ys: seq<Block>) {
    m.st == ABSORB && Inv(m, h.(blocks := h.blocks + xs)) && forall i :: 0 <= i < |ys| ==> ys[i] == Zeros(128)
  }

  lemma {:induction false} ZeroBlocks(b: seq<Block>)
    requires forall i :: 0 <= i < |b| ==> b[i] == Zeros(128)
    ensures Flatten(b) == Zeros(128 * |b|)
  {
    if b != [] {
      assert forall i :: 0 <= i < |b| - 1 ==> b[1..][i] == b[i + 1];
      ZeroBlocks(b[1..]);
    }
  }

  lemma InvIgnoresPosition(m: Cmac, h: History, klstart: nat, n: nat)
    requires Inv(m, h)
    ensures Inv(m.(klstart := klstart, partial := Zeros(n)), h) && Inv(m.(klstart := klstart), h)
  {
    hide ChainLoop, MacOf, Flatten;
  }

  lemma TransferKeepsInv(m: Cmac, h: History, inp: Bits, k: nat, n: nat, haltAt: Option<nat>)
    requires m.st == ABSORB && Inv(m, h) && k <= n
    ensures var t := TransferFrom<Cmac>(BlockStep, m, inp, k, n, k, haltAt, Zeros(128 * k));
            k <= t.reached <= n && t.out == Zeros(128 * t.reached) && t.s.st == ABSORB &&
            Inv(t.s, h.(blocks := h.blocks + InputBlocks(inp, k, t.reached)))
  {
    hide Inv, BlockStep, InputBlocks, Flatten;
    var keeps := (s: Cmac, xs: seq<Block>, ys: seq<Block>) => Transferred(h, s, xs, ys);
    assert h.(blocks := h.blocks + []) == h;
    forall s: Cmac, xs: seq<Block>, ys: seq<Block>, x: Block | keeps(s, xs, ys) && BlockStep(s, x).Some?
      ensures keeps(BlockStep(s, x).value.0, xs + [x], ys + [BlockStep(s, x).value.1])
    {
      BlockKeeps(s, h.(blocks := h.blocks + xs), x);
      assert h.blocks + xs + [x] == h.blocks + (xs + [x]);
      StepKeepsState(s, x);
    }
    var outs := TransferKeeps<Cmac>(BlockStep, keeps, m, [], [], inp, k, n, k, haltAt, Zeros(128 * k));
    assert [] + outs == outs;
    ZeroBlocks(outs);
    var r := TransferFrom<Cmac>(BlockStep, m, inp, k, n, k, haltAt, Zeros(128 * k)).reached;
    assert Zeros(128 * k) + Zeros(128 * (r - k)) == Zeros(128 * r);
    assert [] + InputBlocks(inp, k, r) == InputBlocks(inp, k, r);
  }

  lemma StepKeepsState(m: Cmac, x: Block)
    ensures BlockStep(m, x).Some? && BlockStep(m, x).value.0.st == m.st && BlockStep(m, x).value.1 == Zeros(128)
  {
  }

  lemma MultiKeepsInv(m: Cmac, h: History, inp: Bits, kllen: Option<nat>, klstart: nat, haltAt: Option<nat>)
    requires m.st == ABSORB && Inv(m, h)
    ensures var o, k := Multi(m, inp, kllen, klstart, haltAt), klstart * 8 / 128;
            o.m.st != INVALID ==>
              Inv(o.m, if o.reached <= k then h else h.(blocks := h.blocks + InputBlocks(inp, k, o.reached)))
  {
    hide Inv, TransferFrom, BlockStep, InputBlocks, Flatten;
    var k := klstart * 8 / 128;
    InvIgnoresPosition(m, h, m.klstart, 0);
    assert Zeros(0) == [];
    if kllen.Some? && kllen.value % 128 == 0 && klstart * 8 % 128 == 0 && k < kllen.value / 128 {
      var n, m0 := kllen.value / 128, m.(partial := []);
      TransferKeepsInv(m0, h, inp, k, n, haltAt);
      var t := TransferFrom<Cmac>(BlockStep, m0, inp, k, n, k, haltAt, Zeros(128 * k));
      InvIgnoresPosition(t.s, h.(blocks := h.blocks + InputBlocks(inp, k, t.reached)), 16 * t.reached, 128 * t.reached);
      if t.reached == k {
        assert h.blocks + InputBlocks(inp, k, k) == h.blocks by { NoBlocks(inp, k); }
      }
    }
  }

  lemma NoBlocks(inp: Bits, k: nat)
    ensures InputBlocks(inp, k, k) == []
  {
  }

  lemma LastKeepsInv(m: Cmac, h: History, inp: Bits, kllen: Option<nat>)
    requires m.st == HABL && Inv(m, h)
    ensures var o := LastBlock(m, inp, kllen);
            o.m.st != INVALID ==> o.reached == 1 && Inv(o.m, h.(last := Slice(inp, 0, m.lbl)))
  {
    hide ChainLoop, MacOf, Flatten, PadOne, Subkey1, Subkey2, Xor;
    if !m.all {
      Closes(m.E, h.blocks, Slice(inp, 0, m.lbl));
    }
  }

  lemma SetStKeepsInv(m: Cmac, h: History, st: int, form: Form, xs: nat, inp: Bits)
    requires Inv(m, h)
    ensures Inv(DoSetSt(m, st, form, xs, inp), if st == READY then NOTHING else h)
  {
    hide ChainLoop, MacOf, Flatten, PadOne, Subkey1, Subkey2, Xor;
    if st == READY {
      NothingChained(m.E);
    } else if st == HABL && m.st == ABSORB && h.blocks == [] {
      Closes(m.E, h.blocks, []);
    }
  }

  lemma NothingChained(E: Cipher)
    ensures ChainLoop(E, Flatten([]), 0) == Zeros(128)
  {
  }

  lemma EndKeepsInv(m: Cmac, h: History, inp: Bits, kllen: Option<nat>)
    requires Inv(m, h)
    ensures m.st == HOUT ==> Inv(EmitTag(m, kllen).m, h)
    ensures m.st == VERIFY ==> Inv(CheckTag(m, inp, kllen).m, h)
  {
    hide ChainLoop, MacOf, Flatten;
  }

  /** Every instruction keeps the invariant. */
  lemma StepKeepsInv(m: Cmac, h: History, i: Instr)
    requires Inv(m, h)
    ensures Inv(Step(m, i).m, HistoryStep(m, h, i))
  {
    hide Inv, Multi, LastBlock, EmitTag, CheckTag, DoSetSt, InputBlocks;
    if Step(m, i).m.st == INVALID {
      FailedInv(Step(m, i).m, HistoryStep(m, h, i));
    } else {
      match i
      case SetSt(st, form, xs, inp) => SetStKeepsInv(m, h, st, form, xs, inp);
      case Exec(form, inp, kllen, klstart, haltAt) =>
        InvIgnoresPosition(m, h, 0, 0);
        var m0 := m.(klstart := 0);
        if m.st == ABSORB {
          MultiKeepsInv(m0, h, inp, kllen, klstart, haltAt);
        } else if m.st == HABL {
          LastKeepsInv(m0, h, inp, kllen);
        } else {
          EndKeepsInv(m0, h, inp, kllen);
        }
      case Restrict(mask) => RestrictKeepsInv(m, h, And2(m.policy, mask));
    }
  }

  lemma FailedInv(m: Cmac, h: History)
    requires m.st == INVALID
    ensures Inv(m, h)
  {
  }

  lemma RestrictKeepsInv(m: Cmac, h: History, p: nat)
    requires Inv(m, h)
    ensures Inv(m.(policy := p), h)
  {
    hide ChainLoop, MacOf, Flatten;
  }

  function After(m: Cmac, h: History, instrs: seq<Instr>): (Cmac, History)
    decreases instrs
  {
    if instrs == [] then (m, h) else After(Step(m, instrs[0]).m, HistoryStep(m, h, instrs[0]), instrs[1..])
  }

  lemma {:induction false} RunKeepsInv(m: Cmac, h: History, instrs: seq<Instr>)
    requires Inv(m, h)
    ensures var (m', h') := After(m, h, instrs); Inv(m', h') && m'.E == m.E && m'.tagLenP == m.tagLenP
    decreases instrs
  {
    hide Inv, Step, HistoryStep;
    if instrs != [] {
      StepKeepsInv(m, h, instrs[0]);
      StepKeepsKey(m, instrs[0]);
      RunKeepsInv(Step(m, instrs[0]).m, HistoryStep(m, h, instrs[0]), instrs[1..]);
    }
  }

  ghost predicate SameKey(E: Cipher, tagLenP: nat, st: int, m: Cmac) {
    m.E == E && m.tagLenP == tagLenP && m.st == st
  }

  lemma StepKeepsKey(m: Cmac, i: Instr)
    ensures Step(m, i).m.E == m.E && Step(m, i).m.tagLenP == m.tagLenP
  {
    hide TransferFrom, Xor, PadOne, Subkey1, Subkey2;
    if i.Exec? && i.kllen.Some? && i.klstart * 8 / 128 <= i.kllen.value / 128 {
      var m0, k, n := m.(klstart := 0, partial := []), i.klstart * 8 / 128, i.kllen.value / 128;
      hide InputBlocks;
      var outs := TransferKeeps<Cmac>(BlockStep, (s: Cmac, xs: seq<Block>, ys: seq<Block>) => SameKey(m.E, m.tagLenP,
          m.st, s),
                                      m0, [], [], i.inp, k, n, k, i.haltAt, Zeros(128 * k));
    }
  }

  function AfterRun(E: Cipher, policy: nat, tagLenP: nat, instrs: seq<Instr>): (Cmac, History)
    requires 0 < policy < 4
  {
    After(Create(E, policy, tagLenP), NOTHING, instrs)
  }

  lemma RunFacts(E: Cipher, policy: nat, tagLenP: nat, instrs: seq<Instr>)
    requires 0 < policy < 4
    ensures var (m, h) := AfterRun(E, policy, tagLenP, instrs); Inv(m, h) && m.E == E && m.tagLenP == tagLenP
  {
    hide After;
    NothingChained(E);
    RunKeepsInv(Create(E, policy, tagLenP), NOTHING, instrs);
  }

  /**
   The tag.  After any run, an admitted exec in Hash_Output hands out the truncated CMAC of the message, and one in
   Verify succeeds exactly if it is given that.
   */
  lemma TagIsCmac(E: Cipher, policy: nat, tagLenP: nat, instrs: seq<Instr>, given: Bits, kllen: nat)
    requires 0 < policy < 4 && kllen >= tagLenP
    ensures var (m, h) := AfterRun(E, policy, tagLenP, instrs);
            m.st == HOUT || m.st == VERIFY ==>
              |Message(h)| % 8 == 0 &&
              var T := Slice(MacOf(E, Message(h)), 0, tagLenP);
              var o, v := Step(m, Exec(FormC, [], Some(kllen), 0, None)), Step(m, Exec(FormB, given, Some(kllen), 0,
                  None));
              (m.st == HOUT && m.policy % 2 == 1 ==> o.out == T && o.m.st == SUCCESS) &&
              (m.st == VERIFY && m.policy / 2 % 2 == 1 ==>
                v.m.st == if Slice(given, 0, tagLenP) == T then SUCCESS else FAILURE)
  {
    hide AfterRun, MacOf, Slice, ChainLoop, Flatten;
    RunFacts(E, policy, tagLenP, instrs);
  }

  // ---------------------------------------------------------------- export and import

  lemma SmallNumber(x: nat)
    requires x <= 128
    ensures ToNat(FromNat(x, 32)) == x
  {
    hide ToNat, FromNat;
    NatRoundTrip(x, 32);
    assert Pow2(8) == 256;
    PowersGrow(8, 32);
    SmallMod(x, Pow2(32));
  }

  /** Importing what was exported restores all but the halt position and the output pending, which is zero. */
  lemma ImportExport(F: Family, m: Cmac, h: History, key: Bits)
    requires Inv(m, h) && m.st != INVALID && m.E == F(key)
    ensures Import(F, |key|, m.policy, m.tagLenP, m.st, Export(m, key)) == m.(klstart := 0, partial := [])
  {
    hide FromNat, ToNat, ChainLoop, MacOf, Flatten;
    CutFields(Parts(m, key), [|key|, 128, 32, 32, 1, 1]);
    SmallNumber(m.lbl);
    SmallNumber(m.tagLen);
  }

  /** The two lockers hand out the same values and are in the same States, instruction by instruction. */
  ghost predicate Agree(a: Cmac, b: Cmac, instrs: seq<Instr>)
    decreases instrs
  {
    a.st == b.st &&
    (instrs != [] ==>
      SameValue(Step(a, instrs[0]).out, Step(b, instrs[0]).out) &&
      Agree(Step(a, instrs[0]).m, Step(b, instrs[0]).m, instrs[1..]))
  }

  /** The same locker but for position and pending output. */
  ghost predicate Alike(a: Cmac, b: Cmac) {
    a.st == b.st && (a.st != INVALID ==> b == a.(klstart := b.klstart, partial := b.partial))
  }

  lemma SetStAlike(a: Cmac, b: Cmac, st: int, form: Form, xs: nat, inp: Bits)
    requires Alike(a, b)
    ensures Alike(DoSetSt(a, st, form, xs, inp), DoSetSt(b, st, form, xs, inp))
  {
    hide Xor, PadOne, Subkey2, FormOk, Permits;
  }

  lemma WorkAlike(a: Cmac, b: Cmac, inp: Bits, kllen: Option<nat>, klstart: nat, haltAt: Option<nat>)
    requires a.st != INVALID && Alike(a, b) && a.klstart == b.klstart && SameValue(a.partial, b.partial)
    requires a.st == ABSORB || a.st == HABL || a.st == HOUT || a.st == VERIFY
    ensures var oa, ob := Work(a, inp, kllen, klstart, haltAt), Work(b, inp, kllen, klstart, haltAt);
            Alike(oa.m, ob.m) && SameValue(oa.out, ob.out)
  {
    hide Xor, PadOne, Subkey1, Subkey2, TransferFrom, Slice;
    assert a.(partial := []) == b.(partial := []);
  }

  lemma PendingIsZero(m: Cmac, h: History)
    requires Inv(m, h) && m.st != INVALID
    ensures SameValue(m.partial, [])
  {
    hide AtBlocks, AtEnd;
  }

  lemma ExecAlike(a: Cmac, b: Cmac, form: Form, inp: Bits, kllen: Option<nat>, klstart: nat, haltAt: Option<nat>)
    requires Alike(a, b) && (a.st != INVALID ==> SameValue(a.partial, b.partial))
    ensures var oa, ob := DoExec(a, form, inp, kllen, klstart, haltAt), DoExec(b, form, inp, kllen, klstart, haltAt);
            Alike(oa.m, ob.m) && SameValue(oa.out, ob.out)
  {
    hide Work, SameValue, Permits;
    SameSelf([]);
    if a.st != INVALID && ExecForm(a.st).Some? {
      WorkAlike(a.(klstart := 0), b.(klstart := 0), inp, kllen, klstart, haltAt);
    }
  }

  lemma StepAlike(a: Cmac, b: Cmac, ha: History, hb: History, i: Instr)
    requires Inv(a, ha) && Inv(b, hb) && Alike(a, b)
    ensures Alike(Step(a, i).m, Step(b, i).m) && SameValue(Step(a, i).out, Step(b, i).out)
  {
    hide Inv, DoSetSt, DoExec, InputBlocks;
    if a.st != INVALID {
      PendingIsZero(a, ha);
      PendingIsZero(b, hb);
    }
    match i
    case SetSt(st, form, xs, inp) => SetStAlike(a, b, st, form, xs, inp);
    case Exec(form, inp, kllen, klstart, haltAt) => ExecAlike(a, b, form, inp, kllen, klstart, haltAt);
    case Restrict(mask) =>
  }

  lemma {:induction false} RunsAgree(a: Cmac, b: Cmac, ha: History, hb: History, instrs: seq<Instr>)
    requires Inv(a, ha) && Inv(b, hb) && Alike(a, b)
    ensures Agree(a, b, instrs)
    decreases instrs
  {
    hide Inv, Step, HistoryStep, SameValue;
    if instrs != [] {
      var i := instrs[0];
      StepAlike(a, b, ha, hb, i);
      StepKeepsInv(a, ha, i);
      StepKeepsInv(b, hb, i);
      RunsAgree(Step(a, i).m, Step(b, i).m, HistoryStep(a, ha, i), HistoryStep(b, hb, i), instrs[1..]);
    }
  }

  /** After any run that leaves the locker valid, its imported copy does the same under every later run. */
  lemma ImportBehaves(F: Family, key: Bits, policy: nat, tagLenP: nat, instrs: seq<Instr>, later: seq<Instr>)
    requires 0 < policy < 4 && AfterRun(F(key), policy, tagLenP, instrs).0.st != INVALID
    ensures var m := AfterRun(F(key), policy, tagLenP, instrs).0;
            Agree(m, Import(F, |key|, m.policy, m.tagLenP, m.st, Export(m, key)), later)
  {
    hide AfterRun, Inv, Import, Export, Agree;
    RunFacts(F(key), policy, tagLenP, instrs);
    var (m, h) := AfterRun(F(key), policy, tagLenP, instrs);
    ImportExport(F, m, h, key);
    InvIgnoresPosition(m, h, 0, 0);
    assert Zeros(0) == [];
    RunsAgree(m, m.(klstart := 0, partial := []), h, h, later);
  }
}
