/**
 Halts and resumptions of a GCM transfer: an exec that is interrupted and resumed at the position it reports does what
 the uninterrupted one does.
 */
module GcmHalts {
  import opened Wrappers
  import opened Modular
  import opened BitStrings
  import opened Gf128
  import opened AeadBase
  import opened GcmMachine
  import opened GcmReference
  import opened GcmCorrect

  /** What the output starts with changes nothing else. */
  lemma {:induction false} MultiOutput(m: Gcm, inp: Bits, i: nat, n: nat, k: nat, k': nat, haltAt: Option<nat>,
      out: Bits, out': Bits)
    returns (tail: Bits)
    requires i <= n && (haltAt.Some? ==> forall t: nat :: i <= t < n && 8 * haltAt.value == 128 * t ==> (t > k <==>
             t > k'))
    ensures var o, o' := MultiFrom(m, inp, i, n, k, haltAt, out), MultiFrom(m, inp, i, n, k', haltAt, out');
            o.out == out + tail && o'.out == out' + tail && o.m.(partial := []) == o'.m.(partial := []) &&
                o.reached == o'.reached
    decreases n - i
  {
    hide BlockStep, Slice;
    tail := [];
    assert out + [] == out && out' + [] == out';
    if i < n && !(HaltsAt(haltAt, 128 * i) && i > k) {
      match BlockStep(m, Slice(inp, 128 * i, 128))
      case None =>
      case Some((m1, o)) =>
        var rest := MultiOutput(m1, inp, i + 1, n, k, k', haltAt, out + o, out' + o);
        tail := o + rest;
        assert out + o + rest == out + tail && out' + o + rest == out' + tail;
    }
  }

  /** No halt is requested before byte position p. */
  predicate HaltsAfter(haltAt: Option<nat>, p: nat) {
    haltAt.Some? ==> haltAt.value > p
  }

  /** After an interruption the rest of the transfer is what the uninterrupted one still had to do. */
  lemma {:induction false} MultiResumes(m: Gcm, inp: Bits, i: nat, n: nat, k: nat, haltAt: Option<nat>,
      later: Option<nat>, out: Bits)
    requires i <= n && m.st != INVALID && m.partial == [] && m.klstart == 0
    requires var o := MultiFrom(m, inp, i, n, k, haltAt, out); o.m.klstart != 0 && HaltsAfter(later, o.m.klstart)
    ensures var o := MultiFrom(m, inp, i, n, k, haltAt, out);
            i <= o.reached < n && o.m.klstart * 8 == 128 * o.reached && o.m.st == m.st && o.m.policy == m.policy &&
                |o.out| == |out| + 128 * (o.reached - i) &&
            MultiFrom(m, inp, i, n, k, later, out) ==
            MultiFrom(o.m.(klstart := 0, partial := []), inp, o.reached, n, k, later, o.out)
    decreases n - i
  {
    hide BlockStep, Slice;
    if i < n && !(HaltsAt(haltAt, 128 * i) && i > k) {
      BlockKeepsPosition(m, Slice(inp, 128 * i, 128));
      match BlockStep(m, Slice(inp, 128 * i, 128))
      case None =>
      case Some((m1, o)) =>
        MultiResumes(m1, inp, i + 1, n, k, haltAt, later, out + o);
    }
  }

  lemma BlockKeepsPosition(m: Gcm, x: Block)
    ensures BlockStep(m, x).Some? ==>
              var m1 := BlockStep(m, x).value.0;
                  m1.klstart == m.klstart && m1.partial == m.partial && m1.st == m.st && m1.policy == m.policy
  {
    hide GhashMul, NextCtr;
    NextOnlyJ0(m);
  }

  lemma StopPosition(haltAt: Option<nat>, later: Option<nat>, p: nat, kllen: nat, q: nat)
    ensures StopsAt(haltAt, p, kllen) ==> p / 8 * 8 == p && p % 128 == 0 && p < kllen
    ensures HaltsAfter(later, q) && p <= 8 * q ==> !StopsAt(later, p, kllen)
  {
  }

  /** The same for the pieces of an IV; an interruption leaves no incomplete block. */
  lemma {:induction false} VliResumes(m: Gcm, inp: Bits, ib: nat, kllen: nat, haltAt: Option<nat>, later: Option<nat>)
    requires VliOk(m) && m.st == SAV && m.klstart == 0
    requires var o := VliFrom(m, inp, ib, kllen, haltAt); o.m.klstart != 0 && HaltsAfter(later, o.m.klstart)
    ensures var o := VliFrom(m, inp, ib, kllen, haltAt);
            ib < o.reached < kllen && o.m.klstart * 8 == o.reached && o.reached % 128 == 0 && o.m.blockBase == 0 &&
                VliOk(o.m) &&
            o.m.st == SAV && m.cumul <= o.m.cumul && o.m.len == m.len && o.m.policy == m.policy && o.out == [] &&
            VliFrom(m, inp, ib, kllen, later) == VliFrom(o.m.(klstart := 0), inp, o.reached, kllen, later)
    decreases kllen - ib
  {
    hide VliPiece, Finalize, Slice, Amount, StopsAt, HaltsAfter;
    assert ib < kllen;
    hide VliFrom;
    VliUnfold(m, inp, ib, kllen, haltAt);
    VliUnfold(m, inp, ib, kllen, later);
    var amt := Amount(m, ib, kllen);
    var m1 := VliPiece(m, inp, ib, amt);
    var o := VliFrom(m, inp, ib, kllen, haltAt);
    StopPosition(haltAt, later, ib + amt, kllen, o.m.klstart);
    if m1.cumul != m1.len && !StopsAt(haltAt, ib + amt, kllen) {
      VliResumes(m1, inp, ib + amt, kllen, haltAt, later);
    }
  }

  lemma LastKeepsPosition(m: Gcm, inp: Bits, kllen: Option<nat>)
    ensures LastBlock(m, inp, kllen).m.klstart == m.klstart && EmitTag(m, kllen).m.klstart == m.klstart &&
            CheckTag(m, inp, kllen).m.klstart == m.klstart
  {
    hide GhashMul, NextCtr, Xor, Slice;
    NextOnlyJ0(m);
  }

  lemma MultiHalted(m: Gcm, inp: Bits, kllen: nat, at: nat, haltAt: Option<nat>, later: Option<nat>)
    requires m.st == ABSORB || m.st == ENC || m.st == DEC
    requires m.klstart == 0
    requires var o1 := Multi(m, inp, Some(kllen), at, haltAt); o1.m.klstart != 0 && HaltsAfter(later, o1.m.klstart)
    ensures var o1 := Multi(m, inp, Some(kllen), at, haltAt);
            var o2, o := Multi(o1.m.(klstart := 0), inp, Some(kllen), o1.m.klstart, later), Multi(m, inp, Some(kllen),
                at, later);
            o1.m.st == m.st && o1.m.policy == m.policy && o1.m.klstart * 8 < kllen &&
            o2.m.(partial := []) == o.m.(partial := []) && o2.reached == o.reached &&
            Completes(o1.out, o2.out, o.out)
  {
    hide MultiFrom;
    var k, n := at * 8 / 128, kllen / 128;
    var m0 := m.(partial := []);
    MultiResumes(m0, inp, k, n, k, haltAt, later, Zeros(128 * k));
    var o1 := MultiFrom(m0, inp, k, n, k, haltAt, Zeros(128 * k));
    var r := o1.reached;
    var tail := MultiOutput(o1.m.(klstart := 0, partial := []), inp, r, n, k, r, later, o1.out, Zeros(128 * r));
    assert (Zeros(128 * r) + tail)[|o1.out|..] == tail;
  }

  lemma VliHalted(m: Gcm, inp: Bits, kllen: nat, at: nat, haltAt: Option<nat>, later: Option<nat>)
    requires m.st == SAV && m.klstart == 0
    requires var o1 := Vli(m, inp, Some(kllen), at, haltAt); o1.m.klstart != 0 && HaltsAfter(later, o1.m.klstart)
    ensures var o1 := Vli(m, inp, Some(kllen), at, haltAt);
            o1.m.st == SAV && o1.m.policy == m.policy && o1.m.klstart * 8 < kllen && o1.out == [] &&
            Vli(o1.m.(klstart := 0), inp, Some(kllen), o1.m.klstart, later) == Vli(m, inp, Some(kllen), at, later)
  {
    hide VliFrom;
    VliResumes(m, inp, 8 * at, kllen, haltAt, later);
  }

  /** An exec whose window is not empty and which its State admits. */
  predicate ExecAdmitted(m: Gcm, form: Form, kllen: nat, at: nat) {
    Allowed(m.policy, m.st) && ExecForm(m.st) == Some(form) && (at * 8 < kllen || ((m.st == ELB || m.st == DLB) &&
        m.lbl == 0))
  }

  lemma ExecIsWork(m: Gcm, form: Form, inp: Bits, kllen: nat, at: nat, haltAt: Option<nat>)
    requires m.st != INVALID
    ensures var o := DoExec(m, form, inp, Some(kllen), at, haltAt);
            if ExecAdmitted(m, form, kllen, at) then o == Work(m.(klstart := 0), inp, Some(kllen), at, haltAt)
            else o.m.klstart == 0
  {
    hide Work;
  }

  /** Only a transfer of blocks or of an IV can be interrupted. */
  lemma OnlyTransfersHalt(m: Gcm, inp: Bits, kllen: nat, at: nat, haltAt: Option<nat>)
    requires m.klstart == 0 && Work(m, inp, Some(kllen), at, haltAt).m.klstart != 0
    ensures m.st == SAV || m.st == ABSORB || m.st == ENC || m.st == DEC
  {
    hide Multi, Vli, LastBlock, EmitTag, CheckTag;
    LastKeepsPosition(m, inp, Some(kllen));
  }

  /** The outputs of an interrupted exec and of its resumption are the two parts of one output. */
  predicate Completes(first: Bits, second: Bits, whole: Bits) {
    |first| <= |second| && first + second[|first|..] == whole
  }

  /**
   Interrupting an exec and resuming it where it stopped changes nothing: the locker and the assembled output are those
   of the exec that was not interrupted there.  In particular every position that a halt reports is accepted.
   */
  lemma ResumedIsUninterrupted(m: Gcm, form: Form, inp: Bits, kllen: nat, at: nat, haltAt: Option<nat>,
      later: Option<nat>)
    requires m.st != INVALID
    requires var o1 := DoExec(m, form, inp, Some(kllen), at, haltAt);
             o1.m.klstart != 0 && HaltsAfter(later, o1.m.klstart)
    ensures var o1 := DoExec(m, form, inp, Some(kllen), at, haltAt);
            var o2, o := DoExec(o1.m, form, inp, Some(kllen), o1.m.klstart, later), DoExec(m, form, inp, Some(kllen),
                at, later);
            o1.m.st == m.st && o2.m.(partial := []) == o.m.(partial := []) && o2.reached == o.reached &&
            (if m.st == SAV then o1.out == [] && o2.out == o.out else Completes(o1.out, o2.out, o.out))
  {
    hide DoExec, Multi, Vli, LastBlock, EmitTag, CheckTag, Completes;
    ExecIsWork(m, form, inp, kllen, at, haltAt);
    ExecIsWork(m, form, inp, kllen, at, later);
    var m0 := m.(klstart := 0);
    OnlyTransfersHalt(m0, inp, kllen, at, haltAt);
    var o1 := Work(m0, inp, Some(kllen), at, haltAt);
    if m.st == SAV {
      VliHalted(m0, inp, kllen, at, haltAt, later);
    } else {
      MultiHalted(m0, inp, kllen, at, haltAt, later);
    }
    ExecIsWork(o1.m, form, inp, kllen, o1.m.klstart, later);
  }

  // ---------------------------------------------------------------- how much one message may hold

  /** Blocks are admitted up to 2^32 - 2 in all, and the block after that fails. */
  lemma {:induction false} BlocksAdmitted(m: Gcm, h: History, inp: Bits, i: nat, n: nat, k: nat, out: Bits)
    requires (m.st == ENC || m.st == DEC) && Inv(m, h) && i <= n
    ensures |h.ins| <= MAX_MESSAGE
    ensures MultiFrom(m, inp, i, n, k, None, out).m.st == (if |h.ins| + (n - i) <= MAX_MESSAGE then m.st else INVALID)
    decreases n - i
  {
    hide Inv, BlockStep, Slice, Extended;
    var x := Slice(inp, 128 * i, 128);
    BlockAdmitted(m, h, x);
    if i < n && BlockStep(m, x).Some? {
      var (m1, o) := BlockStep(m, x).value;
      BlockKeepsInv(m, h, x);
      ExtendedInputs(m.st, h, x, o);
      BlocksAdmitted(m1, Extended(m.st, h, [x], [o]), inp, i + 1, n, k, out + o);
    }
  }

  lemma ExtendedInputs(st: int, h: History, x: Block, o: Block)
    requires st != ABSORB
    ensures |Extended(st, h, [x], [o]).ins| == |h.ins| + 1
  {
  }

  lemma BlockAdmitted(m: Gcm, h: History, x: Block)
    requires (m.st == ENC || m.st == DEC) && Inv(m, h)
    ensures |h.ins| <= MAX_MESSAGE && (BlockStep(m, x).Some? <==> |h.ins| < MAX_MESSAGE)
  {
    hide GhashMul, Absorb, CtrBlock, GcmJ0, Ctr32, Keystreamed, NextCtr, CipherBlocks;
    var j0 := J0Of(m, h);
    KeystreamedUsed(m.E, j0, h);
    CounterAdmits(m, j0, |h.ins|);
  }

  /** An uninterrupted, well-formed transfer fails exactly when it would exceed the blocks that one IV admits. */
  lemma TransferAdmitted(m: Gcm, h: History, inp: Bits, kllen: nat, at: nat)
    requires (m.st == ENC || m.st == DEC) && Inv(m, h) && Allowed(m.policy, m.st)
    requires kllen % 128 == 0 && at * 8 % 128 == 0 && at * 8 < kllen
    ensures DoExec(m, FormA, inp, Some(kllen), at, None).m.st ==
            (if |h.ins| + (kllen - at * 8) / 128 <= MAX_MESSAGE then m.st else INVALID)
  {
    hide Inv, MultiFrom;
    var k, n := at * 8 / 128, kllen / 128;
    InvIgnoresPosition(m, h, 0, []);
    BlocksAdmitted(m.(klstart := 0, partial := []), h, inp, k, n, k, Zeros(128 * k));
  }
}
