/**
 Whole runs of the EdDSA locker.  Next to the locker we keep what the current series of passes was given: the seed and
 the context when the first pass began, the two messages, and what has been handed out.
 */
module EddsaRuns {
  import opened Wrappers
  import opened Modular
  import opened Digits
  import opened Streams
  import opened EddsaMachine

  /** first and signed are the messages of the two passes, fed is what the current pass was given so far. */
  datatype History = History(seed: Bytes, ctx: Bytes, fed: Bytes, first: Bytes, signed: Bytes, R: Bytes, emitted: Bytes,
                             two: bool)

  const NOTHING: History := History([], [], [], [], [], [], [], false)

  function Context(m: Ed): Bytes
    requires m.ctxLen <= |m.f.ctx|
  {
    m.f.ctx[..m.ctxLen]
  }

  function HistoryStep(E: Curve, m: Ed, h: History, i: Instr): History
    requires CurveOk(E) && Ok(E.kind, m) && Ok(E.kind, Step(E, m, i).m)
  {
    var m', out := Step(E, m, i).m, Step(E, m, i).out;
    match i
    case SetSt(target, form, xs, random) =>
      if target == RDY then NOTHING
      else if target == 0 then h
      else
        var h1 := if m.st == MABS && m.pass == 0 then h.(first := h.fed, R := m'.f.sig[..Width(E.kind)])
                  else if m.st == MABS then h.(signed := h.fed) else h;
        if target != MABS then h1.(two := false)
        else if xs == 0 then h1.(seed := m'.f.scalar, ctx := Context(m'), fed := [], two := false)
        else h1.(fed := [], two := false)
    case ExecIn(data) => if m.st == MABS then h.(fed := h.fed + data) else h
    case ExecD(halt) => if halt then h else h.(two := m.st == SGN && m.msgPass == 2, emitted := [])
    case ExecOut(n) => h.(emitted := h.emitted + out)
    case _ => h
  }

  // ---------------------------------------------------------------- the invariant

  /** The nonce scalar of a message. */
  function NonceOf(E: Curve, seed: Bytes, ctx: Bytes, M: Bytes): nat
    requires CurveOk(E) && |ctx| <= 255
  {
    HashToScalar(E, Dom(E.kind, 0, ctx) + Expand(E, seed).1 + M)
  }

  function PointOf(E: Curve, r: nat): (R: Bytes)
    requires CurveOk(E)
    ensures |R| == Width(E.kind)
  {
    E.enc(E.mul(r, E.base))
  }

  function ChallengeOf(E: Curve, seed: Bytes, ctx: Bytes, R: Bytes, M: Bytes): nat
    requires CurveOk(E) && |ctx| <= 255
  {
    HashToScalar(E, Dom(E.kind, 0, ctx) + R + PublicKey(E, seed) + M)
  }

  /** The passes are at work, or both are done. */
  predicate InSeries(m: Ed) {
    (m.st == MABS && m.pass <= 1) || m.msgPass == 2
  }

  /** Seed and context are those with which the first pass began. */
  ghost predicate Unchanged(m: Ed, h: History)
    requires m.ctxLen <= |m.f.ctx|
  {
    m.f.scalar == h.seed && Context(m) == h.ctx
  }

  /** The first pass left R. */
  ghost predicate FirstDone(E: Curve, m: Ed, h: History)
    requires CurveOk(E) && Ok(E.kind, m) && |h.ctx| <= 255
  {
    m.r == NonceOf(E, h.seed, h.ctx, h.first) && m.f.sig[..Width(E.kind)] == h.R == PointOf(E, m.r)
  }

  /** The second pass was the message of the first as far as the hash can tell, and left the challenge. */
  ghost predicate BothDone(E: Curve, m: Ed, h: History)
    requires CurveOk(E) && Ok(E.kind, m) && |h.ctx| <= 255
  {
    m.r == NonceOf(E, h.seed, h.ctx, h.signed) && m.kp == ChallengeOf(E, h.seed, h.ctx, h.R, h.signed)
  }

  ghost predicate PassesOk(m: Ed, h: History) {
    && (m.st == MABS ==> m.msg == h.fed && m.pass <= 2 && m.msgPass == (if m.pass == 2 then 3 else m.pass))
    && (m.msgPass == 1 ==> m.st == MABS) && (m.msgPass == 2 ==> m.st == SGN)
    && (m.st == MABS && m.pass == 2 ==> m.has.sig && m.has.second)
  }

  ghost predicate SignedOk(E: Curve, m: Ed, h: History)
    requires CurveOk(E) && Ok(E.kind, m) && |h.ctx| <= 255
  {
    h.two ==>
      (m.st == OUT || m.st == SUCCESS) && m.outType == 1 && m.f.sig == Sign(E, h.seed, h.signed, 0, h.ctx) &&
      m.base <= |m.f.sig| && h.emitted == m.f.sig[..m.base] && (m.st == SUCCESS ==> m.base == |m.f.sig|)
  }

  ghost predicate Inv(E: Curve, m: Ed, h: History)
    requires CurveOk(E)
  {
    Ok(E.kind, m) && |h.ctx| <= 255 &&
    (m.st != INVALID ==>
      && PassesOk(m, h) && (InSeries(m) ==> Unchanged(m, h))
      && (m.msgPass == 1 || m.msgPass == 2 ==> FirstDone(E, m, h)) && (m.msgPass == 2 ==> BothDone(E, m, h))
      && SignedOk(E, m, h) && 0 < m.policy < 4)
  }

  // ---------------------------------------------------------------- leaving a State

  /** Leaving any State but Msg_Absorb changes nothing of a series, for there is none. */
  lemma LeaveOther(E: Curve, m: Ed, h: History, target: int)
    requires CurveOk(E) && Inv(E, m, h) && m.st != INVALID && m.st != MABS && SourceOk(m.st, target) && target != RDY
    ensures var m1 := Leave(E, m, target); m1.Some? && m1.value.msgPass == m.msgPass && m.msgPass != 1 && m.msgPass != 2
  {
    hide FinalizePass, WithLoaded, Loading, FirstDone, BothDone, SignedOk;
  }

  /** Leaving the first pass. */
  lemma LeaveFirst(E: Curve, m: Ed, h: History, target: int)
    requires CurveOk(E) && Inv(E, m, h) && m.st == MABS && m.pass == 0 && target != RDY
    ensures var l := Leave(E, m, target);
            l.Some? && l.value.msgPass == 1 && |l.value.f.sig| == 2 * Width(E.kind) && l.value.f.scalar == h.seed &&
            l.value.ctxLen <= 255 == |l.value.f.ctx| && Context(l.value) == h.ctx &&
                l.value.r == NonceOf(E, h.seed, h.ctx, h.fed) &&
            l.value.f.sig[..Width(E.kind)] == PointOf(E, l.value.r) && !l.value.has.sig
  {
    hide HashToScalar, Expand, Dom, PublicKey, FirstDone, BothDone, SignedOk;
  }

  /** Leaving the second pass: admitted exactly if its message hashes to the scalar of the first. */
  lemma LeaveSecond(E: Curve, m: Ed, h: History, target: int)
    requires CurveOk(E) && Inv(E, m, h) && m.st == MABS && m.pass == 1 && target != RDY
    ensures var l := Leave(E, m, target);
            (l.Some? <==> NonceOf(E, h.seed, h.ctx, h.fed) == NonceOf(E, h.seed, h.ctx, h.first)) &&
            (l.Some? ==>
              l.value.msgPass == 2 && l.value.f == m.f && l.value.ctxLen == m.ctxLen && l.value.r == m.r &&
              l.value.kp == ChallengeOf(E, h.seed, h.ctx, h.R, h.fed))
  {
    hide HashToScalar, Expand, Dom, PublicKey, BothDone, SignedOk, PointOf;
  }

  lemma LeaveThird(E: Curve, m: Ed, h: History, target: int)
    requires CurveOk(E) && Inv(E, m, h) && m.st == MABS && m.pass == 2 && target != RDY
    ensures var l := Leave(E, m, target); l.Some? && l.value.msgPass == 3
  {
    hide HashToScalar, Expand, Dom, PublicKey, BothDone, SignedOk, FirstDone;
  }

  // ---------------------------------------------------------------- every instruction keeps the invariant

  /** The States without passes, and the gate of verification: nothing of a series is left. */
  lemma EntersQuiet(m: Ed, target: int, form: Form, xs: nat, random: Option<nat>, gen0: Bytes)
    requires RDY < target <= SCTX && target != OUT && target != MABS
    ensures var m' := Enter(m, target, form, xs, random, gen0);
            m'.st == INVALID || (m'.st == target && m'.msgPass == m.msgPass && m'.policy == m.policy &&
            (target == SGN ==> m' == m.(st := SGN, complete := true)))
  {
    hide ToLe, Le, EnterPass, Zeros, RandomKey;
    RandomQuiet(m.(f := m.f.(scalar := Zeros(|m.f.scalar|)), st := target), random, |m.f.scalar|);
  }

  lemma RandomQuiet(m: Ed, random: Option<nat>, w: nat)
    ensures var m' := RandomKey(m, random, w);
            m'.st == INVALID || (m'.st == m.st && m'.msgPass == m.msgPass && m'.policy == m.policy)
  {
    hide ToLe, Le;
  }

  /** Which States can be entered with a series behind. */
  lemma GateClosed(m: Ed, target: int)
    requires target == PMUL || target == SGN || target == SVER
    ensures GateOk(m, target) ==> (target == SGN ==> m.msgPass == 2 || m.msgPass == 0) && (target == SVER ==>
            m.msgPass == 3 || m.msgPass == 0)
  {
    hide BitOf, Le;
  }

  lemma ToReadyKeepsInv(E: Curve, m: Ed, form: Form, xs: nat)
    requires CurveOk(E) && StoreOk(E.kind, m.f) && m.ctxLen <= 255 && 0 < m.policy < 4
    ensures Inv(E, ToReady(m, form, xs, E.enc(E.base)), NOTHING)
  {
    hide ToReady, FirstDone, BothDone;
    ReadyOk(E.kind, m, form, xs, E.enc(E.base));
  }

  lemma FailedInv(E: Curve, m: Ed, h: History)
    requires CurveOk(E) && Ok(E.kind, m) && m.st == INVALID && |h.ctx| <= 255
    ensures Inv(E, m, h)
  {
    hide FirstDone, BothDone, SignedOk;
  }

  /** What a kl.setst to another State than Ready leaves behind, unless it fails. */
  lemma Admitted(E: Curve, m: Ed, target: int, form: Form, xs: nat, random: Option<nat>)
    requires CurveOk(E) && Ok(E.kind, m) && m.st != INVALID && target != RDY
    requires target != 0 && DoSetSt(E, m, target, form, xs, random).st != INVALID
    ensures RDY < target <= SCTX && target != OUT && SourceOk(m.st, target) && (target == MABS ==> form == FormB)
    ensures var l, m' := Leave(E, m, target), DoSetSt(E, m, target, form, xs, random);
            l.Some? && m' == Enter(l.value, target, form, if form == FormA then 0 else xs, random, E.enc(E.base)) &&
            (target == PMUL || target == SGN || target == SVER ==> GateOk(l.value, target))
  {
    hide Leave, ToReady, Enter, GateOk, BitOf;
  }

  lemma EntersPass(E: Curve, m: Ed, h: History, form: Form, xs: nat, random: Option<nat>)
    requires CurveOk(E) && Inv(E, m, h) && m.st != INVALID
    requires DoSetSt(E, m, MABS, form, xs, random).st != INVALID && Ok(E.kind, DoSetSt(E, m, MABS, form, xs, random))
    ensures Inv(E, DoSetSt(E, m, MABS, form, xs, random), HistoryStep(E, m, h, SetSt(MABS, form, xs, random)))
  {
    hide HashToScalar, Expand, Dom, PublicKey, Leave, DoSetSt, BitOf, Le, Sign, NonceOf, PointOf, ChallengeOf;
    Admitted(E, m, MABS, form, xs, random);
    LeaveOk(E, m, MABS);
    var l := Leave(E, m, MABS).value;
    if m.st != MABS {
      LeaveOther(E, m, h, MABS);
    } else if m.pass == 0 {
      LeaveFirst(E, m, h, MABS);
    } else if m.pass == 1 {
      LeaveSecond(E, m, h, MABS);
    } else {
      LeaveThird(E, m, h, MABS);
    }
  }

  lemma EntersOther(E: Curve, m: Ed, h: History, target: int, form: Form, xs: nat, random: Option<nat>)
    requires CurveOk(E) && Inv(E, m, h) && m.st != INVALID && target != MABS && target != RDY && target != 0
    requires DoSetSt(E, m, target, form, xs, random).st != INVALID &&
             Ok(E.kind, DoSetSt(E, m, target, form, xs, random))
    ensures Inv(E, DoSetSt(E, m, target, form, xs, random), HistoryStep(E, m, h, SetSt(target, form, xs, random)))
  {
    hide HashToScalar, Expand, Dom, PublicKey, Leave, DoSetSt, Sign, NonceOf, PointOf, ChallengeOf, Enter, GateOk;
    Admitted(E, m, target, form, xs, random);
    LeaveOk(E, m, target);
    var l := Leave(E, m, target).value;
    EntersQuiet(l, target, form, if form == FormA then 0 else xs, random, E.enc(E.base));
    if target == PMUL || target == SGN || target == SVER {
      GateClosed(l, target);
    }
    if m.st != MABS {
      LeaveOther(E, m, h, target);
    } else if m.pass == 0 {
      LeaveFirst(E, m, h, target);
    } else if m.pass == 1 {
      LeaveSecond(E, m, h, target);
    } else {
      LeaveThird(E, m, h, target);
    }
  }

  lemma SetStKeepsInv(E: Curve, m: Ed, h: History, target: int, form: Form, xs: nat, random: Option<nat>)
    requires CurveOk(E) && Inv(E, m, h) && m.st != INVALID
    ensures Ok(E.kind, DoSetSt(E, m, target, form, xs, random))
    ensures Inv(E, DoSetSt(E, m, target, form, xs, random), HistoryStep(E, m, h, SetSt(target, form, xs, random)))
  {
    hide Inv, Leave, Enter, ToReady, GateOk, FormOk, SourceOk;
    BoundedInv(E, m, h);
    SetStOk(E, m, target, form, xs, random);
    var m' := DoSetSt(E, m, target, form, xs, random);
    if target != 0 && m'.st == INVALID {
      HistoryBound(E, m, h, SetSt(target, form, xs, random));
      FailedInv(E, m', HistoryStep(E, m, h, SetSt(target, form, xs, random)));
    } else if target == 0 {
    } else if target == RDY {
      if Leave(E, m, RDY).Some? {
        LeaveOk(E, m, RDY);
        ToReadyKeepsInv(E, Leave(E, m, RDY).value, form, xs);
      }
    } else if target == MABS {
      EntersPass(E, m, h, form, xs, random);
    } else {
      EntersOther(E, m, h, target, form, xs, random);
    }
  }

  lemma BoundedInv(E: Curve, m: Ed, h: History)
    requires CurveOk(E) && Inv(E, m, h)
    ensures Ok(E.kind, m) && |h.ctx| <= 255 && (m.st != INVALID ==> 0 < m.policy < 4)
  {
    hide FirstDone, BothDone, SignedOk;
  }

  lemma HistoryBound(E: Curve, m: Ed, h: History, i: Instr)
    requires CurveOk(E) && Ok(E.kind, m) && Ok(E.kind, Step(E, m, i).m) && |h.ctx| <= 255
    ensures |HistoryStep(E, m, h, i).ctx| <= 255
  {
    hide Step;
  }

  lemma ExecInKeepsInv(E: Curve, m: Ed, h: History, data: Bytes)
    requires CurveOk(E) && Inv(E, m, h) && m.st != INVALID
    ensures Ok(E.kind, DoExecIn(E.kind, m, data))
    ensures Inv(E, DoExecIn(E.kind, m, data), if m.st == MABS then h.(fed := h.fed + data) else h)
  {
    hide Load, NonceOf, ChallengeOf, PointOf, Sign;
    ExecInOk(E.kind, m, data);
    if IsSet(m.st) && !m.complete {
      LoadOk(E.kind, m, data);
    }
  }

  /** The signature that a completed series gives is that of one-shot signing. */
  lemma SeriesSigns(E: Curve, m: Ed, h: History)
    requires CurveOk(E) && Inv(E, m, h) && m.st == SGN && m.msgPass == 2
    ensures SignatureOf(E, m) == Sign(E, h.seed, h.signed, 0, h.ctx)
  {
    hide HashToScalar, Expand, Dom, PublicKey, ToLe;
  }

  lemma SigningKeepsInv(E: Curve, m: Ed, h: History, halt: bool)
    requires CurveOk(E) && Inv(E, m, h) && m.st == SGN && Ok(E.kind, DoSign(E, m, halt))
    ensures Inv(E, DoSign(E, m, halt), if halt then h else h.(two := m.msgPass == 2, emitted := []))
  {
    hide NonceOf, ChallengeOf, PointOf, Sign, SignatureOf, CurveOk;
    if m.msgPass == 2 {
      SeriesSigns(E, m, h);
    }
  }

  lemma MultiplyingKeepsInv(E: Curve, m: Ed, h: History, halt: bool)
    requires CurveOk(E) && Inv(E, m, h) && m.st == PMUL && Ok(E.kind, DoMultiply(E, m, halt))
    ensures Inv(E, DoMultiply(E, m, halt), if halt then h else h.(two := false, emitted := []))
  {
    hide FirstDone, BothDone, Sign, Expand;
  }

  lemma VerifyingKeepsInv(E: Curve, m: Ed, h: History, halt: bool)
    requires CurveOk(E) && Inv(E, m, h) && m.st == SVER && Ok(E.kind, DoVerify(E, m, halt))
    ensures Inv(E, DoVerify(E, m, halt), if halt then h else h.(two := false, emitted := []))
  {
    hide FirstDone, BothDone, Sign, Verifies, HashToScalar, Dom;
  }

  lemma ExecDKeepsInv(E: Curve, m: Ed, h: History, halt: bool)
    requires CurveOk(E) && Inv(E, m, h) && m.st != INVALID
    ensures Ok(E.kind, DoExecD(E, m, halt))
    ensures Inv(E, DoExecD(E, m, halt), if halt then h else h.(two := m.st == SGN && m.msgPass == 2, emitted := []))
  {
    hide Inv, DoSign, DoMultiply, DoVerify, Ok, CurveOk;
    BoundedInv(E, m, h);
    ExecDOk(E, m, halt);
    if m.st == SGN {
      SigningKeepsInv(E, m, h, halt);
    } else if m.st == PMUL {
      MultiplyingKeepsInv(E, m, h, halt);
    } else if m.st == SVER {
      VerifyingKeepsInv(E, m, h, halt);
    } else {
      FailedInv(E, DoExecD(E, m, halt), if halt then h else h.(two := false, emitted := []));
    }
  }

  /** A read of the signature hands out its next bytes. */
  lemma ReadSigned(E: Curve, m: Ed, h: History, n: nat)
    requires CurveOk(E) && Ok(E.kind, m) && |h.ctx| <= 255 && SignedOk(E, m, h)
    requires m.st == OUT && m.base + n <= |OutBytes(m)|
    ensures var o := DoExecOut(m, n); Ok(E.kind, o.m) && SignedOk(E, o.m, h.(emitted := h.emitted + o.out))
  {
    hide Sign, CurveOk;
    if h.two {
      assert m.f.sig[..m.base] + m.f.sig[m.base..m.base + n] == m.f.sig[..m.base + n];
    }
  }

  /** Outside a series, the new State and position do not matter to the rest of the invariant. */
  lemma QuietInv(E: Curve, m: Ed, h: History, st: int, base: nat, h': History)
    requires CurveOk(E) && Inv(E, m, h) && m.st == OUT && (st == OUT || st == SUCCESS) && h'.(emitted := h.emitted) == h
    requires Ok(E.kind, m.(st := st, base := base)) && SignedOk(E, m.(st := st, base := base), h')
    ensures Inv(E, m.(st := st, base := base), h')
  {
    hide SignedOk, FirstDone, BothDone, CurveOk, Ok;
  }

  lemma ExecOutKeepsInv(E: Curve, m: Ed, h: History, n: nat)
    requires CurveOk(E) && Inv(E, m, h) && m.st != INVALID
    ensures Ok(E.kind, DoExecOut(m, n).m) && Inv(E, DoExecOut(m, n).m, h.(emitted := h.emitted + DoExecOut(m, n).out))
  {
    hide SignedOk, FirstDone, BothDone, CurveOk, PassesOk, Unchanged;
    var o := DoExecOut(m, n);
    ExecOutOk(E.kind, m, n);
    if o.m.st != INVALID {
      ReadSigned(E, m, h, n);
      QuietInv(E, m, h, o.m.st, o.m.base, h.(emitted := h.emitted + o.out));
    }
  }

  lemma DeriveKeepsInv(E: Curve, m: Ed, h: History)
    requires CurveOk(E) && Inv(E, m, h) && m.st != INVALID
    ensures Ok(E.kind, DoDerive(m).m) && Inv(E, DoDerive(m).m, h)
  {
    hide NonceOf, ChallengeOf, PointOf, Sign, FirstDone, BothDone, CurveOk;
    ExecOutOk(E.kind, m, 0);
  }

  /**
   What the invariant does not speak about: the generator, the other flags, the progress, a policy that stays non-zero.
   */
  lemma InvIgnores(E: Curve, m: Ed, h: History, policy: nat, gen: Bytes, has: Flags, progress: bool)
    requires has.sig == m.has.sig && has.second == m.has.second
    requires CurveOk(E) && Inv(E, m, h) && 0 < policy < 4 && |gen| == Width(E.kind)
    ensures Inv(E, m.(policy := policy, f := m.f.(gen := gen), has := has, progress := progress), h)
  {
    hide NonceOf, ChallengeOf, PointOf, Sign;
  }

  lemma SmallKeepInv(E: Curve, m: Ed, h: History, policy: nat, g: Bytes)
    requires CurveOk(E) && Inv(E, m, h) && m.st != INVALID
    ensures Ok(E.kind, DoRestrict(m, policy)) && Inv(E, DoRestrict(m, policy), h)
    ensures Ok(E.kind, m.(progress := false)) && Inv(E, m.(progress := false), h)
    ensures Ok(E.kind, DoImportGenerator(E, m, g)) && Inv(E, DoImportGenerator(E, m, g), h)
  {
    hide Inv, BitOf, Ok, CurveOk;
    BoundedInv(E, m, h);
    RestrictOk(E.kind, m, policy);
    ClearAdsOk(E.kind, m);
    GeneratorOk(E, m, g);
    GeneratorWidth(E.kind, m);
    if DoRestrict(m, policy).st == INVALID {
      FailedInv(E, DoRestrict(m, policy), h);
    } else {
      InvIgnores(E, m, h, policy, m.f.gen, DoRestrict(m, policy).has, DoRestrict(m, policy).progress);
      assert DoRestrict(m, policy) == m.(policy := policy, f := m.f.(gen := m.f.gen), has := DoRestrict(m, policy).has,
                                         progress := DoRestrict(m, policy).progress);
    }
    InvIgnores(E, m, h, m.policy, m.f.gen, m.has, false);
    assert m.(progress := false) == m.(policy := m.policy, f := m.f.(gen := m.f.gen), has := m.has, progress := false);
    if DoImportGenerator(E, m, g).st == INVALID {
      FailedInv(E, DoImportGenerator(E, m, g), h);
    } else {
      InvIgnores(E, m, h, m.policy, g, m.has, m.progress);
    }
  }

  lemma GeneratorWidth(k: Kind, m: Ed)
    requires Ok(k, m)
    ensures |m.f.gen| == Width(k)
  {
  }

  /** Every instruction keeps the invariant. */
  lemma StepKeepsInv(E: Curve, m: Ed, h: History, i: Instr)
    requires CurveOk(E) && Inv(E, m, h)
    ensures Ok(E.kind, m) && Ok(E.kind, Step(E, m, i).m) && Inv(E, Step(E, m, i).m, HistoryStep(E, m, h, i))
  {
    hide Inv, DoSetSt, DoExecD, DoExecIn, DoExecOut, DoRestrict, DoImportGenerator, DoDerive;
    BoundedInv(E, m, h);
    StepOk(E, m, i);
    if m.st == INVALID {
      HistoryBound(E, m, h, i);
      FailedInv(E, m, HistoryStep(E, m, h, i));
    } else {
      match i
      case SetSt(target, form, xs, random) => SetStKeepsInv(E, m, h, target, form, xs, random);
      case ExecIn(data) => ExecInKeepsInv(E, m, h, data);
      case ExecD(halt) => ExecDKeepsInv(E, m, h, halt);
      case ExecOut(n) => ExecOutKeepsInv(E, m, h, n);
      case Restrict(policy) => SmallKeepInv(E, m, h, policy, []);
      case ClearAds => SmallKeepInv(E, m, h, 0, []);
      case Clone => SmallKeepInv(E, m, h, 0, []);
      case ImportGenerator(g) => SmallKeepInv(E, m, h, 0, g);
      case Derive => DeriveKeepsInv(E, m, h);
    }
  }

  // ---------------------------------------------------------------- runs

  ghost function After(E: Curve, m: Ed, h: History, instrs: seq<Instr>): (r: (Ed, History))
    requires CurveOk(E) && Inv(E, m, h)
    ensures Inv(E, r.0, r.1)
    decreases |instrs|
  {
    hide Step, Inv, HistoryStep, CurveOk;
    if instrs == [] then (m, h)
    else
      StepKeepsInv(E, m, h, instrs[0]);
      After(E, Step(E, m, instrs[0]).m, HistoryStep(E, m, h, instrs[0]), instrs[1..])
  }

  lemma CreateInv(E: Curve, policy: nat, aux: bool, ext: bool)
    requires CurveOk(E) && 0 < policy < 4
    ensures Inv(E, Create(E, policy, aux, ext), NOTHING)
  {
    hide FirstDone, BothDone;
  }

  /** A provisioned locker after a run, and the history of its current series. */
  ghost function AfterRun(E: Curve, policy: nat, aux: bool, ext: bool, instrs: seq<Instr>): (r: (Ed, History))
    requires CurveOk(E) && 0 < policy < 4
    ensures Inv(E, r.0, r.1) && Ok(E.kind, r.0) && |r.1.ctx| <= 255
  {
    hide Inv, CurveOk;
    CreateInv(E, policy, aux, ext);
    var r := After(E, Create(E, policy, aux, ext), NOTHING, instrs);
    BoundedInv(E, r.0, r.1);
    r
  }

  /**
   Signing.  After any run that ends with both passes done, a completed Sign_Generate leaves the one-shot signature of
   the second message under the seed and the context with which the first pass began, and a halted one leaves
   everything but the progress as it was.
   */
  lemma TwoPassesSign(E: Curve, policy: nat, aux: bool, ext: bool, instrs: seq<Instr>)
    requires CurveOk(E) && 0 < policy < 4
    ensures var (m, h) := AfterRun(E, policy, aux, ext, instrs);
            m.st == SGN && m.msgPass == 2 ==>
              var done := Step(E, m, ExecD(false)).m;
              done.st == OUT && done.outType == 1 && done.f.sig == Sign(E, h.seed, h.signed, 0, h.ctx) &&
              Step(E, m, ExecD(true)).m == m.(progress := true)
  {
    hide AfterRun, Sign, SignatureOf, CurveOk, Inv;
    var (m, h) := AfterRun(E, policy, aux, ext, instrs);
    if m.st == SGN && m.msgPass == 2 {
      SeriesSigns(E, m, h);
    }
  }

  /** Whatever the sizes of the reads, what has been handed out in all is that signature. */
  lemma SignatureHandedOut(E: Curve, policy: nat, aux: bool, ext: bool, instrs: seq<Instr>)
    requires CurveOk(E) && 0 < policy < 4
    ensures var (m, h) := AfterRun(E, policy, aux, ext, instrs);
            m.st == SUCCESS && h.two ==> h.emitted == Sign(E, h.seed, h.signed, 0, h.ctx)
  {
    hide AfterRun, Sign, CurveOk, FirstDone, BothDone;
    var (m, h) := AfterRun(E, policy, aux, ext, instrs);
    if m.st == SUCCESS && h.two {
      assert m.f.sig[..m.base] == m.f.sig;
    }
  }

  /** From the beginning of the first pass to the signature, no instruction changes the seed, the context, or then R. */
  lemma NothingChangesBetween(E: Curve, policy: nat, aux: bool, ext: bool, instrs: seq<Instr>)
    requires CurveOk(E) && 0 < policy < 4
    ensures var (m, h) := AfterRun(E, policy, aux, ext, instrs);
            m.st != INVALID ==>
              (InSeries(m) ==> m.f.scalar == h.seed && Context(m) == h.ctx) &&
              (m.msgPass == 1 || m.msgPass == 2 ==>
                m.f.sig[..Width(E.kind)] == h.R == PointOf(E, NonceOf(E, h.seed, h.ctx, h.first)))
  {
    hide AfterRun, Sign, CurveOk, NonceOf, PointOf, SignedOk, BothDone;
  }

  /** The second pass ends without failure exactly if its message gives the nonce scalar of the first. */
  lemma SecondPassAccepted(E: Curve, policy: nat, aux: bool, ext: bool, instrs: seq<Instr>)
    requires CurveOk(E) && 0 < policy < 4
    ensures var (m, h) := AfterRun(E, policy, aux, ext, instrs);
            m.st == MABS && m.pass == 1 && BitOf(m.policy, 0) && Le(m.f.scalar) != 0 ==>
              (Step(E, m, SetSt(SGN, FormA, 0, None)).m.st == SGN <==>
                NonceOf(E, h.seed, h.ctx, h.fed) == NonceOf(E, h.seed, h.ctx, h.first))
  {
    hide AfterRun, Sign, CurveOk, NonceOf, PointOf, SignedOk, Leave, Inv, BitOf, Le, ToReady;
    var (m, h) := AfterRun(E, policy, aux, ext, instrs);
    if m.st == MABS && m.pass == 1 {
      LeaveSecond(E, m, h, SGN);
      if Leave(E, m, SGN).Some? {
        LeaveOk(E, m, SGN);
      }
    }
  }
}
