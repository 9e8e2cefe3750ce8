/**
 What no instruction of the EdDSA locker can get around: the rights in MachinePolicy and what signing and verification
 need; and the shared secret on which two lockers agree.
 */
module EddsaGates {
  import opened Wrappers
  import opened Modular
  import opened Digits
  import opened Streams
  import opened Groups
  import opened EddsaMachine
  import opened EddsaRuns
  import opened EddsaVerify

  /** The States that use the right to sign; Output when it hands out a signature. */
  predicate Signing(m: Ed) {
    m.st == SGN || (m.st == OUT && m.outType == 1) || (m.st == MABS && m.pass == 0)
  }

  /** The States that use the right to verify. */
  predicate Verifying(m: Ed) {
    m.st == SVER || m.st == SIN || (m.st == MABS && m.pass == 2)
  }

  // ---------------------------------------------------------------- kl.setst

  /** What signing and verifying need: a seed, points, a signature, and a message that was absorbed or a hash. */
  predicate Equipped(m: Ed) {
    (m.st == SGN ==> Le(m.f.scalar) != 0 && (m.msgPass == 2 || (m.msgPass == 0 && m.has.hash))) &&
    (m.st == SVER ==> m.has.second && m.has.sig && (m.msgPass == 3 || (m.msgPass == 0 && m.has.hash)))
  }

  /** What holds of the locker r that m1 becomes on its way to a State. */
  predicate Entered(m1: Ed, r: Ed, target: int, xs: nat) {
    r.policy == m1.policy && (r.st == INVALID || r.st == target) && Equipped(r) &&
    (r.st == SGN ==> BitOf(m1.policy, 0)) && (r.st == SVER || r.st == SIN ==> BitOf(m1.policy, 1)) &&
    (r.st == MABS ==> PassEntered(m1, r, xs))
  }

  predicate PassEntered(m1: Ed, r: Ed, xs: nat) {
    m1.aux && r.pass == xs <= 2 && (xs == 0 ==> BitOf(m1.policy, 0) && Le(m1.f.scalar) != 0) &&
    (xs == 1 ==> m1.msgPass == 1) && (xs == 2 ==> BitOf(m1.policy, 1) && m1.has.sig && m1.has.second)
  }

  lemma PassIsEntered(m: Ed, xs: nat)
    ensures var r := EnterPass(m, xs);
            r.policy == m.policy && (r.st == INVALID || (r.st == MABS && PassEntered(m, r, xs)))
  {
    hide BitOf, Le;
  }

  lemma ReadyEntered(m: Ed, form: Form, xs: nat, gen0: Bytes)
    ensures var r := ToReady(m, form, xs, gen0); r.policy == m.policy && (r.st == INVALID || r.st == RDY)
  {
    hide BitOf, OptionPoints, OptionClears, OptionFlags;
  }

  lemma RandomEntered(m: Ed, random: Option<nat>, w: nat)
    ensures var r := RandomKey(m, random, w); r.policy == m.policy && (r.st == INVALID || r.st == m.st)
  {
    hide ToLe, Le;
  }

  lemma EnterEntered(m: Ed, target: int, form: Form, xs: nat, random: Option<nat>, gen0: Bytes)
    requires RDY < target <= SCTX && target != OUT && (target == SIN ==> BitOf(m.policy, 1))
    requires target == PMUL || target == SGN || target == SVER ==> GateOk(m, target)
    ensures Entered(m, Enter(m, target, form, xs, random, gen0), target, xs)
  {
    hide BitOf, Le, RandomKey, EnterPass, PassEntered;
    PassIsEntered(m, xs);
    var m1 := m.(st := target);
    RandomEntered(m1.(f := m1.f.(scalar := Zeros(|m1.f.scalar|))), random, |m1.f.scalar|);
  }

  lemma ArriveEntered(m: Ed, target: int, form: Form, xs: nat, random: Option<nat>, gen0: Bytes)
    requires RDY <= target <= SCTX && target != OUT
    ensures Entered(m, Arrive(m, target, form, xs, random, gen0), target, if form == FormA then 0 else xs)
  {
    hide BitOf, Le, ToReady, Enter, GateOk, PassEntered;
    ReadyEntered(m, form, xs, gen0);
    if RDY < target && (target == SIN ==> BitOf(m.policy, 1)) &&
       (target == PMUL || target == SGN || target == SVER ==> GateOk(m, target)) {
      EnterEntered(m, target, form, if form == FormA then 0 else xs, random, gen0);
    }
  }

  /** kl.setst fails, or enters the State named as Entered says, from the locker that has left the old one. */
  lemma SetStLeads(E: Curve, m: Ed, target: int, form: Form, xs: nat, random: Option<nat>)
    requires CurveOk(E) && Ok(E.kind, m)
    ensures var r := DoSetSt(E, m, target, form, xs, random);
            r.policy == m.policy &&
            (r.st == INVALID || (target == 0 && r == m) ||
             (RDY <= target <= SCTX && target != OUT && FormOk(target, form, xs) && SourceOk(m.st, target) &&
              Leave(E, m, target).Some? &&
              Entered(Leave(E, m, target).value, r, target, if form == FormA then 0 else xs)))
  {
    hide Leave, Arrive, FormOk, SourceOk, Entered;
    if RDY <= target <= SCTX && target != OUT && Leave(E, m, target).Some? {
      var m1, xs1 := Leave(E, m, target).value, if form == FormA then 0 else xs;
      LeaveOk(E, m, target);
      ArriveEntered(m1, target, form, xs, random, E.enc(E.base));
      EnteredPolicy(m1, Arrive(m1, target, form, xs, random, E.enc(E.base)), target, xs1);
    }
  }

  lemma EnteredPolicy(m1: Ed, r: Ed, target: int, xs: nat)
    requires Entered(m1, r, target, xs)
    ensures r.policy == m1.policy && (r.st == INVALID || r.st == target)
  {
    hide BitOf, Le;
  }

  lemma SetStEquips(E: Curve, m: Ed, target: int, form: Form, xs: nat, random: Option<nat>)
    requires CurveOk(E) && Ok(E.kind, m) && Equipped(m)
    ensures Equipped(DoSetSt(E, m, target, form, xs, random))
  {
    hide DoSetSt, Leave, FormOk, SourceOk, BitOf, Le, PassEntered;
    SetStLeads(E, m, target, form, xs, random);
  }

  /** kl.setst leads to a State that uses a right only when MachinePolicy has it. */
  lemma SetStNeedsRight(E: Curve, m: Ed, target: int, form: Form, xs: nat, random: Option<nat>)
    requires CurveOk(E) && Ok(E.kind, m)
    ensures var r := DoSetSt(E, m, target, form, xs, random);
            r.policy == m.policy && (Signing(r) ==> BitOf(m.policy, 0) || r == m) &&
            (Verifying(r) ==> BitOf(m.policy, 1) || r == m)
  {
    hide DoSetSt, Leave, FormOk, SourceOk, BitOf, Le;
    SetStLeads(E, m, target, form, xs, random);
    if Leave(E, m, target).Some? {
      LeaveOk(E, m, target);
    }
  }

  // ---------------------------------------------------------------- kl.exec

  /** Where the other instructions can lead. */
  predicate Follows(m: Ed, r: Ed) {
    r.policy == m.policy &&
    (r.st == m.st || r.st == INVALID || (m.st == PMUL && (r.st == FAILURE || (r.st == OUT && r.outType != 1))) ||
     (m.st == SGN && r.st == OUT && r.outType == 1) || (m.st == SVER && (r.st == SUCCESS || r.st == FAILURE)) ||
     (m.st == OUT && r.st == SUCCESS)) &&
    (r.st == m.st ==> r.pass == m.pass && r.outType == m.outType && (Equipped(m) ==> Equipped(r)))
  }

  lemma MultiplyLeads(E: Curve, m: Ed, halt: bool)
    requires CurveOk(E) && m.st == PMUL
    ensures Follows(m, DoMultiply(E, m, halt))
  {
    hide Expand, BitOf, Le;
  }

  lemma SignLeads(E: Curve, m: Ed, halt: bool)
    requires CurveOk(E) && Ok(E.kind, m) && m.st == SGN
    ensures Follows(m, DoSign(E, m, halt))
  {
    hide SignatureOf, BitOf, Le;
  }

  lemma VerifyLeads(E: Curve, m: Ed, halt: bool)
    requires CurveOk(E) && Ok(E.kind, m) && m.st == SVER
    ensures Follows(m, DoVerify(E, m, halt))
  {
    hide Verifies, HashToScalar, Dom, BitOf, Le;
  }

  lemma ExecDLeads(E: Curve, m: Ed, halt: bool)
    requires CurveOk(E) && Ok(E.kind, m)
    ensures Follows(m, DoExecD(E, m, halt))
  {
    hide DoMultiply, DoSign, DoVerify, Ok, BitOf, Le, Equipped;
    if m.st == PMUL {
      MultiplyLeads(E, m, halt);
    } else if m.st == SGN {
      SignLeads(E, m, halt);
    } else if m.st == SVER {
      VerifyLeads(E, m, halt);
    }
  }

  /** The remaining instructions, but for a restriction. */
  lemma OtherLeads(E: Curve, m: Ed, i: Instr)
    requires CurveOk(E) && Ok(E.kind, m) && (i.ExecOut? || i.ClearAds? || i.Clone? || i.ImportGenerator? || i.Derive?)
    ensures Follows(m, Step(E, m, i).m)
  {
    hide BitOf, Le;
  }

  lemma ExecInLeads(k: Kind, m: Ed, data: Bytes)
    requires Ok(k, m)
    ensures Follows(m, DoExecIn(k, m, data))
  {
    hide Written;
  }

  /** A bit that MachinePolicy lacks stays away, and one bit is left. */
  lemma PolicyNarrows(E: Curve, m: Ed, i: Instr)
    requires CurveOk(E) && Ok(E.kind, m)
    ensures var r := Step(E, m, i).m;
            (BitOf(r.policy, 0) ==> BitOf(m.policy, 0)) && (BitOf(r.policy, 1) ==> BitOf(m.policy, 1)) &&
            (r.policy != m.policy ==> i.Restrict? && 0 < r.policy < 4)
  {
    hide DoSetSt, DoExecD, DoExecIn, DoExecOut, DoDerive, DoImportGenerator, BitOf;
    match i
    case SetSt(target, form, xs, random) => SetStLeads(E, m, target, form, xs, random);
    case ExecIn(data) => ExecInLeads(E.kind, m, data);
    case ExecD(halt) => ExecDLeads(E, m, halt);
    case Restrict(_) =>
    case _ => OtherLeads(E, m, i);
  }

  /** Without the right to sign, no instruction leads to a State that uses it. */
  lemma NoSigning(E: Curve, m: Ed, i: Instr)
    requires CurveOk(E) && Ok(E.kind, m) && !BitOf(m.policy, 0) && !Signing(m)
    ensures !Signing(Step(E, m, i).m)
  {
    hide DoSetSt, DoExecD, DoExecIn, DoExecOut, DoDerive, DoImportGenerator, BitOf;
    match i
    case SetSt(target, form, xs, random) => SetStNeedsRight(E, m, target, form, xs, random);
    case ExecIn(data) => ExecInLeads(E.kind, m, data);
    case ExecD(halt) => ExecDLeads(E, m, halt);
    case Restrict(_) =>
    case _ => OtherLeads(E, m, i);
  }

  /** Without the right to verify, no instruction leads to a State that uses it. */
  lemma NoVerifying(E: Curve, m: Ed, i: Instr)
    requires CurveOk(E) && Ok(E.kind, m) && !BitOf(m.policy, 1) && !Verifying(m)
    ensures !Verifying(Step(E, m, i).m)
  {
    hide DoSetSt, DoExecD, DoExecIn, DoExecOut, DoDerive, DoImportGenerator, BitOf;
    match i
    case SetSt(target, form, xs, random) => SetStNeedsRight(E, m, target, form, xs, random);
    case ExecIn(data) => ExecInLeads(E.kind, m, data);
    case ExecD(halt) => ExecDLeads(E, m, halt);
    case Restrict(_) =>
    case _ => OtherLeads(E, m, i);
  }

  /** Sign_Generate and Sig_Verify are never entered, nor left standing, without what they need. */
  lemma StepKeepsEquipped(E: Curve, m: Ed, i: Instr)
    requires CurveOk(E) && Ok(E.kind, m) && Equipped(m)
    ensures Equipped(Step(E, m, i).m)
  {
    hide DoSetSt, DoExecD, DoExecIn, DoExecOut, DoDerive, DoImportGenerator, BitOf, Le;
    match i
    case SetSt(target, form, xs, random) => SetStEquips(E, m, target, form, xs, random);
    case ExecIn(data) => ExecInLeads(E.kind, m, data);
    case ExecD(halt) => ExecDLeads(E, m, halt);
    case Restrict(_) =>
    case _ => OtherLeads(E, m, i);
  }

  /**
   Over a whole run a right that is missing at the start is never gained, nor is a State reached that needs it, and
   neither signing nor verification is reached without what it needs.
   */
  lemma {:induction false} RightsOverRuns(E: Curve, m: Ed, h: History, instrs: seq<Instr>)
    requires CurveOk(E) && Inv(E, m, h)
    ensures var m' := After(E, m, h, instrs).0;
            (Equipped(m) ==> Equipped(m')) && (!BitOf(m.policy, 0) && !Signing(m) ==>
                !BitOf(m'.policy, 0) && !Signing(m')) &&
            (!BitOf(m.policy, 1) && !Verifying(m) ==> !BitOf(m'.policy, 1) && !Verifying(m'))
    decreases |instrs|
  {
    hide Step, HistoryStep, Inv, CurveOk, BitOf, Signing, Verifying, Equipped;
    if instrs != [] {
      var i := instrs[0];
      StepKeepsInv(E, m, h, i);
      if Equipped(m) {
        StepKeepsEquipped(E, m, i);
      }
      PolicyNarrows(E, m, i);
      if !BitOf(m.policy, 0) && !Signing(m) {
        NoSigning(E, m, i);
      }
      if !BitOf(m.policy, 1) && !Verifying(m) {
        NoVerifying(E, m, i);
      }
      RightsOverRuns(E, Step(E, m, i).m, HistoryStep(E, m, h, i), instrs[1..]);
    }
  }

  // ---------------------------------------------------------------- loads

  /** The Set State has loaded v so far. */
  predicate HasLoaded(m: Ed, v: Bytes) {
    IsSet(m.st) && !m.complete && m.base == |v| < LoadSize(m) <= |Loading(m)| && Loading(m)[..|v|] == v
  }

  /** The locker after an exec with each piece in turn. */
  ghost function AfterLoads(k: Kind, m: Ed, pieces: seq<Bytes>): Ed
    requires Ok(k, m)
    decreases |pieces|
  {
    if pieces == [] then m
    else
      ExecInOk(k, m, pieces[0]);
      AfterLoads(k, DoExecIn(k, m, pieces[0]), pieces[1..])
  }

  /** The first n bytes of the field are those of v; nothing but the field, its position and its flags has changed. */
  predicate LoadedAs(m: Ed, r: Ed, v: Bytes, n: nat) {
    n <= |v| && n <= |Loading(r)| && Loading(r)[..n] == v[..n] &&
    r == m.(f := WithLoaded(m.f, m.st, Loading(r)), base := r.base, complete := r.complete, has := r.has)
  }

  lemma OneLoad(k: Kind, m: Ed, v: Bytes, piece: Bytes)
    requires Ok(k, m) && HasLoaded(m, v)
    ensures var r := DoExecIn(k, m, piece);
            if |v + piece| < LoadSize(m)
            then HasLoaded(r, v + piece) && LoadedAs(m, r, v + piece, |v + piece|) && r.has == m.has
            else
              LoadedAs(m, r, v + piece, LoadSize(m)) && r.complete &&
              (m.st == SHASH ==> r.has.hash) && (m.st == S2ND ==> r.has.second) && (m.st == SIN ==> r.has.sig)
  {
    hide Written, WithLoaded, Loading;
    var n := Min(|piece|, LoadSize(m) - m.base);
    var b := Written(Loading(m), m.base, piece[..n]);
    WrittenPrefix(Loading(m), v, piece[..n]);
    assert (v + piece)[..|v| + n] == v + piece[..n];
    FieldIsWritten(m, b, DoExecIn(k, m, piece));
  }

  lemma FieldIsWritten(m: Ed, b: Bytes, r: Ed)
    requires IsSet(m.st) && r.st == m.st && r.f == WithLoaded(m.f, m.st, b)
    ensures Loading(r) == b
  {
  }

  lemma WrittenPrefix(b: Bytes, v: Bytes, x: Bytes)
    requires |v| + |x| <= |b| && b[..|v|] == v
    ensures Written(b, |v|, x)[..|v| + |x|] == v + x
  {
  }

  lemma LoadedAgain(m: Ed, m1: Ed, r: Ed, u: Bytes, i: nat, v: Bytes, n: nat)
    requires IsSet(m.st) && LoadedAs(m, m1, u, i) && LoadedAs(m1, r, v, n)
    ensures LoadedAs(m, r, v, n)
  {
  }

  /** However the bytes are cut into pieces, the field holds them in order; what is too much of the last is ignored. */
  lemma {:induction false} LoadsConcatenate(k: Kind, m: Ed, v: Bytes, pieces: seq<Bytes>)
    requires Ok(k, m) && HasLoaded(m, v) && pieces != []
    requires |v| + |Join(pieces[..|pieces| - 1])| < LoadSize(m) <= |v| + |Join(pieces)|
    ensures var r := AfterLoads(k, m, pieces);
            LoadedAs(m, r, v + Join(pieces), LoadSize(m)) && r.complete &&
            (m.st == SHASH ==> r.has.hash) && (m.st == S2ND ==> r.has.second) && (m.st == SIN ==> r.has.sig)
    decreases |pieces|
  {
    hide Ok, DoExecIn, LoadedAs, HasLoaded;
    ExecInOk(k, m, pieces[0]);
    OneLoad(k, m, v, pieces[0]);
    var m1 := DoExecIn(k, m, pieces[0]);
    if |pieces| == 1 {
      assert pieces[1..] == [] && Join(pieces) == pieces[0] by { JoinOne(pieces); }
      assert AfterLoads(k, m1, []) == m1;
    } else {
      JoinPrefix(pieces);
      JoinParts(v, pieces);
      LoadSizes(k, m, v, pieces[0]);
      LoadsConcatenate(k, m1, v + pieces[0], pieces[1..]);
      LoadedAgain(m, m1, AfterLoads(k, m, pieces), v + pieces[0], |v + pieces[0]|, v + Join(pieces), LoadSize(m));
    }
  }

  lemma LoadSizes(k: Kind, m: Ed, v: Bytes, piece: Bytes)
    requires Ok(k, m) && HasLoaded(m, v) && |v + piece| < LoadSize(m)
    ensures var r := DoExecIn(k, m, piece); IsSet(m.st) && LoadSize(r) == LoadSize(m) && r.st == m.st
  {
    hide Written;
  }

  lemma JoinOne(pieces: seq<Bytes>)
    requires |pieces| == 1
    ensures Join(pieces) == pieces[0]
  {
    assert pieces[1..] == [] && Join(pieces[1..]) == [];
  }

  lemma JoinParts(v: Bytes, pieces: seq<Bytes>)
    requires pieces != []
    ensures v + pieces[0] + Join(pieces[1..]) == v + Join(pieces)
  {
  }

  lemma JoinPrefix(pieces: seq<Bytes>)
    requires |pieces| > 1
    ensures pieces[..|pieces| - 1][0] == pieces[0] && pieces[..|pieces| - 1][1..] == pieces[1..][..|pieces| - 2]
    ensures |Join(pieces[..|pieces| - 1])| == |pieces[0]| + |Join(pieces[1..][..|pieces| - 2])|
  {
    var p := pieces[..|pieces| - 1];
    assert p[0] == pieces[0] && p[1..] == pieces[1..][..|pieces| - 2];
    assert Join(p) == p[0] + Join(p[1..]);
  }

  // ---------------------------------------------------------------- the points asked for on entering Ready

  /** Asked for both at once, the generator and the second point change places, and a second time change back. */
  lemma PointsExchange(f: Store, gen0: Bytes)
    ensures var f1 := OptionPoints(f, true, 0x30, gen0);
            f1 == f.(second := f.gen, gen := f.second) && OptionPoints(f1, true, 0x30, gen0) == f
  {
    BitsOf30();
  }

  lemma BitsOf30()
    ensures BitOf(0x30, 4) && BitOf(0x30, 5) && !BitOf(0x30, 0) && !BitOf(0x30, 1)
  {
    assert Pow2(4) == 16 && Pow2(5) == 32 && Pow2(0) == 1 && Pow2(1) == 2;
  }

  // ---------------------------------------------------------------- key agreement

  /** A multiplication of the default generator hands out the public key of the seed. */
  lemma GeneratorIsMultiplied(E: Curve, on: Point -> bool, m: Ed)
    requires ExactOk(E, on) && Ok(E.kind, m) && m.st == PMUL && !m.has.second && m.f.gen == E.enc(E.base)
    ensures var r := DoExecD(E, m, false);
            CurveOk(E) &&
            if E.L == 1 then r.st == FAILURE
            else r.st == OUT && r.outType == 0 && OutBytes(r) == PublicKey(E, m.f.scalar)
  {
    hide GroupOk, Times, Expand, CurveOk;
    SchemeFacts(E, on);
    var g := GroupOf(E, on);
    Multiple(E, on, E.L, E.base);
    Multiple(E, on, 1, E.base);
    TimesOne(g, E.base);
    OrderOne(g, E.L, E.base);
  }

  lemma OrderOne(g: Group<Point>, n: nat, p: Point)
    requires GroupOk(g) && g.on(p) && OrderIs(g, n, p)
    ensures p == g.zero <==> n == 1
  {
    hide GroupOk, Times;
    TimesOne(g, p);
    if p == g.zero {
      assert 1 % n == 0;
      if n > 1 {
        SmallMod(1, n);
      }
    }
  }

  /** A locker that is to multiply the public key of another seed. */
  predicate Agreeing(E: Curve, m: Ed, seed: Bytes)
    requires CurveOk(E)
  {
    Ok(E.kind, m) && m.st == PMUL && !m.ext && m.has.second && m.f.second == PublicKey(E, seed)
  }

  /** What multiplying the point of b by a leaves. */
  ghost predicate SecretIs(E: Curve, on: Point -> bool, a: nat, b: nat, r: Ed)
    requires E.L > 0
  {
    if b % E.L == 0 then r.st == FAILURE
    else r.st == OUT && r.outType == 2 && r.base == 0 && OutBytes(r) == E.enc(Times(GroupOf(E, on), a * b, E.base))
  }

  lemma SecretOf(E: Curve, on: Point -> bool, m: Ed, seed: Bytes)
    requires ExactOk(E, on) && CurveOk(E) && Agreeing(E, m, seed)
    ensures E.L > 0 && SecretIs(E, on, Expand(E, m.f.scalar).0, Expand(E, seed).0, DoExecD(E, m, false))
  {
    hide GroupOk, Times, Expand;
    var g, a, b, B := GroupOf(E, on), Expand(E, m.f.scalar).0, Expand(E, seed).0, E.base;
    Multiple(E, on, b, B);
    Multiple(E, on, E.L, E.mul(b, B));
    Multiple(E, on, a, E.mul(b, B));
    TimesTimes(g, E.L, b, B);
    TimesTimes(g, b, E.L, B);
    TimesZero(g, b);
    TimesTimes(g, a, b, B);
    assert E.L * b == b * E.L;
    TimesReduced(g, E.L, b, B);
    TimesNone(g, B);
  }

  /**
   Two lockers that each multiply the other's public key come to the same shared secret, which kl.derive passes on whole
   before any of it was read.  It fails for a public key that is the neutral element, and for no other.
   */
  lemma SecretsAgree(E: Curve, on: Point -> bool, m1: Ed, m2: Ed)
    requires ExactOk(E, on) && CurveOk(E) && Agreeing(E, m1, m2.f.scalar) && Agreeing(E, m2, m1.f.scalar)
    ensures var r1, r2 := DoExecD(E, m1, false), DoExecD(E, m2, false);
            E.L > 0 && (r1.st == (if Expand(E, m2.f.scalar).0 % E.L == 0 then FAILURE else OUT)) &&
            (r1.st == OUT && r2.st == OUT ==>
               OutBytes(r1) == OutBytes(r2) && DoDerive(r1).out == OutBytes(r1) == DoDerive(r2).out &&
               DoDerive(r1).m.st == SUCCESS)
  {
    hide Times, Expand, CurveOk, DoExecD, ExactOk, Agreeing;
    SecretOf(E, on, m1, m2.f.scalar);
    SecretOf(E, on, m2, m1.f.scalar);
    var a, b := Expand(E, m1.f.scalar).0, Expand(E, m2.f.scalar).0;
    assert a * b == b * a;
  }
}
