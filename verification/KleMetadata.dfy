/**
 The metadata of the lockers over every run: what the unit checks when an operation is opened holds from then on, so
 that a locker in a Valid State can be exported and imported again, except where a restriction went too far.
 */
module KleMetadata {
  import opened Wrappers
  import opened Modular
  import opened Metadata
  import opened KleMachine
  import opened KleCorrect

  /** What holds of a configured locker: fields the format reserves, keys, formats, what the unit supports. */
  predicate Sound(c: Config, m: Mdh) {
    && m.res46 == 0 && m.res78 == 0 && m.res116 == 0 && m.scProt <= 3 && m.keyType != 3
    && IsContent(m.machine) && (m.expDate != 0 || m.stateExt == 6 ==> c.zk)
    && (m.keyType == 1 ==> c.skid && m.transparent != 1 && m.machine == TOYKEY)
    && (m.keyType == 2 ==> c.hasRng && m.machine == TOYKEY && InPi(m.state))
    && (InPi(m.state) ==> m.auxLen == 0 && m.dropped == 0) && m.state <= 60
    && ((m.version == 0 && m.auxLen != 1) || (m.version == 3 && InScc(m.state)))
  }

  /** A locker in use or being configured has such metadata. */
  predicate SoundIf(c: Config, m: Mdh) {
    m.state != 0 ==> Sound(c, m)
  }

  ghost predicate AllSound(c: Config, u: Unit) {
    forall k :: 0 <= k < LOCKERS ==> SoundIf(c, u.L[k].mdh)
  }

  /** The unit that differs in one locker. */
  lemma OneChanged(c: Config, u: Unit, u': Unit, k: nat)
    requires AllSound(c, u) && k < LOCKERS && u'.L == u.L[k := u'.L[k]] && SoundIf(c, u'.L[k].mdh)
    ensures AllSound(c, u')
  {
    hide SoundIf;
    forall j | 0 <= j < LOCKERS
      ensures SoundIf(c, u'.L[j].mdh)
    {
      assert u'.L[j] == if j == k then u'.L[k] else u.L[j];
    }
  }

  lemma ErrSound(c: Config, u: Unit, k: nat, se: nat)
    requires AllSound(c, u) && k < LOCKERS
    ensures AllSound(c, Err(u, k, se))
  {
    hide Sound;
    OneChanged(c, u, Err(u, k, se), k);
  }

  lemma ReplacedErrSound(c: Config, u: Unit, k: nat, m: Mdh, se: nat)
    requires AllSound(c, u) && k < LOCKERS
    ensures AllSound(c, Err(SetMdh(u, k, m), k, se))
  {
    hide Sound;
    OneChanged(c, u, Err(SetMdh(u, k, m), k, se), k);
  }

  lemma SetMdhSound(c: Config, u: Unit, k: nat, m: Mdh)
    requires AllSound(c, u) && k < LOCKERS && SoundIf(c, m)
    ensures AllSound(c, SetMdh(u, k, m))
  {
    hide SoundIf;
    OneChanged(c, u, SetMdh(u, k, m), k);
  }

  lemma ClearSound(c: Config, u: Unit, k: nat)
    requires AllSound(c, u) && k < LOCKERS
    ensures AllSound(c, Free(u, k)) && AllSound(c, Clear(u, k))
  {
    hide Sound;
    OneChanged(c, u, Free(u, k), k);
    OneChanged(c, u, Clear(u, k), k);
  }

  lemma {:induction false} FreeFromSound(c: Config, u: Unit, k: nat)
    requires AllSound(c, u) && k <= LOCKERS
    ensures AllSound(c, FreeFrom(u, k))
    decreases LOCKERS - k
  {
    hide AllSound;
    if k < LOCKERS {
      ClearSound(c, u, k);
      FreeFromSound(c, Free(u, k), k + 1);
    }
  }

  // ---------------------------------------------------------------- usage

  lemma AdmitsState(m: Mdh, t: nat)
    requires MachineAdmits(m, Some(t))
    ensures 1 <= t <= 3
  {
  }

  lemma UsageSound(c: Config, u: Unit, tgt: Option<nat>, target: Option<nat>, form: Form)
    requires AllSound(c, u) && (tgt.Some? ==> tgt.value < LOCKERS)
    ensures AllSound(c, Usage(c, u, tgt, target).u) && AllSound(c, NoSuchState(c, u, tgt).u)
    ensures AllSound(c, ClearAds(c, u, tgt, form).u)
  {
    hide AllSound, Err, SetMdh, UsageGate, MachineAdmits;
    IdleSound(c, u);
    if tgt.Some? && u.L[tgt.value].mdh.state != 0 {
      var k, m := tgt.value, u.L[tgt.value].mdh;
      ErrSound(c, u, k, SE_EXPIRED);
      ErrSound(c, u, k, SE_INVALID);
      SoundOf(c, u, k);
      if !Configuring(m) {
        SetMdhSound(c, u, k, m.(auxLen := 0, dropped := 0, use := 0, auxInfo := 0));
        if target.Some? && MachineAdmits(m, target) {
          AdmitsState(m, target.value);
          SetMdhSound(c, u, k, m.(state := target.value));
        }
      }
    }
  }

  lemma IdleSound(c: Config, u: Unit)
    requires AllSound(c, u)
    ensures AllSound(c, u.(start := 0))
  {
    hide SoundIf;
  }

  lemma SoundOf(c: Config, u: Unit, k: nat)
    requires AllSound(c, u) && k < LOCKERS && u.L[k].mdh.state != 0
    ensures Sound(c, u.L[k].mdh)
  {
  }

  lemma RestrictSound(c: Config, u: Unit, tgt: Option<nat>, rq: Mdh, part: Part)
    requires AllSound(c, u) && (tgt.Some? ==> tgt.value < LOCKERS)
    ensures AllSound(c, DoRestrict(c, u, tgt, rq, part).u)
  {
    hide AllSound, Err, SetMdh, And, Or;
    if tgt.Some? && u.L[tgt.value].mdh.state != 0 {
      var k, m := tgt.value, u.L[tgt.value].mdh;
      ErrSound(c, u, k, SE_INVALID);
      SoundOf(c, u, k);
      if !AsksTooMuch(c, rq, part != High, part != Low) {
        var r := Restricted(m, rq, part != High, part != Low);
        if r.Some? {
          SetMdhSound(c, u, k, r.value);
        }
      }
    }
  }

  // ---------------------------------------------------------------- configuration operations

  lemma CskSound(c: Config, u: Unit, level: nat)
    requires AllSound(c, u)
    ensures AllSound(c, RequireCsk(c, u, level).0)
  {
    hide SoundIf;
  }

  lemma ProvisionSound(c: Config, u: Unit, k: nat)
    requires AllSound(c, u) && k < LOCKERS && u.L[k].mdh.state == 56
    ensures AllSound(c, CompleteProvision(c, u, k).u)
  {
    hide AllSound, Err;
    ErrSound(c, u, k, SE_INVALID);
    SoundOf(c, u, k);
    if u.L[k].mdh.auxLen == 0 && u.L[k].mdh.dropped == 0 {
      OneChanged(c, u, CompleteProvision(c, u, k).u, k);
    }
  }

  lemma CompleteSound(c: Config, u: Unit, k: nat, ml: Mdh)
    requires AllSound(c, u) && k < LOCKERS
    ensures AllSound(c, Complete(c, u, k, ml).u)
  {
    hide AllSound, Err, SetMdh, Configured, CompleteProvision;
    var v, m := u.(start := 0), u.L[k].mdh;
    IdleSound(c, u);
    ReplacedErrSound(c, v, k, m.(state := ml.state), SE_INVALID);
    ReplacedErrSound(c, v, k, m.(state := ml.state), SE_MGMT_AUTH);
    if m.state == 56 {
      ProvisionSound(c, v, k);
    } else if Configuring(m) && Completes(m, ml.state) && !(m.version == 3 && ml.state == 0) {
      SoundOf(c, u, k);
      SetMdhSound(c, v, k, m.(state := ml.state));
    }
  }

  lemma ExportSound(c: Config, u: Unit, k: nat)
    requires AllSound(c, u) && k < LOCKERS
    ensures AllSound(c, ExportOpen(c, u, k).u)
  {
    hide AllSound, SetMdh, Configured, RequireCsk;
    var v, m := u.(start := 0), u.L[k].mdh;
    IdleSound(c, u);
    CskSound(c, v, m.scProt);
    if m.state != 0 {
      var (w, _) := RequireCsk(c, v, m.scProt);
      SoundOf(c, u, k);
      SetMdhSound(c, v, k, m.(state := if InPi(m.state) then 59 else 57));
      if !Configuring(m) {
        SetMdhSound(c, w, k, m.(state := 57));
      }
    }
  }

  /** Metadata that passed the check are sound once the operation is open. */
  lemma CheckedIsSound(c: Config, md: Mdh, provision: bool)
    requires Check(c, md, provision) == Good
    ensures Sound(c, Opened(c, md, provision)) && Configured(c.lst, Opened(c, md, provision).loc)
  {
    hide Configured;
  }

  lemma OpenSound(c: Config, u: Unit, k: nat, md: Mdh, provision: bool)
    requires AllSound(c, u) && k < LOCKERS
    ensures AllSound(c, Open(c, u, k, md, provision).u)
  {
    hide AllSound, Err, SetMdh, Check, Free, OpenGood;
    var v := Free(u.(start := 0), k);
    IdleSound(c, u);
    ClearSound(c, u.(start := 0), k);
    SetMdhSound(c, v, k, ZERO.(stateExt := SE_INVALID));
    ReplacedErrSound(c, v, k, md, md.stateExt);
    if Check(c, md, provision) == Good {
      GoodSound(c, v, k, md, provision);
    }
  }

  lemma GoodSound(c: Config, u: Unit, k: nat, md: Mdh, provision: bool)
    requires AllSound(c, u) && k < LOCKERS && Check(c, md, provision) == Good
    ensures AllSound(c, OpenGood(c, u, k, md, provision).u)
  {
    hide SoundIf, Check, RequireCsk, Opened;
    CheckedIsSound(c, md, provision);
    IfSound(c, Opened(c, md, provision));
    CskSound(c, u, md.scProt);
    var (u1, ok) := if !provision && md.version != 3 && !InPi(md.state) then RequireCsk(c, u, md.scProt) else (u, true);
    CskLockers(c, u, md.scProt);
    if ok && Alloc(c, u1, k).Some? {
      OneChanged(c, u, OpenGood(c, u, k, md, provision).u, k);
    }
  }

  lemma IfSound(c: Config, m: Mdh)
    requires Sound(c, m)
    ensures SoundIf(c, m)
  {
  }

  lemma CskLockers(c: Config, u: Unit, level: nat)
    ensures RequireCsk(c, u, level).0.L == u.L
  {
  }

  lemma MgmtSound(c: Config, u: Unit, tgt: Option<nat>, immed: nat, form: Form, md: Mdh)
    requires AllSound(c, u) && (tgt.Some? ==> tgt.value < LOCKERS)
    ensures AllSound(c, Mgmt(c, u, tgt, immed, form, md).u)
  {
    hide AllSound, Complete, ExportOpen, Open, RequireCsk;
    IdleSound(c, u);
    if tgt.Some? {
      var k, md1 := tgt.value, if form == FormA then ZERO else md;
      var v := u.(nl := k);
      NamedSound(c, u, k);
      IdleSound(c, v);
      var (v1, _) := RequireCsk(c, v.(start := 0), v.L[k].mdh.scProt);
      CskSound(c, v.(start := 0), v.L[k].mdh.scProt);
      CompleteSound(c, v, k, md1);
      CompleteSound(c, v1, k, md1);
      ExportSound(c, v, k);
      OpenSound(c, v, k, md1, immed == 56);
    }
  }

  lemma NamedSound(c: Config, u: Unit, k: nat)
    requires AllSound(c, u) && k <= NONE
    ensures AllSound(c, u.(nl := k))
  {
    hide SoundIf;
  }

  // ---------------------------------------------------------------- runs

  lemma SetStSound(c: Config, u: Unit, i: Instr)
    requires AllSound(c, u) && i.SetSt?
    ensures AllSound(c, Step(c, u, i).u)
  {
    hide AllSound, Usage, NoSuchState, ClearAds, Mgmt, Clear, FreeFrom, Err, SetMdh;
    var tgt := Target(u, i.kd, i.r);
    if !BadTarget(i.kd, i.r) {
      MgmtSound(c, u, tgt, i.immed, i.form, i.md);
      UsageSound(c, u, tgt, Some(i.immed), i.form);
      FreeFromSound(c, u, 0);
      AllClearedSound(c, FreeFrom(u, 0));
      if tgt.Some? {
        ClearSound(c, u, tgt.value);
        ErrSound(c, u, tgt.value, i.immed);
        ReplacedErrSound(c, u, tgt.value, ZERO, i.immed);
      }
    }
  }

  lemma AllClearedSound(c: Config, u: Unit)
    requires AllSound(c, u)
    ensures AllSound(c, u.(nl := NONE, start := 0))
  {
    hide SoundIf;
  }

  lemma MovedSound(c: Config, u: Unit, d: nat, src: nat)
    requires AllSound(c, u) && d <= NONE && src <= NONE
    ensures AllSound(c, DoClone(c, u, d, src).u) && AllSound(c, DoRename(u, d, src)) && AllSound(c, DoSwap(u, d, src))
  {
    hide Sound;
  }

  lemma MvInSound(c: Config, u: Unit, content: nat, tag: nat)
    requires AllSound(c, u)
    ensures AllSound(c, DoMvIn(u, content, tag).u)
  {
    hide Sound;
  }

  lemma StepSound(c: Config, u: Unit, i: Instr)
    requires AllSound(c, u)
    ensures AllSound(c, Step(c, u, i).u)
  {
    hide AllSound, DoSetSt, Usage, DoRestrict, DoClone, DoRename, DoSwap, DoMvIn;
    match i
    case SetSt(kd, immed, r, form, g, md) => SetStSound(c, u, i);
    case Exec(kd, r) =>
      if !BadTarget(kd, r) { UsageSound(c, u, Target(u, kd, r), None, FormA); }
    case Restrict(kd, rq, r, part) =>
      if !BadTarget(kd, r) { RestrictSound(c, u, Target(u, kd, r), rq, part); }
    case Clone(d, src) =>
      if !BadOperand(d) && !BadOperand(src) { MovedSound(c, u, Resolve(u, d), Resolve(u, src)); }
    case Rename(d, src) =>
      if !BadOperand(d) && !BadOperand(src) { MovedSound(c, u, Resolve(u, d), Resolve(u, src)); }
    case Swap(d, src) =>
      if !BadOperand(d) && !BadOperand(src) { MovedSound(c, u, Resolve(u, d), Resolve(u, src)); }
    case MvIn(content, tag) => MvInSound(c, u, content, tag);
    case MvOut =>
    case SetNl(v) =>
      if v <= NONE { NamedSound(c, u, v); }
  }

  lemma {:induction false} RunSound(c: Config, u: Unit, instrs: seq<Instr>)
    requires AllSound(c, u)
    ensures AllSound(c, After(c, u, instrs))
    decreases instrs
  {
    hide AllSound, Step;
    if instrs != [] {
      StepSound(c, u, instrs[0]);
      RunSound(c, Step(c, u, instrs[0]).u, instrs[1..]);
    }
  }

  /** What a restriction may take away so that the metadata cannot be imported any more. */
  predicate Importable(c: Config, m: Mdh) {
    m.loc.high != 3 && (m.machine == TOYENC || m.machine == TOYKEY ==> m.policy != 0) && Configured(c.lst, m.loc)
  }

  /**
   After any run, the metadata of a locker in a Valid State pass the check of an import exactly when no restriction has
   named the reserved third high Locality entry, cleared a policy that must not be zero, or named an entry that is not
   configured.
   */
  lemma ValidIsImportable(c: Config, capacity: nat, rng: nat, instrs: seq<Instr>, k: nat)
    requires k < LOCKERS
    ensures var m := After(c, Create(capacity, rng), instrs).L[k].mdh;
            1 <= m.state <= 55 ==> (Check(c, m, false) == Good <==> Importable(c, m))
  {
    hide After, Configured;
    CreatedSound(c, capacity, rng);
    RunSound(c, Create(capacity, rng), instrs);
    assert SoundIf(c, After(c, Create(capacity, rng), instrs).L[k].mdh);
  }

  lemma CreatedSound(c: Config, capacity: nat, rng: nat)
    ensures AllSound(c, Create(capacity, rng))
  {
  }

  /** A key that is yet to be made up, or the format for other units, is found in a Configuration State only. */
  lemma ValidIsFinished(c: Config, capacity: nat, rng: nat, instrs: seq<Instr>, k: nat)
    requires k < LOCKERS
    ensures var m := After(c, Create(capacity, rng), instrs).L[k].mdh;
            m.state <= 60 && (1 <= m.state <= 55 ==> m.version == 0 && m.keyType != 2 && m.keyType != 3)
  {
    hide After;
    CreatedSound(c, capacity, rng);
    RunSound(c, Create(capacity, rng), instrs);
    assert SoundIf(c, After(c, Create(capacity, rng), instrs).L[k].mdh);
  }

  /**
   Such restrictions are admitted: each of the first two leaves a locker in use whose export the unit would refuse.
   */
  lemma RestrictedAway(c: Config, u: Unit, k: nat)
    requires !Locked(c) && k < LOCKERS && 1 <= u.L[k].mdh.state <= 55 && u.L[k].mdh.loc.high == 0
    ensures var u1 := Step(c, u, Restrict(k, ZERO.(loc := Locality(0, 0, 3, 0)), false, High)).u;
            u1.L[k].mdh.state == u.L[k].mdh.state && Check(c, u1.L[k].mdh, false) == Bad
    ensures var u2 := Step(c, u, Restrict(k, ZERO, false, Low)).u;
            u2.L[k].mdh.state == u.L[k].mdh.state &&
            (u.L[k].mdh.machine == TOYENC ==> Check(c, u2.L[k].mdh, false) == Bad)
  {
    hide Configured;
    AndZero(u.L[k].mdh.policy);
  }

  lemma AndZero(a: nat)
    ensures And(a, 0) == 0
  {
  }

  // ---------------------------------------------------------------- storage keys

  /** The CSK of the level is there and can be used. */
  predicate HasCsk(c: Config, u: Unit, level: nat) {
    level in c.cskLevels && (c.multcsk || level == u.cskSel)
  }

  /**
   Content enters or leaves a Valid State under the CSK of its level only: an export is opened, an import opened and an
   import completed with that CSK at hand.  Otherwise no locker changes.
   */
  lemma CskNeeded(c: Config, u: Unit, k: nat, immed: nat, form: Form, md: Mdh)
    requires k < LOCKERS && (immed == 57 || immed == 58 || immed == 63)
    ensures var o, m := Mgmt(c, u, Some(k), immed, form, md), u.L[k].mdh;
            var m' := o.u.L[k].mdh;
            (immed == 57 && !Configuring(m) && m'.state == 57 ==> HasCsk(c, u, m.scProt) && Configured(c.lst, m.loc)) &&
            (immed == 58 && m'.state == 58 && m'.version != 3 ==> HasCsk(c, u, m'.scProt)) &&
            (immed == 63 && InScc(m.state) && m.version != 3 && 1 <= m'.state <= 55 ==> HasCsk(c, u, m.scProt)) &&
            (o.r == NoCsk && immed != 58 ==> o.u.L == u.L)
  {
    hide Complete, ExportOpen, Open, RequireCsk, Configured;
    if immed == 58 {
      ImportNeedsCsk(c, u.(nl := k), k, if form == FormA then ZERO else md);
    } else if immed == 57 {
      ExportNeedsCsk(c, u.(nl := k), k);
    } else {
      CompleteState(c, u, k, form, md);
    }
  }

  lemma ExportNeedsCsk(c: Config, u: Unit, k: nat)
    requires k < LOCKERS
    ensures var o, m := ExportOpen(c, u, k), u.L[k].mdh;
            (!Configuring(m) && o.u.L[k].mdh.state == 57 ==> HasCsk(c, u, m.scProt) && Configured(c.lst, m.loc)) &&
            (o.r == NoCsk ==> o.u.L == u.L)
  {
    hide Configured;
  }

  lemma ImportNeedsCsk(c: Config, u: Unit, k: nat, md: Mdh)
    requires k < LOCKERS
    ensures var m' := Open(c, u, k, md, false).u.L[k].mdh;
            m'.state == 58 && m'.version != 3 ==> HasCsk(c, u, m'.scProt)
  {
    hide Check, Errored;
    assert Errored(md, md.stateExt).state == 0 by { ErroredState(md, md.stateExt); }
  }

  lemma ErroredState(m: Mdh, se: nat)
    ensures Errored(m, se).state == 0
  {
  }

  /** Completing an operation to no Valid State leaves none. */
  lemma CompleteToOther(c: Config, u: Unit, k: nat, ml: Mdh)
    requires k < LOCKERS && InScc(u.L[k].mdh.state) && !(1 <= ml.state <= 55)
    ensures var s := Complete(c, u, k, ml).u.L[k].mdh.state; !(1 <= s <= 55)
  {
    hide Configured, Err, Errored;
  }

  lemma CompleteHasCsk(c: Config, u: Unit, k: nat, ml: Mdh)
    ensures k < LOCKERS ==> Complete(c, u, k, ml).r != NoCsk
  {
    hide Configured, Err, Errored, SetMdh, CompleteProvision;
    if k < LOCKERS && u.L[k].mdh.state == 56 {
      ProvisionHasCsk(c, u.(start := 0), k);
    }
  }

  lemma ProvisionHasCsk(c: Config, u: Unit, k: nat)
    ensures k < LOCKERS ==> CompleteProvision(c, u, k).r != NoCsk
  {
    hide Err;
  }

  lemma CompleteState(c: Config, u: Unit, k: nat, form: Form, md: Mdh)
    requires k < LOCKERS
    ensures var o, m := Mgmt(c, u, Some(k), 63, form, md), u.L[k].mdh;
            (InScc(m.state) && m.version != 3 && 1 <= o.u.L[k].mdh.state <= 55 ==> HasCsk(c, u, m.scProt)) &&
            (o.r == NoCsk ==> o.u.L == u.L)
  {
    hide Complete;
    var ml := if form == FormA then ZERO else md;
    var v := u.(nl := k);
    CompleteHasCsk(c, v, k, ml);
    CompleteHasCsk(c, RequireCsk(c, v.(start := 0), u.L[k].mdh.scProt).0, k, ml);
    if InScc(u.L[k].mdh.state) && !(1 <= ml.state <= 55) {
      CompleteToOther(c, v, k, ml);
    }
  }

  // ---------------------------------------------------------------- Locality entries

  /** The first entry of the chain, from j on, that is configured; zero if there is none. */
  lemma {:induction false} FirstOfChain(lst: seq<nat>, j: nat, end: nat)
    requires j <= end <= |lst|
    ensures var v := Chained(lst, j, end);
            (v == 0 <==> forall b :: j <= b < end ==> lst[b] == 0) &&
            (v != 0 ==> exists b :: j <= b < end && lst[b] == v && forall a :: j <= a < b ==> lst[a] == 0)
    decreases end - j
  {
    if j < end {
      FirstOfChain(lst, j + 1, end);
      if lst[j] == 0 && Chained(lst, j + 1, end) != 0 {
        var b :| j + 1 <= b < end && lst[b] == Chained(lst, j + 1, end) && forall a :: j + 1 <= a < b ==> lst[a] == 0;
        assert forall a :: j <= a < b ==> lst[a] == 0;
      }
    }
  }

  /**
   An entry is replaced by the first configured one behind it in its chain of three; the others stand for themselves.
   */
  lemma Substitution(lst: seq<nat>, j: nat)
    requires |lst| == 11 && j < 11
    ensures var end := if j < 3 then 3 else if j < 6 then 6 else j + 1;
            (Conf(lst, j) == 0 <==> forall b :: j <= b < end ==> lst[b] == 0) &&
            (Conf(lst, j) != 0 ==> exists b :: j <= b < end && lst[b] == Conf(lst, j) && forall a :: j <= a < b ==>
                lst[a] == 0)
  {
    if j < 3 {
      FirstOfChain(lst, j, 3);
    } else if j < 6 {
      FirstOfChain(lst, j, 6);
    } else if lst[j] != 0 {
      assert j <= j < j + 1 && lst[j] == Conf(lst, j);
    }
  }
}
