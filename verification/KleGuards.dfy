/**
 What the management unit never does, over every run: a context that was configured is never given more than it had, and
 an import never becomes Valid unless its content carries its tag.
 */
module KleGuards {
  import opened Wrappers
  import opened Modular
  import opened Metadata
  import opened KleMachine
  import opened KleCorrect

  // ---------------------------------------------------------------- bits

  lemma {:induction false} AndBits(a: nat, b: nat, k: nat)
    ensures BitOf(And(a, b), k) == (BitOf(a, k) && BitOf(b, k))
    decreases k
  {
    if k > 0 {
      BitOfHalf(a, k);
      BitOfHalf(b, k);
      BitOfHalf(And(a, b), k);
      AndBits(a / 2, b / 2, k - 1);
      HalfOfAnd(a, b);
    } else {
      HalfOfAnd(a, b);
      assert Pow2(0) == 1;
    }
  }

  lemma HalfOfAnd(a: nat, b: nat)
    ensures And(a, b) / 2 == And(a / 2, b / 2) && And(a, b) % 2 == (if a % 2 == 1 && b % 2 == 1 then 1 else 0)
  {
    if a == 0 || b == 0 {
      assert And(a / 2, b / 2) == 0;
    }
  }

  lemma {:induction false} OrBits(a: nat, b: nat, k: nat)
    ensures BitOf(Or(a, b), k) == (BitOf(a, k) || BitOf(b, k))
    decreases k
  {
    HalfOfOr(a, b);
    if k > 0 {
      BitOfHalf(a, k);
      BitOfHalf(b, k);
      BitOfHalf(Or(a, b), k);
      OrBits(a / 2, b / 2, k - 1);
    } else {
      assert Pow2(0) == 1;
    }
  }

  lemma HalfOfOr(a: nat, b: nat)
    ensures Or(a, b) / 2 == Or(a / 2, b / 2) && Or(a, b) % 2 == (if a % 2 == 1 || b % 2 == 1 then 1 else 0)
  {
    if a == 0 && b == 0 {
      assert Or(0, 0) == 0;
    }
  }

  ghost predicate Subset(a: nat, b: nat) {
    forall k: nat :: BitOf(a, k) ==> BitOf(b, k)
  }

  // ---------------------------------------------------------------- narrower metadata

  /** An entry of a chain that was named stays named, or gives way to a later one of the chain. */
  predicate KeepsChained(a: nat, b: nat) {
    a != 0 ==> b >= a
  }

  /** No policy or usage bit more, no Locality entry less, no later date. */
  ghost predicate Within(m': Mdh, m: Mdh) {
    && Subset(m'.policy, m.policy) && Subset(m'.usage, m.usage)
    && KeepsChained(m.loc.low, m'.loc.low) && KeepsChained(m.loc.mid, m'.loc.mid)
    && (m.loc.high != 0 ==> m'.loc.high == m.loc.high) && Subset(m.loc.flags, m'.loc.flags)
    && (m.expDate != 0 ==> 0 < m'.expDate <= m.expDate)
  }

  lemma WithinTrans(a: Mdh, b: Mdh, c: Mdh)
    requires Within(a, b) && Within(b, c)
    ensures Within(a, c)
  {
    hide BitOf;
  }

  /** Nothing of what is guarded changed. */
  ghost predicate SameRights(m': Mdh, m: Mdh) {
    m'.policy == m.policy && m'.usage == m.usage && m'.loc == m.loc && m'.expDate == m.expDate
  }

  lemma SameIsWithin(m': Mdh, m: Mdh)
    requires SameRights(m', m)
    ensures Within(m', m)
  {
    hide BitOf;
  }

  lemma RestrictedWithin(m: Mdh, rq: Mdh, lo: bool, hi: bool)
    requires Restricted(m, rq, lo, hi).Some?
    ensures var m' := Restricted(m, rq, lo, hi).value;
            Within(m', m) && m'.state == m.state && m'.stateExt == m.stateExt
  {
    hide BitOf, And, Or;
    forall k: nat
      ensures BitOf(And(m.policy, rq.policy), k) ==> BitOf(m.policy, k)
      ensures BitOf(And(m.usage, rq.usage), k) ==> BitOf(m.usage, k)
      ensures BitOf(m.loc.flags, k) ==> BitOf(Or(m.loc.flags, rq.loc.flags), k)
    {
      AndBits(m.policy, rq.policy, k);
      AndBits(m.usage, rq.usage, k);
      OrBits(m.loc.flags, rq.loc.flags, k);
    }
  }

  /** Restricting takes away exactly what is not asked for: the bits that both have are kept. */
  lemma RestrictedKeeps(m: Mdh, rq: Mdh, k: nat)
    requires Restricted(m, rq, true, true).Some?
    ensures var m' := Restricted(m, rq, true, true).value;
            BitOf(m'.policy, k) == (BitOf(m.policy, k) && BitOf(rq.policy, k)) &&
            BitOf(m'.usage, k) == (BitOf(m.usage, k) && BitOf(rq.usage, k)) &&
            BitOf(m'.loc.flags, k) == (BitOf(m.loc.flags, k) || BitOf(rq.loc.flags, k)) &&
            (rq.expDate != 0 ==> 0 < m'.expDate <= rq.expDate)
  {
    hide BitOf, And, Or;
    AndBits(m.policy, rq.policy, k);
    AndBits(m.usage, rq.usage, k);
    OrBits(m.loc.flags, rq.loc.flags, k);
  }

  // ---------------------------------------------------------------- one instruction

  /** Opening a provisioning or an import in locker k puts another context there. */
  predicate OpensAt(c: Config, u: Unit, i: Instr, k: nat) {
    i.SetSt? && i.g == 3 && (i.immed == 56 || i.immed == 58) && !Locked(c) && !BadTarget(i.kd, i.r) &&
    Target(u, i.kd, i.r) == Some(k)
  }

  /** Where the context of locker k is after the instruction; NONE if there is another in its place, or none. */
  function Follow(c: Config, u: Unit, i: Instr, k: nat): (k': nat)
    requires k < LOCKERS
    ensures k' <= NONE
  {
    if OpensAt(c, u, i, k) then NONE else Moved(c, u, i, k)
  }

  predicate Importing(m: Mdh) {
    m.state == 58 || m.state == 60
  }

  /** The States in which content may come in, or a key is made up. */
  predicate TakesContent(m: Mdh) {
    m.state == 56 || Importing(m)
  }

  predicate ValidState(m: Mdh) {
    1 <= m.state <= 55
  }

  /** The content carries its tag, and the entries that the metadata name are there. */
  ghost predicate Authentic(c: Config, l: Context) {
    l.tag == c.tagOf(l.content) && Configured(c.lst, l.mdh.loc)
  }

  /** What an instruction may make of a configured context. */
  ghost predicate Guarded(c: Config, l: Context, l': Context) {
    && Within(l'.mdh, l.mdh) && !Unconfigured(l'.mdh)
    && (Importing(l.mdh) && ValidState(l'.mdh) ==> Authentic(c, l) && l'.content == l.content)
    && (Importing(l.mdh) ==> l'.mdh.state <= 60) && (l.mdh.state == 0 ==> l'.mdh.state == 0)
    && (!TakesContent(l.mdh) && l'.mdh.state != 0 ==> l'.content == l.content && l'.tag == l.tag)
  }

  lemma SameGuarded(c: Config, l: Context)
    requires !Unconfigured(l.mdh)
    ensures Guarded(c, l, l)
  {
    hide Within, Authentic;
    SameIsWithin(l.mdh, l.mdh);
  }

  /** An Error State keeps what is guarded. */
  lemma ErrGuarded(c: Config, u: Unit, k: nat, se: nat, l: Context)
    requires k < LOCKERS && se > 0 && Within(u.L[k].mdh, l.mdh)
    ensures Guarded(c, l, Err(u, k, se).L[k])
  {
    hide BitOf, Authentic;
  }

  lemma UsageGuarded(c: Config, u: Unit, tgt: Option<nat>, target: Option<nat>, k: nat)
    requires k < LOCKERS && (tgt.Some? ==> tgt.value < LOCKERS) && !Unconfigured(u.L[k].mdh)
    requires target.Some? ==> target.value > 0
    ensures Guarded(c, u.L[k], Usage(c, u, tgt, target).u.L[k])
  {
    hide Authentic, Within, UsageGate, MachineAdmits, Err;
    SameGuarded(c, u.L[k]);
    SameIsWithin(u.L[k].mdh, u.L[k].mdh);
    if tgt.Some? {
      if tgt.value == k {
        ErrGuarded(c, u, k, SE_EXPIRED, u.L[k]);
        ErrGuarded(c, u, k, SE_INVALID, u.L[k]);
        if target.Some? {
          SameIsWithin(u.L[k].mdh.(state := target.value), u.L[k].mdh);
        }
      } else {
        ErrOther(u, tgt.value, SE_EXPIRED, k);
        ErrOther(u, tgt.value, SE_INVALID, k);
      }
    }
  }

  lemma ErrOther(u: Unit, k: nat, se: nat, j: nat)
    requires k < LOCKERS && j < LOCKERS && j != k
    ensures Err(u, k, se).L[j] == u.L[j]
  {
  }

  lemma QuietGuarded(c: Config, u: Unit, tgt: Option<nat>, form: Form, rq: Mdh, part: Part, k: nat)
    requires k < LOCKERS && (tgt.Some? ==> tgt.value < LOCKERS) && !Unconfigured(u.L[k].mdh)
    ensures Guarded(c, u.L[k], NoSuchState(c, u, tgt).u.L[k]) && Guarded(c, u.L[k], ClearAds(c, u, tgt, form).u.L[k])
    ensures Guarded(c, u.L[k], DoRestrict(c, u, tgt, rq, part).u.L[k])
  {
    hide Authentic, Within, UsageGate, AsksTooMuch, Restricted, Err;
    SameGuarded(c, u.L[k]);
    SameIsWithin(u.L[k].mdh, u.L[k].mdh);
    if tgt.Some? {
      if tgt.value == k {
        ErrGuarded(c, u, k, SE_EXPIRED, u.L[k]);
        ErrGuarded(c, u, k, SE_INVALID, u.L[k]);
        SameIsWithin(u.L[k].mdh.(auxLen := 0, dropped := 0, use := 0, auxInfo := 0), u.L[k].mdh);
        if Restricted(u.L[k].mdh, rq, part != High, part != Low).Some? {
          RestrictedWithin(u.L[k].mdh, rq, part != High, part != Low);
        }
      } else {
        ErrOther(u, tgt.value, SE_EXPIRED, k);
        ErrOther(u, tgt.value, SE_INVALID, k);
      }
    }
  }

  /** Completing: a provisioning keeps its rights; an import becomes Valid only with its tag. */
  lemma CompleteGuarded(c: Config, u: Unit, k: nat, ml: Mdh, j: nat)
    requires k < LOCKERS && j < LOCKERS && !Unconfigured(u.L[j].mdh)
    ensures Guarded(c, u.L[j], Complete(c, u, k, ml).u.L[j])
  {
    hide Within, Configured, Err, Errored;
    var u0, m := u.(start := 0), u.L[k].mdh;
    SameGuarded(c, u.L[j]);
    if j == k {
      SameIsWithin(m, m);
      SameIsWithin(m.(state := ml.state), m);
      ErrGuarded(c, u0, k, SE_INVALID, u.L[k]);
      ErrGuarded(c, SetMdh(u0, k, m.(state := ml.state)), k, SE_INVALID, u.L[k]);
      ErrGuarded(c, SetMdh(u0, k, m.(state := ml.state)), k, SE_MGMT_AUTH, u.L[k]);
      if m.state == 56 {
        ProvisionGuarded(c, u0, k);
      }
    } else {
      ErrOther(u0, k, SE_INVALID, j);
      ErrOther(SetMdh(u0, k, m.(state := ml.state)), k, SE_INVALID, j);
      ErrOther(SetMdh(u0, k, m.(state := ml.state)), k, SE_MGMT_AUTH, j);
    }
  }

  lemma ProvisionGuarded(c: Config, u: Unit, k: nat)
    requires k < LOCKERS && u.L[k].mdh.state == 56
    ensures Guarded(c, u.L[k], CompleteProvision(c, u, k).u.L[k])
  {
    hide Within, Authentic, Err;
    var m, m' := u.L[k].mdh, CompleteProvision(c, u, k).u.L[k].mdh;
    SameIsWithin(m, m);
    ErrGuarded(c, u, k, SE_INVALID, u.L[k]);
    if m.auxLen == 0 && m.dropped == 0 {
      SameIsWithin(m', m);
    }
  }

  lemma ExportGuarded(c: Config, u: Unit, k: nat, j: nat)
    requires k < LOCKERS && j < LOCKERS && !Unconfigured(u.L[j].mdh)
    ensures Guarded(c, u.L[j], ExportOpen(c, u, k).u.L[j])
  {
    hide Within, Authentic, Configured;
    var m := u.L[k].mdh;
    SameGuarded(c, u.L[j]);
    SameIsWithin(m.(state := 57), m);
    SameIsWithin(m.(state := 59), m);
  }

  lemma OpenOther(c: Config, u: Unit, k: nat, md: Mdh, provision: bool, j: nat)
    requires k < LOCKERS && j < LOCKERS && j != k
    ensures Open(c, u, k, md, provision).u.L[j] == u.L[j]
  {
    hide Check, Opened, Errored;
  }

  lemma MgmtGuarded(c: Config, u: Unit, tgt: Option<nat>, immed: nat, form: Form, md: Mdh, j: nat)
    requires (tgt.Some? ==> tgt.value < LOCKERS) && j < LOCKERS && !Unconfigured(u.L[j].mdh)
    requires immed == 56 || immed == 57 || immed == 58 || immed == 63
    requires tgt == Some(j) ==> immed == 57 || immed == 63
    ensures Guarded(c, u.L[j], Mgmt(c, u, tgt, immed, form, md).u.L[j])
  {
    hide Guarded, Complete, ExportOpen, Open;
    SameGuarded(c, u.L[j]);
    if tgt.Some? {
      var k, md1 := tgt.value, if form == FormA then ZERO else md;
      var u1 := u.(nl := k);
      if immed == 63 {
        CompleteGuarded(c, u1, k, md1, j);
        CompleteGuarded(c, RequireCsk(c, u1.(start := 0), u1.L[k].mdh.scProt).0, k, md1, j);
      } else if immed == 57 {
        ExportGuarded(c, u1, k, j);
      } else {
        OpenOther(c, u1, k, md1, immed == 56, j);
      }
    }
  }

  lemma SetErrorGuarded(c: Config, u: Unit, k: nat, se: nat, j: nat)
    requires k < LOCKERS && j < LOCKERS && !Unconfigured(u.L[j].mdh) && se > 0
    ensures Guarded(c, u.L[j], SetStE(u, k, se).L[j])
  {
    hide Within, Authentic, Err;
    SameGuarded(c, u.L[j]);
    SameIsWithin(u.L[j].mdh, u.L[j].mdh);
    if j == k {
      ErrGuarded(c, u, k, se, u.L[j]);
    } else {
      ErrOther(u, k, se, j);
      ErrOther(SetMdh(u, k, ZERO), k, se, j);
    }
  }

  lemma SetStGuarded(c: Config, u: Unit, i: Instr, k: nat)
    requires i.SetSt? && k < LOCKERS && !Unconfigured(u.L[k].mdh) && Follow(c, u, i, k) != NONE
    ensures Guarded(c, u.L[k], DoSetSt(c, u, i.kd, i.immed, i.r, i.form, i.g, i.md).u.L[Follow(c, u, i, k)])
  {
    hide Guarded, Usage, NoSuchState, ClearAds, Mgmt, SetStE, Clear;
    SameGuarded(c, u.L[k]);
    if !NoInstruction(c, i.kd, i.immed, i.r, i.form, i.g) && !Locked(c) && !BadTarget(i.kd, i.r) {
      var tgt := Target(u, i.kd, i.r);
      if i.g == 1 {
        if tgt.Some? {
          SetErrorGuarded(c, u, tgt.value, i.immed, k);
        }
      } else if i.g == 3 {
        MgmtGuarded(c, u, tgt, i.immed, i.form, i.md, k);
      } else if i.immed == 0 {
        if tgt.Some? {
          ClearOther(u, tgt.value, k);
        }
      } else {
        UsageGuarded(c, u, tgt, Some(i.immed), k);
        QuietGuarded(c, u, tgt, i.form, ZERO, Whole, k);
      }
    }
  }

  lemma ClearOther(u: Unit, k: nat, j: nat)
    requires k < LOCKERS && j < LOCKERS
    ensures j != k ==> Clear(u, k).L[j] == u.L[j]
  {
  }

  lemma CopyGuarded(c: Config, u: Unit, d: nat, src: nat, k: nat)
    requires d <= NONE && src <= NONE && k < LOCKERS && !Unconfigured(u.L[k].mdh)
    requires k == d ==> src == NONE || d == src
    ensures Guarded(c, u.L[k], DoClone(c, u, d, src).u.L[k])
  {
    hide Guarded;
    SameGuarded(c, u.L[k]);
  }

  /** One instruction: wherever the context goes, it has no more rights, and it is not validated without its tag. */
  lemma StepGuarded(c: Config, u: Unit, i: Instr, k: nat)
    requires k < LOCKERS && !Unconfigured(u.L[k].mdh) && Follow(c, u, i, k) != NONE
    ensures Guarded(c, u.L[k], Step(c, u, i).u.L[Follow(c, u, i, k)])
  {
    hide Guarded, DoSetSt, Usage, DoRestrict, DoClone;
    SameGuarded(c, u.L[k]);
    match i
    case SetSt(kd, immed, r, form, g, md) => SetStGuarded(c, u, i, k);
    case Exec(kd, r) =>
      if !Locked(c) && !BadTarget(kd, r) {
        UsageGuarded(c, u, Target(u, kd, r), None, k);
      }
    case Restrict(kd, rq, r, part) =>
      if !Locked(c) && !BadTarget(kd, r) {
        QuietGuarded(c, u, Target(u, kd, r), FormA, rq, part, k);
      }
    case Clone(d, src) =>
      if !Locked(c) && !BadOperand(d) && !BadOperand(src) {
        CopyGuarded(c, u, Resolve(u, d), Resolve(u, src), k);
      }
    case Rename(d, src) => ContextsMove(c, u, i, k);
    case Swap(d, src) => ContextsMove(c, u, i, k);
    case MvIn(content, tag) => MvInGuarded(c, u, content, tag, k);
    case MvOut =>
    case SetNl(v) =>
  }

  lemma MvInGuarded(c: Config, u: Unit, content: nat, tag: nat, k: nat)
    requires k < LOCKERS && !Unconfigured(u.L[k].mdh)
    ensures Guarded(c, u.L[k], DoMvIn(u, content, tag).u.L[k])
  {
    hide Within, Authentic;
    SameIsWithin(u.L[k].mdh, u.L[k].mdh);
  }

  /** The unit may use the locker in its mode, and the date has not come. */
  predicate MayUse(c: Config, m: Mdh) {
    BitOf(m.usage, c.mode) && (c.zk && m.expDate != 0 ==> c.clock.Some? && c.clock.value < m.expDate)
  }

  /** A date that the clock can show. */
  predicate Datable(m: Mdh) {
    m.expDate <= 0xFFFFF
  }

  /**
   A locker that may not be used stays as it is or falls into an Error State, whatever is asked of it; and one in use is
   left in a State that its machine admits with its policy.
   */
  lemma UsageNeedsRight(c: Config, u: Unit, k: nat, target: Option<nat>, form: Form)
    requires k < LOCKERS && ValidState(u.L[k].mdh) && Datable(u.L[k].mdh) && (target.Some? ==> target.value > 0)
    ensures var m := u.L[k].mdh;
            !MayUse(c, m) ==>
              (Usage(c, u, Some(k), target).u == u || Usage(c, u, Some(k), target).u.L[k].mdh.state == 0) &&
              (ClearAds(c, u, Some(k), form).u == u || ClearAds(c, u, Some(k), form).u.L[k].mdh.state == 0) &&
              (Usage(c, u, Some(k), target).r == Ok ==> Usage(c, u, Some(k), target).u.L[k].mdh.state == 0)
    ensures var m, o := u.L[k].mdh, Usage(c, u, Some(k), target);
            o.r == Ok && o.u.L[k].mdh.state != 0 ==> MachineAdmits(m, target)
  {
    hide BitOf, MachineAdmits;
  }

  /** Signing or encrypting States need their policy bits. */
  lemma PolicyAdmits(m: Mdh, t: nat)
    requires m.machine == TOYENC || m.machine == TOYKEY
    ensures MachineAdmits(m, Some(t)) && t != 1 ==> (t == 2 && BitOf(m.policy, 0)) || (t == 3 && BitOf(m.policy, 1))
    ensures MachineAdmits(m, None) ==> (m.state == 2 && BitOf(m.policy, 0)) || (m.state == 3 && BitOf(m.policy, 1))
  {
    hide BitOf;
  }

  /** Content leaves only through the locker named, while it is exporting; and as it is. */
  lemma ContentLeaves(c: Config, u: Unit, i: Instr)
    ensures var r := Step(c, u, i).r;
            r.Value? && r != Value(0, 0) ==>
              i.MvOut? && u.nl != NONE && (u.L[u.nl].mdh.state == 57 || u.L[u.nl].mdh.state == 59) &&
              r == Value(u.L[u.nl].content, c.tagOf(u.L[u.nl].content))
  {
    hide Usage, NoSuchState, ClearAds, Mgmt, FreeFrom, Restricted, Alloc;
    match i
    case SetSt(kd, immed, r, form, g, md) => SetStGivesNothing(c, u, i);
    case Exec(kd, r) =>
      if !BadTarget(kd, r) { UsageGivesNothing(c, u, Target(u, kd, r), None, FormA); }
    case Restrict(kd, rq, r, part) =>
    case Clone(d, src) =>
    case Rename(d, src) =>
    case Swap(d, src) =>
    case MvIn(content, tag) =>
    case MvOut =>
    case SetNl(v) =>
  }

  lemma UsageGivesNothing(c: Config, u: Unit, tgt: Option<nat>, target: Option<nat>, form: Form)
    requires tgt.Some? ==> tgt.value < LOCKERS
    ensures !Usage(c, u, tgt, target).r.Value? && !NoSuchState(c, u, tgt).r.Value? &&
            !ClearAds(c, u, tgt, form).r.Value?
  {
    hide MachineAdmits, Err;
  }

  lemma OpenGivesNothing(c: Config, u: Unit, k: nat, md: Mdh, provision: bool)
    requires k < LOCKERS
    ensures !Open(c, u, k, md, provision).r.Value?
  {
    hide Check, Err, SetMdh, Opened, Alloc, Free, RequireCsk;
  }

  lemma CompleteGivesNothing(c: Config, u: Unit, k: nat, ml: Mdh)
    requires k < LOCKERS
    ensures !Complete(c, u, k, ml).r.Value? && !ExportOpen(c, u, k).r.Value?
  {
    hide Configured, Err, SetMdh, RequireCsk;
  }

  lemma MgmtGivesNothing(c: Config, u: Unit, tgt: Option<nat>, immed: nat, form: Form, md: Mdh)
    requires tgt.Some? ==> tgt.value < LOCKERS
    ensures !Mgmt(c, u, tgt, immed, form, md).r.Value?
  {
    hide Complete, ExportOpen, Open, RequireCsk;
    if tgt.Some? {
      var k, md1 := tgt.value, if form == FormA then ZERO else md;
      var v := u.(nl := k);
      OpenGivesNothing(c, v, k, md1, immed == 56);
      CompleteGivesNothing(c, v, k, md1);
      CompleteGivesNothing(c, RequireCsk(c, v.(start := 0), v.L[k].mdh.scProt).0, k, md1);
    }
  }

  lemma SetStGivesNothing(c: Config, u: Unit, i: Instr)
    requires i.SetSt?
    ensures !DoSetSt(c, u, i.kd, i.immed, i.r, i.form, i.g, i.md).r.Value?
  {
    hide Usage, NoSuchState, ClearAds, Mgmt;
    var tgt := Target(u, i.kd, i.r);
    if !BadTarget(i.kd, i.r) {
      MgmtGivesNothing(c, u, tgt, i.immed, i.form, i.md);
      UsageGivesNothing(c, u, tgt, Some(i.immed), i.form);
    }
  }

  // ---------------------------------------------------------------- runs

  /** Where the context of locker k is after the run; NONE once there is another in its place. */
  function Followed(c: Config, u: Unit, instrs: seq<Instr>, k: nat): (k': nat)
    requires k < LOCKERS
    ensures k' <= NONE
    decreases instrs
  {
    if instrs == [] then k
    else
      var k1 := Follow(c, u, instrs[0], k);
      if k1 == NONE then NONE else Followed(c, Step(c, u, instrs[0]).u, instrs[1..], k1)
  }

  /** Over every run, the context has no policy or usage bit more, no Locality entry less and no later date. */
  lemma {:induction false} RightsOnlyNarrow(c: Config, u: Unit, instrs: seq<Instr>, k: nat)
    requires k < LOCKERS && !Unconfigured(u.L[k].mdh) && Followed(c, u, instrs, k) != NONE
    ensures Within(After(c, u, instrs).L[Followed(c, u, instrs, k)].mdh, u.L[k].mdh)
    decreases instrs
  {
    hide Step, Within, Follow, Authentic;
    if instrs == [] {
      SameIsWithin(u.L[k].mdh, u.L[k].mdh);
    } else {
      var u1, k1 := Step(c, u, instrs[0]).u, Follow(c, u, instrs[0], k);
      StepGuarded(c, u, instrs[0], k);
      RightsOnlyNarrow(c, u1, instrs[1..], k1);
      WithinTrans(After(c, u, instrs).L[Followed(c, u, instrs, k)].mdh, u1.L[k1].mdh, u.L[k].mdh);
    }
  }

  /** What is in an Error State stays in one. */
  lemma {:induction false} ErrorsStay(c: Config, u: Unit, instrs: seq<Instr>, k: nat)
    requires k < LOCKERS && u.L[k].mdh.state == 0 && !Unconfigured(u.L[k].mdh) && Followed(c, u, instrs, k) != NONE
    ensures After(c, u, instrs).L[Followed(c, u, instrs, k)].mdh.state == 0
    decreases instrs
  {
    hide Step, Follow, Within, Authentic;
    if instrs != [] {
      StepGuarded(c, u, instrs[0], k);
      ErrorsStay(c, Step(c, u, instrs[0]).u, instrs[1..], Follow(c, u, instrs[0], k));
    }
  }

  /** The instruction opens or continues another operation in the context: it is configured, but not importing. */
  ghost predicate Nests(c: Config, u: Unit, i: Instr, k: nat)
    requires k < LOCKERS
  {
    var k' := Follow(c, u, i, k);
    k' != NONE && Configuring(Step(c, u, i).u.L[k'].mdh) && !Importing(Step(c, u, i).u.L[k'].mdh)
  }

  /**
   Over every run, an import that has become Valid was complete, while it was importing, with a content that carried its
   tag; or an instruction nested another operation in it.
   */
  lemma {:induction false} ImportsAreAuthentic(c: Config, u: Unit, instrs: seq<Instr>, k: nat) returns (n: nat)
    requires k < LOCKERS && Importing(u.L[k].mdh) && Followed(c, u, instrs, k) != NONE
    requires ValidState(After(c, u, instrs).L[Followed(c, u, instrs, k)].mdh)
    ensures n < |instrs|
    ensures var u', k' := After(c, u, instrs[..n]), Followed(c, u, instrs[..n], k);
            k' != NONE && Importing(u'.L[k'].mdh) && (Authentic(c, u'.L[k']) || Nests(c, u', instrs[n], k'))
    decreases instrs
  {
    hide Step, Follow, Within, Authentic;
    assert instrs != [];
    var u1, k1 := Step(c, u, instrs[0]).u, Follow(c, u, instrs[0], k);
    StepGuarded(c, u, instrs[0], k);
    if Importing(u1.L[k1].mdh) {
      var j := ImportsAreAuthentic(c, u1, instrs[1..], k1);
      n := j + 1;
      assert instrs[..n][0] == instrs[0] && instrs[..n][1..] == instrs[1..][..j];
    } else {
      n := 0;
      assert instrs[..0] == [];
      if u1.L[k1].mdh.state == 0 {
        ErrorsStay(c, u1, instrs[1..], k1);
      }
    }
  }

  /** The exception is real: an export nested in an import completes to a Valid State whatever the tag is. */
  lemma NestedExportCompletes(c: Config, u: Unit, k: nat)
    requires !Locked(c) && k < LOCKERS && u.L[k].mdh.state == 58 && u.L[k].mdh.version == 0
    requires Configured(c.lst, u.L[k].mdh.loc) && u.L[k].mdh.scProt in c.cskLevels && c.multcsk
    ensures var run := [SetSt(k, 57, false, FormC, 3, ZERO), SetSt(k, 63, false, FormC, 3, ZERO.(state := 1))];
            After(c, u, run).L[k] == u.L[k].(mdh := u.L[k].mdh.(state := 1))
  {
    hide Configured, Locked;
    var i, j := SetSt(k, 57, false, FormC, 3, ZERO), SetSt(k, 63, false, FormC, 3, ZERO.(state := 1));
    var u1 := Step(c, u, i).u;
    assert u1.L[k] == u.L[k].(mdh := u.L[k].mdh.(state := 57));
    var u2 := Step(c, u1, j).u;
    assert u2.L[k] == u.L[k].(mdh := u.L[k].mdh.(state := 1));
    TwoSteps(c, u, i, j);
  }

  lemma TwoSteps(c: Config, u: Unit, i: Instr, j: Instr)
    ensures After(c, u, [i, j]) == Step(c, Step(c, u, i).u, j).u
  {
    hide Step;
    assert [i, j][1..] == [j] && [j][1..] == [];
    assert After(c, u, [i, j]) == After(c, Step(c, u, i).u, [j]);
  }
}
