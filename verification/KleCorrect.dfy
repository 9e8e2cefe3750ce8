/**
 What every run of management instructions keeps: capacity is conserved and held exactly by the configured lockers,
 freed content is never seen again in a unit that clears its capacity, and klnamedlocker follows the context it names.
 */
module KleCorrect {
  import opened Wrappers
  import opened Modular
  import opened Metadata
  import opened KleMachine

  // ---------------------------------------------------------------- capacity

  /** The number of lockers that hold capacity. */
  function Held(L: seq<Context>): nat {
    if L == [] then 0 else (if L[0].slot then 1 else 0) + Held(L[1..])
  }

  function One(b: bool): int {
    if b then 1 else 0
  }

  lemma {:induction false} HeldUpdate(L: seq<Context>, k: nat, l: Context)
    requires k < |L|
    ensures Held(L[k := l]) == Held(L) - One(L[k].slot) + One(l.slot)
  {
    if k == 0 {
      assert L[0 := l][1..] == L[1..];
    } else {
      HeldUpdate(L[1..], k - 1, l);
      assert L[k := l][1..] == L[1..][k - 1 := l];
    }
  }

  lemma {:induction false} HeldNone(L: seq<Context>)
    requires forall k :: 0 <= k < |L| ==> !L[k].slot
    ensures Held(L) == 0
  {
    if L != [] {
      assert forall k :: 0 <= k < |L| - 1 ==> L[1..][k] == L[k + 1];
      HeldNone(L[1..]);
    }
  }

  /** A locker holds capacity exactly when its State is not zero. */
  ghost predicate Backed(l: Context) {
    l.slot <==> l.mdh.state != 0
  }

  /** Free and held capacity add up to what the unit has. */
  ghost predicate Inv(u: Unit, capacity: nat) {
    u.slots + Held(u.L) == capacity && forall k :: 0 <= k < LOCKERS ==> Backed(u.L[k])
  }

  /** A change of one locker together with the free capacity. */
  lemma ChangeOne(u: Unit, u': Unit, k: nat, l: Context, capacity: nat)
    requires Inv(u, capacity) && k < LOCKERS && u'.L == u.L[k := l] && Backed(l)
    requires u'.slots == u.slots + One(u.L[k].slot) - One(l.slot)
    ensures Inv(u', capacity)
  {
    hide Held;
    HeldUpdate(u.L, k, l);
  }

  lemma FreeKeepsInv(u: Unit, k: nat, capacity: nat)
    requires Inv(u, capacity) && k < LOCKERS
    ensures Inv(Free(u, k), capacity) && Free(u, k).L[k] == EMPTY
  {
    hide Held;
    ChangeOne(u, Free(u, k), k, EMPTY, capacity);
  }

  lemma ErrKeepsInv(u: Unit, k: nat, se: nat, capacity: nat)
    requires Inv(u, capacity) && k < LOCKERS
    ensures Inv(Err(u, k, se), capacity)
  {
    hide Held;
    FreeKeepsInv(u, k, capacity);
    ChangeOne(Free(u, k), Err(u, k, se), k, EMPTY.(mdh := Errored(u.L[k].mdh, se)), capacity);
  }

  /** Giving an Error State to a locker whose metadata was just replaced. */
  lemma ReplaceErrKeepsInv(u: Unit, k: nat, m: Mdh, se: nat, capacity: nat)
    requires Inv(u, capacity) && k < LOCKERS
    ensures Inv(Err(SetMdh(u, k, m), k, se), capacity)
  {
    hide Held;
    ChangeOne(u, Err(SetMdh(u, k, m), k, se), k, EMPTY.(mdh := Errored(m, se)), capacity);
  }

  /** New metadata with a State that is zero exactly when the old one is. */
  lemma SetMdhKeepsInv(u: Unit, k: nat, m: Mdh, capacity: nat)
    requires Inv(u, capacity) && k < LOCKERS && (m.state == 0 <==> u.L[k].mdh.state == 0)
    ensures Inv(SetMdh(u, k, m), capacity)
  {
    hide Held;
    ChangeOne(u, SetMdh(u, k, m), k, u.L[k].(mdh := m), capacity);
  }

  lemma AllocKeepsInv(c: Config, u: Unit, k: nat, l: Context, capacity: nat)
    requires Inv(u, capacity) && k < LOCKERS && !u.L[k].slot && Alloc(c, u, k).Some? && l.slot && l.mdh.state != 0
    ensures Inv(Alloc(c, u, k).value.(L := u.L[k := l]), capacity)
  {
    hide Held;
    ChangeOne(u, Alloc(c, u, k).value.(L := u.L[k := l]), k, l, capacity);
  }

  lemma {:induction false} FreeFromKeepsInv(u: Unit, k: nat, capacity: nat)
    requires Inv(u, capacity) && k <= LOCKERS
    ensures Inv(FreeFrom(u, k), capacity)
    decreases LOCKERS - k
  {
    hide Inv, Free;
    if k < LOCKERS {
      FreeKeepsInv(u, k, capacity);
      FreeFromKeepsInv(Free(u, k), k + 1, capacity);
    }
  }

  lemma UsageKeepsInv(c: Config, u: Unit, tgt: Option<nat>, target: Option<nat>, form: Form, capacity: nat)
    requires Inv(u, capacity) && (tgt.Some? ==> tgt.value < LOCKERS) && target != Some(0)
    ensures Inv(Usage(c, u, tgt, target).u, capacity) && Inv(NoSuchState(c, u, tgt).u, capacity)
    ensures Inv(ClearAds(c, u, tgt, form).u, capacity)
  {
    hide Held, MachineAdmits, UsageGate, Err, SetMdh;
    if tgt.Some? {
      var k := tgt.value;
      var m := u.L[k].mdh;
      ErrKeepsInv(u, k, SE_EXPIRED, capacity);
      ErrKeepsInv(u, k, SE_INVALID, capacity);
      if m.state != 0 {
        SetMdhKeepsInv(u, k, m.(auxLen := 0, dropped := 0, use := 0, auxInfo := 0), capacity);
        if target.Some? {
          SetMdhKeepsInv(u, k, m.(state := target.value), capacity);
        }
      }
    }
  }

  lemma RestrictKeepsInv(c: Config, u: Unit, tgt: Option<nat>, rq: Mdh, part: Part, capacity: nat)
    requires Inv(u, capacity) && (tgt.Some? ==> tgt.value < LOCKERS)
    ensures Inv(DoRestrict(c, u, tgt, rq, part).u, capacity)
  {
    hide Held, AsksTooMuch, And, Or, Narrowed;
    if tgt.Some? {
      var k := tgt.value;
      var m := Restricted(u.L[k].mdh, rq, part != High, part != Low);
      ErrKeepsInv(u, k, SE_INVALID, capacity);
      if m.Some? {
        SetMdhKeepsInv(u, k, m.value, capacity);
      }
    }
  }

  lemma CloneKeepsInv(c: Config, u: Unit, d: nat, src: nat, capacity: nat)
    requires Inv(u, capacity) && d <= NONE && src <= NONE
    ensures Inv(DoClone(c, u, d, src).u, capacity)
  {
    hide Held;
    if d != NONE && src != NONE && d != src {
      FreeKeepsInv(u, d, capacity);
      var u1, l := Clear(u, d), u.L[src];
      if l.mdh.state == 0 {
        SetMdhKeepsInv(u1, d, l.mdh, capacity);
      } else if Alloc(c, u1, d).Some? {
        AllocKeepsInv(c, u1, d, l.(slot := true), capacity);
        assert DoClone(c, u, d, src).u.L == u1.L[d := l.(slot := true)] || Configuring(l.mdh);
      }
    }
  }

  lemma MoveKeepsInv(u: Unit, d: nat, src: nat, capacity: nat)
    requires Inv(u, capacity) && d <= NONE && src <= NONE
    ensures Inv(DoRename(u, d, src), capacity) && Inv(DoSwap(u, d, src), capacity)
  {
    hide Held;
    if d != NONE && src != NONE && d != src {
      FreeKeepsInv(u, d, capacity);
      var u1, l := Clear(u, d), u.L[src];
      HeldUpdate(u1.L, d, l);
      HeldUpdate(u1.L[d := l], src, EMPTY);
      HeldUpdate(u.L, d, l);
      HeldUpdate(u.L[d := l], src, u.L[d]);
    }
  }

  lemma CompleteKeepsInv(c: Config, u: Unit, k: nat, ml: Mdh, capacity: nat)
    requires Inv(u, capacity) && k < LOCKERS
    ensures Inv(Complete(c, u, k, ml).u, capacity)
  {
    hide Held, Configured, Err, SetMdh, CompleteProvision;
    var v := u.(start := 0);
    var m := v.L[k].mdh;
    ReplaceErrKeepsInv(v, k, m.(state := ml.state), SE_INVALID, capacity);
    ReplaceErrKeepsInv(v, k, m.(state := ml.state), SE_MGMT_AUTH, capacity);
    if m.state == 56 {
      ProvisionKeepsInv(c, v, k, capacity);
    } else if m.state != 0 && ml.state != 0 {
      SetMdhKeepsInv(v, k, m.(state := ml.state), capacity);
    }
  }

  lemma ProvisionKeepsInv(c: Config, u: Unit, k: nat, capacity: nat)
    requires Inv(u, capacity) && k < LOCKERS && u.L[k].mdh.state == 56
    ensures Inv(CompleteProvision(c, u, k).u, capacity)
  {
    hide Held;
    ErrKeepsInv(u, k, SE_INVALID, capacity);
    var u' := CompleteProvision(c, u, k).u;
    if u.L[k].mdh.auxLen == 0 && u.L[k].mdh.dropped == 0 {
      ChangeOne(u, u', k, u'.L[k], capacity);
    }
  }

  lemma OpenKeepsInv(c: Config, u: Unit, k: nat, md: Mdh, provision: bool, capacity: nat)
    requires Inv(u, capacity) && k < LOCKERS
    ensures Inv(Open(c, u, k, md, provision).u, capacity)
  {
    hide Held, Check, Configured;
    FreeKeepsInv(u.(start := 0), k, capacity);
    var v := Free(u.(start := 0), k);
    SetMdhKeepsInv(v, k, ZERO.(stateExt := SE_INVALID), capacity);
    ReplaceErrKeepsInv(v, k, md, md.stateExt, capacity);
    var (v1, _) := RequireCsk(c, v, md.scProt);
    OpenedKeepsInv(c, v, k, md, provision, capacity);
    OpenedKeepsInv(c, v1, k, md, provision, capacity);
  }

  lemma OpenedKeepsInv(c: Config, u: Unit, k: nat, md: Mdh, provision: bool, capacity: nat)
    requires Inv(u, capacity) && k < LOCKERS && !u.L[k].slot
    ensures Alloc(c, u, k).Some? ==> Inv(SetMdh(Alloc(c, u, k).value, k, Opened(c, md, provision)), capacity)
  {
    hide Held;
    if Alloc(c, u, k).Some? {
      var v := SetMdh(Alloc(c, u, k).value, k, Opened(c, md, provision));
      AllocKeepsInv(c, u, k, v.L[k], capacity);
      assert v.L == u.L[k := v.L[k]];
    }
  }

  lemma ExportKeepsInv(c: Config, u: Unit, k: nat, capacity: nat)
    requires Inv(u, capacity) && k < LOCKERS
    ensures Inv(ExportOpen(c, u, k).u, capacity)
  {
    hide Held, Configured;
    var v := u.(start := 0);
    var m := v.L[k].mdh;
    var (v1, _) := RequireCsk(c, v, m.scProt);
    if m.state != 0 {
      SetMdhKeepsInv(v, k, m.(state := if InPi(m.state) then 59 else 57), capacity);
      SetMdhKeepsInv(v1, k, m.(state := 57), capacity);
    }
  }

  lemma MgmtKeepsInv(c: Config, u: Unit, tgt: Option<nat>, immed: nat, form: Form, md: Mdh, capacity: nat)
    requires Inv(u, capacity) && (tgt.Some? ==> tgt.value < LOCKERS)
    ensures Inv(Mgmt(c, u, tgt, immed, form, md).u, capacity)
  {
    hide Held, Complete, ExportOpen, Open;
    if tgt.Some? {
      var k := tgt.value;
      var v := u.(nl := k);
      var md1 := if form == FormA then ZERO else md;
      var (v1, _) := RequireCsk(c, v.(start := 0), v.L[k].mdh.scProt);
      CompleteKeepsInv(c, v, k, md1, capacity);
      CompleteKeepsInv(c, v1, k, md1, capacity);
      ExportKeepsInv(c, v, k, capacity);
      OpenKeepsInv(c, v, k, md1, immed == 56, capacity);
    }
  }

  lemma SetStKeepsInv(c: Config, u: Unit, i: Instr, capacity: nat)
    requires Inv(u, capacity) && i.SetSt?
    ensures Inv(Step(c, u, i).u, capacity)
  {
    hide Held, Mgmt, Usage, NoSuchState, ClearAds, Err, Free, FreeFrom;
    var tgt := Target(u, i.kd, i.r);
    if !BadTarget(i.kd, i.r) {
      MgmtKeepsInv(c, u, tgt, i.immed, i.form, i.md, capacity);
      if i.immed != 0 {
        UsageKeepsInv(c, u, tgt, Some(i.immed), i.form, capacity);
      }
      FreeFromKeepsInv(u, 0, capacity);
      if tgt.Some? {
        FreeKeepsInv(u, tgt.value, capacity);
        ErrKeepsInv(u, tgt.value, i.immed, capacity);
        ZeroErrKeepsInv(u, tgt.value, i.immed, capacity);
      }
    }
  }

  lemma ZeroErrKeepsInv(u: Unit, k: nat, se: nat, capacity: nat)
    requires Inv(u, capacity) && k < LOCKERS
    ensures Inv(SetStE(u, k, se), capacity)
  {
    hide Held;
    ErrKeepsInv(u, k, se, capacity);
    ReplaceErrKeepsInv(u, k, ZERO, se, capacity);
  }

  /** Every instruction keeps the invariant, whatever it returns or raises. */
  lemma StepKeepsInv(c: Config, u: Unit, i: Instr, capacity: nat)
    requires Inv(u, capacity)
    ensures Inv(Step(c, u, i).u, capacity)
  {
    hide Held, Usage, DoRestrict, DoClone, DoRename, DoSwap, DoSetSt;
    match i
    case SetSt(kd, immed, r, form, g, md) => SetStKeepsInv(c, u, i, capacity);
    case Exec(kd, r) =>
      if !BadTarget(kd, r) { UsageKeepsInv(c, u, Target(u, kd, r), None, FormA, capacity); }
    case Restrict(kd, rq, r, part) =>
      if !BadTarget(kd, r) { RestrictKeepsInv(c, u, Target(u, kd, r), rq, part, capacity); }
    case Clone(d, src) =>
      if !BadOperand(d) && !BadOperand(src) { CloneKeepsInv(c, u, Resolve(u, d), Resolve(u, src), capacity); }
    case Rename(d, src) =>
      if !BadOperand(d) && !BadOperand(src) { MoveKeepsInv(u, Resolve(u, d), Resolve(u, src), capacity); }
    case Swap(d, src) =>
      if !BadOperand(d) && !BadOperand(src) { MoveKeepsInv(u, Resolve(u, d), Resolve(u, src), capacity); }
    case MvIn(content, tag) => MvInKeepsInv(u, content, tag, capacity);
    case MvOut =>
    case SetNl(v) =>
  }

  lemma MvInKeepsInv(u: Unit, content: nat, tag: nat, capacity: nat)
    requires Inv(u, capacity)
    ensures Inv(DoMvIn(u, content, tag).u, capacity)
  {
    hide Held;
    var u' := DoMvIn(u, content, tag).u;
    if u.nl != NONE {
      ChangeOne(u, u', u.nl, u'.L[u.nl], capacity);
    }
  }

  // ---------------------------------------------------------------- runs

  function After(c: Config, u: Unit, instrs: seq<Instr>): Unit
    decreases instrs
  {
    if instrs == [] then u else After(c, Step(c, u, instrs[0]).u, instrs[1..])
  }

  /** What the instructions return or raise, in order. */
  function Results(c: Config, u: Unit, instrs: seq<Instr>): seq<Result>
    decreases instrs
  {
    if instrs == [] then [] else [Step(c, u, instrs[0]).r] + Results(c, Step(c, u, instrs[0]).u, instrs[1..])
  }

  lemma {:induction false} RunKeepsInv(c: Config, u: Unit, instrs: seq<Instr>, capacity: nat)
    requires Inv(u, capacity)
    ensures Inv(After(c, u, instrs), capacity)
    decreases instrs
  {
    hide Inv, Step;
    if instrs != [] {
      StepKeepsInv(c, u, instrs[0], capacity);
      RunKeepsInv(c, Step(c, u, instrs[0]).u, instrs[1..], capacity);
    }
  }

  /**
   Over every run from an empty unit, capacity is conserved and held by exactly the lockers whose State is not zero.
   */
  lemma CapacityConserved(c: Config, capacity: nat, rng: nat, instrs: seq<Instr>)
    ensures var u := After(c, Create(capacity, rng), instrs);
            u.slots + Held(u.L) == capacity && forall k :: 0 <= k < LOCKERS ==> (u.L[k].slot <==> u.L[k].mdh.state != 0)
  {
    hide After, Held;
    HeldNone(Create(capacity, rng).L);
    RunKeepsInv(c, Create(capacity, rng), instrs, capacity);
    assert forall k :: 0 <= k < LOCKERS ==> Backed(After(c, Create(capacity, rng), instrs).L[k]);
  }

  /** Opening an operation runs out of memory only when the other lockers hold all the capacity. */
  lemma OutOfMemoryMeansFull(c: Config, u: Unit, k: nat, md: Mdh, provision: bool, capacity: nat)
    requires Inv(u, capacity) && k < LOCKERS && Open(c, u, k, md, provision).r == OutOfMemory
    ensures Held(u.L[k := EMPTY]) == capacity && Open(c, u, k, md, provision).u.L == u.L[k := EMPTY]
  {
    hide Held, Check, Configured;
    FreeKeepsInv(u.(start := 0), k, capacity);
  }

  // ---------------------------------------------------------------- freed content

  /** Two units that differ at most in what the freed capacity still holds. */
  ghost predicate SameButFreed(u: Unit, v: Unit) {
    u.(pool := []) == v.(pool := [])
  }

  lemma FreeSame(u: Unit, v: Unit, k: nat, se: nat)
    requires SameButFreed(u, v) && k < LOCKERS
    ensures SameButFreed(Free(u, k), Free(v, k)) && SameButFreed(Err(u, k, se), Err(v, k, se))
    ensures SameButFreed(Clear(u, k), Clear(v, k))
  {
  }

  lemma SetMdhSame(u: Unit, v: Unit, k: nat, m: Mdh)
    requires SameButFreed(u, v) && k < LOCKERS
    ensures SameButFreed(SetMdh(u, k, m), SetMdh(v, k, m))
  {
  }

  lemma {:induction false} FreeFromSame(u: Unit, v: Unit, k: nat)
    requires SameButFreed(u, v) && k <= LOCKERS
    ensures SameButFreed(FreeFrom(u, k), FreeFrom(v, k))
    decreases LOCKERS - k
  {
    hide SameButFreed, Free;
    if k < LOCKERS {
      FreeSame(u, v, k, 0);
      FreeFromSame(Free(u, k), Free(v, k), k + 1);
    }
  }

  ghost predicate SameOutcome(a: Outcome, b: Outcome) {
    SameButFreed(a.u, b.u) && a.r == b.r
  }

  lemma UsageSame(c: Config, u: Unit, v: Unit, tgt: Option<nat>, target: Option<nat>, form: Form)
    requires SameButFreed(u, v) && (tgt.Some? ==> tgt.value < LOCKERS)
    ensures SameOutcome(Usage(c, u, tgt, target), Usage(c, v, tgt, target))
    ensures SameOutcome(NoSuchState(c, u, tgt), NoSuchState(c, v, tgt))
    ensures SameOutcome(ClearAds(c, u, tgt, form), ClearAds(c, v, tgt, form))
  {
    hide MachineAdmits, UsageGate, Err, SetMdh;
    if tgt.Some? {
      var k := tgt.value;
      var m := u.L[k].mdh;
      FreeSame(u, v, k, SE_EXPIRED);
      FreeSame(u, v, k, SE_INVALID);
      SetMdhSame(u, v, k, m.(auxLen := 0, dropped := 0, use := 0, auxInfo := 0));
      if target.Some? {
        SetMdhSame(u, v, k, m.(state := target.value));
      }
    }
  }

  lemma RestrictSame(c: Config, u: Unit, v: Unit, tgt: Option<nat>, rq: Mdh, part: Part)
    requires SameButFreed(u, v) && (tgt.Some? ==> tgt.value < LOCKERS)
    ensures SameOutcome(DoRestrict(c, u, tgt, rq, part), DoRestrict(c, v, tgt, rq, part))
  {
    hide AsksTooMuch, Restricted, Err, SetMdh;
    if tgt.Some? {
      var k := tgt.value;
      var m := Restricted(u.L[k].mdh, rq, part != High, part != Low);
      FreeSame(u, v, k, SE_INVALID);
      if m.Some? {
        SetMdhSame(u, v, k, m.value);
      }
    }
  }

  lemma TwoSame(c: Config, u: Unit, v: Unit, d: nat, src: nat)
    requires c.zeroAlloc && SameButFreed(u, v) && d <= NONE && src <= NONE
    ensures SameOutcome(DoClone(c, u, d, src), DoClone(c, v, d, src))
    ensures SameButFreed(DoRename(u, d, src), DoRename(v, d, src)) && SameButFreed(DoSwap(u, d, src), DoSwap(v, d, src))
  {
  }

  lemma CompleteSame(c: Config, u: Unit, v: Unit, k: nat, ml: Mdh)
    requires SameButFreed(u, v) && k < LOCKERS
    ensures SameOutcome(Complete(c, u, k, ml), Complete(c, v, k, ml))
    ensures SameOutcome(ExportOpen(c, u, k), ExportOpen(c, v, k))
  {
    hide Configured;
  }

  lemma OpenSame(c: Config, u: Unit, v: Unit, k: nat, md: Mdh, provision: bool)
    requires c.zeroAlloc && SameButFreed(u, v) && k < LOCKERS
    ensures SameOutcome(Open(c, u, k, md, provision), Open(c, v, k, md, provision))
  {
    hide Configured, Check;
  }

  lemma MgmtSame(c: Config, u: Unit, v: Unit, tgt: Option<nat>, immed: nat, form: Form, md: Mdh)
    requires c.zeroAlloc && SameButFreed(u, v) && (tgt.Some? ==> tgt.value < LOCKERS)
    ensures SameOutcome(Mgmt(c, u, tgt, immed, form, md), Mgmt(c, v, tgt, immed, form, md))
  {
    hide Complete, ExportOpen, Open;
    if tgt.Some? {
      var k := tgt.value;
      var u1, v1 := u.(nl := k), v.(nl := k);
      var md1 := if form == FormA then ZERO else md;
      var (u2, _) := RequireCsk(c, u1.(start := 0), u1.L[k].mdh.scProt);
      var (v2, _) := RequireCsk(c, v1.(start := 0), v1.L[k].mdh.scProt);
      CompleteSame(c, u1, v1, k, md1);
      CompleteSame(c, u2, v2, k, md1);
      OpenSame(c, u1, v1, k, md1, immed == 56);
    }
  }

  lemma SetStSame(c: Config, u: Unit, v: Unit, i: Instr)
    requires c.zeroAlloc && SameButFreed(u, v) && i.SetSt?
    ensures SameOutcome(Step(c, u, i), Step(c, v, i))
  {
    hide Mgmt, Usage, NoSuchState, ClearAds, FreeFrom;
    var tgt := Target(u, i.kd, i.r);
    if !BadTarget(i.kd, i.r) {
      MgmtSame(c, u, v, tgt, i.immed, i.form, i.md);
      UsageSame(c, u, v, tgt, Some(i.immed), i.form);
      FreeFromSame(u, v, 0);
    }
  }

  /** No instruction tells two such units apart, and they stay such. */
  lemma StepSame(c: Config, u: Unit, v: Unit, i: Instr)
    requires c.zeroAlloc && SameButFreed(u, v)
    ensures SameOutcome(Step(c, u, i), Step(c, v, i))
  {
    hide Usage, DoRestrict, DoClone, DoRename, DoSwap, DoSetSt;
    match i
    case SetSt(kd, immed, r, form, g, md) => SetStSame(c, u, v, i);
    case Exec(kd, r) =>
      if !BadTarget(kd, r) { UsageSame(c, u, v, Target(u, kd, r), None, FormA); }
    case Restrict(kd, rq, r, part) =>
      if !BadTarget(kd, r) { RestrictSame(c, u, v, Target(u, kd, r), rq, part); }
    case Clone(d, src) =>
      if !BadOperand(d) && !BadOperand(src) { TwoSame(c, u, v, Resolve(u, d), Resolve(u, src)); }
    case Rename(d, src) =>
      if !BadOperand(d) && !BadOperand(src) { TwoSame(c, u, v, Resolve(u, d), Resolve(u, src)); }
    case Swap(d, src) =>
      if !BadOperand(d) && !BadOperand(src) { TwoSame(c, u, v, Resolve(u, d), Resolve(u, src)); }
    case MvIn(content, tag) =>
    case MvOut =>
    case SetNl(v) =>
  }

  /**
   In a unit that clears its capacity, what was freed before is never seen again: every later run returns the same and
   leaves the same lockers, whatever the freed capacity held.
   */
  lemma {:induction false} FreedContentUnseen(c: Config, u: Unit, freed: seq<nat>, instrs: seq<Instr>)
    requires c.zeroAlloc
    ensures var v := u.(pool := freed);
            Results(c, v, instrs) == Results(c, u, instrs) && SameButFreed(After(c, v, instrs), After(c, u, instrs))
  {
    SameRuns(c, u.(pool := freed), u, instrs);
  }

  lemma {:induction false} SameRuns(c: Config, u: Unit, v: Unit, instrs: seq<Instr>)
    requires c.zeroAlloc && SameButFreed(u, v)
    ensures Results(c, u, instrs) == Results(c, v, instrs) && SameButFreed(After(c, u, instrs), After(c, v, instrs))
    decreases instrs
  {
    hide SameButFreed, Step;
    if instrs != [] {
      StepSame(c, u, v, instrs[0]);
      SameRuns(c, Step(c, u, instrs[0]).u, Step(c, v, instrs[0]).u, instrs[1..]);
    }
  }

  /** Capacity newly given to a provisioning or an import reads zero. */
  lemma OpenedReadsZero(c: Config, u: Unit, k: nat, md: Mdh, provision: bool)
    requires c.zeroAlloc && k < LOCKERS && Open(c, u, k, md, provision).u.L[k].slot
    ensures Open(c, u, k, md, provision).u.L[k].content == 0
  {
    hide Configured, Check;
  }

  /** Without clearing it may read what another locker held: here the 7 of locker 1, in a new operation of locker 2. */
  lemma FreedContentSeen(c: Config, u: Unit, md: Mdh)
    requires !c.zeroAlloc && u.slots == 0 && u.L[1].slot && u.L[1].content == 7 && !u.L[2].slot &&
             Check(c, md, true) == Good
    ensures Open(c, Free(u, 1), 2, md, true).u.L[2].content == 7
  {
    hide Configured, Check;
  }

  // ---------------------------------------------------------------- what klnamedlocker names

  /** kl.clear of locker k, or kl.clearall. */
  predicate Clears(c: Config, u: Unit, kd: nat, immed: nat, r: bool, form: Form, g: nat, k: nat) {
    g != 1 && g != 3 && !Locked(c) && !NoInstruction(c, kd, immed, r, form, g) && !BadTarget(kd, r) &&
    (immed == 65 || (immed == 0 && Target(u, kd, r) == Some(k)))
  }

  /** Where the context of locker k is after the instruction; NONE if it was cleared or overwritten. */
  function Moved(c: Config, u: Unit, i: Instr, k: nat): (k': nat)
    requires k < LOCKERS
    ensures k' <= NONE
  {
    if Locked(c) then k
    else
      match i
      case Clone(d, src) =>
        var (d, src) := (Resolve(u, d), Resolve(u, src));
        if d < LOCKERS && src < LOCKERS && d != src && k == d then NONE else k
      case Rename(d, src) =>
        var (d, src) := (Resolve(u, d), Resolve(u, src));
        if d < LOCKERS && src < LOCKERS && d != src then
          if k == d then NONE else if k == src && !Unconfigured(u.L[src].mdh) then d else k
        else k
      case Swap(d, src) =>
        var (d, src) := (Resolve(u, d), Resolve(u, src));
        if d < LOCKERS && src < LOCKERS then (if k == d then src else if k == src then d else k) else k
      case SetSt(kd, immed, r, form, g, md) =>
        if Clears(c, u, kd, immed, r, form, g, k) then NONE else k
      case _ => k
  }

  /** The instructions that set klnamedlocker: kl.mgmt and the register write. */
  predicate Names(i: Instr) {
    i.SetNl? || (i.SetSt? && i.g == 3)
  }

  lemma OthersKeepName(c: Config, u: Unit, tgt: Option<nat>, target: Option<nat>, form: Form, rq: Mdh, part: Part)
    requires tgt.Some? ==> tgt.value < LOCKERS
    ensures Usage(c, u, tgt, target).u.nl == u.nl && NoSuchState(c, u, tgt).u.nl == u.nl
    ensures ClearAds(c, u, tgt, form).u.nl == u.nl && DoRestrict(c, u, tgt, rq, part).u.nl == u.nl
  {
    hide MachineAdmits, UsageGate, AsksTooMuch, Restricted;
  }

  lemma ClearUnnames(u: Unit, k: nat, se: nat)
    requires k < LOCKERS
    ensures Clear(u, k).nl == (if u.nl == k then NONE else u.nl) && SetStE(u, k, se).nl == u.nl
  {
  }

  lemma ClearAllUnnames(u: Unit)
    ensures ClearAll(u).nl == NONE
  {
    hide FreeFrom;
  }

  lemma EnterKeepsName(c: Config, u: Unit, tgt: Option<nat>, immed: nat, form: Form)
    requires tgt.Some? ==> tgt.value < LOCKERS
    ensures EnterState(c, u, tgt, immed, form).u.nl == u.nl
  {
    hide Usage, NoSuchState, ClearAds, DoRestrict;
    OthersKeepName(c, u, tgt, Some(immed), form, ZERO, Low);
  }

  /** What one kl.setst does to klnamedlocker. */
  ghost predicate Follows(c: Config, u: Unit, kd: nat, immed: nat, r: bool, form: Form, g: nat, u': Unit) {
    u'.nl == if u.nl == NONE || Clears(c, u, kd, immed, r, form, g, u.nl) then NONE else u.nl
  }

  lemma RefusedFollows(c: Config, u: Unit, kd: nat, immed: nat, r: bool, form: Form, g: nat, md: Mdh)
    requires NoInstruction(c, kd, immed, r, form, g) || Locked(c) || BadTarget(kd, r)
    ensures Follows(c, u, kd, immed, r, form, g, DoSetSt(c, u, kd, immed, r, form, g, md).u)
  {
    hide NoInstruction, Locked, BadTarget, Mgmt, EnterState, Clear, ClearAll, SetStE;
  }

  lemma SetStFollows(c: Config, u: Unit, kd: nat, immed: nat, r: bool, form: Form, g: nat, md: Mdh)
    requires g != 3
    ensures Follows(c, u, kd, immed, r, form, g, DoSetSt(c, u, kd, immed, r, form, g, md).u)
  {
    hide NoInstruction, Locked, Mgmt, EnterState, Clear, ClearAll, SetStE;
    if NoInstruction(c, kd, immed, r, form, g) || Locked(c) || BadTarget(kd, r) {
      RefusedFollows(c, u, kd, immed, r, form, g, md);
    } else {
      var tgt := Target(u, kd, r);
      if g != 1 && immed == 65 {
        ClearAllUnnames(u);
      } else if g == 1 || immed == 0 {
        if tgt.Some? {
          ClearUnnames(u, tgt.value, immed);
        }
      } else {
        EnterKeepsName(c, u, tgt, immed, form);
      }
    }
  }

  /** Any other instruction leaves klnamedlocker on the context it named, or names none if that context is gone. */
  lemma NameFollows(c: Config, u: Unit, i: Instr)
    requires !Names(i)
    ensures Step(c, u, i).u.nl == if u.nl == NONE then NONE else Moved(c, u, i, u.nl)
  {
    hide Usage, DoRestrict, DoSetSt, NoInstruction;
    match i
    case SetSt(kd, immed, r, form, g, md) =>
      SetStFollows(c, u, kd, immed, r, form, g, md);
    case Exec(kd, r) =>
      if !BadTarget(kd, r) { OthersKeepName(c, u, Target(u, kd, r), None, FormA, ZERO, Low); }
    case Restrict(kd, rq, r, part) =>
      if !BadTarget(kd, r) { OthersKeepName(c, u, Target(u, kd, r), None, FormA, rq, part); }
    case Clone(d, src) =>
    case Rename(d, src) =>
    case Swap(d, src) =>
    case MvIn(content, tag) =>
    case MvOut =>
    case SetNl(v) =>
  }

  /** Renaming and exchanging move every surviving context, whole, to where Moved says. */
  lemma ContextsMove(c: Config, u: Unit, i: Instr, k: nat)
    requires (i.Rename? || i.Swap?) && k < LOCKERS && Moved(c, u, i, k) != NONE
    ensures Step(c, u, i).u.L[Moved(c, u, i, k)] == u.L[k]
  {
  }

  /** No two contexts end up in the same locker. */
  lemma ContextsStayApart(c: Config, u: Unit, i: Instr, j: nat, k: nat)
    requires j < k < LOCKERS && Moved(c, u, i, j) == Moved(c, u, i, k)
    ensures Moved(c, u, i, j) == NONE
  {
  }

  function MovedBy(c: Config, u: Unit, instrs: seq<Instr>, k: nat): (k': nat)
    requires k <= NONE
    ensures k' <= NONE
    decreases instrs
  {
    if instrs == [] || k == NONE then k else MovedBy(c, Step(c, u, instrs[0]).u, instrs[1..], Moved(c, u, instrs[0], k))
  }

  /** Over any run that does not name another locker, klnamedlocker follows the context. */
  lemma {:induction false} NameFollowsRun(c: Config, u: Unit, instrs: seq<Instr>)
    requires forall j :: 0 <= j < |instrs| ==> !Names(instrs[j])
    ensures After(c, u, instrs).nl == MovedBy(c, u, instrs, u.nl)
    decreases instrs
  {
    hide Step, Moved;
    if instrs != [] {
      NameFollows(c, u, instrs[0]);
      NameFollowsRun(c, Step(c, u, instrs[0]).u, instrs[1..]);
    }
  }

  /**
   A clone is a copy of the whole context with capacity of its own, and the source is left alone.  A context that is
   being configured is not cloned, and one that needs capacity is not when the others hold all of it; then only the
   destination is cleared.
   */
  lemma CloneCopies(c: Config, u: Unit, d: nat, src: nat)
    requires d < LOCKERS && src < LOCKERS && d != src && Inv(u, u.slots + Held(u.L))
    ensures var o, l := DoClone(c, u, d, src), u.L[src];
            match o.r
            case Ok =>
              !Configuring(l.mdh) &&
              o.u.L == u.L[d := l.(content := if l.slot then l.content else 0, tag := if l.slot then l.tag else 0)]
            case PrivilegeViolation => Configuring(l.mdh) && o.u.L == u.L[d := EMPTY]
            case OutOfMemory => o.u.L == u.L[d := EMPTY] && Held(o.u.L) == u.slots + Held(u.L)
            case _ => false
  {
    hide Held;
    HeldUpdate(u.L, d, EMPTY);
  }
}
