/**
 The management unit: 32 lockers over a finite capacity, configured by opening and completing operations, copied,
 moved and exchanged, restricted and cleared.  `Step` is the transition function; the class in KleUnit changes its
 locker objects as the model's methods do and is proved to follow it.
 */
module KleMachine {
  import opened Wrappers
  import opened Modular
  import opened Metadata

  const LOCKERS: nat := 32

  /** The number that names no locker. */
  const NONE: nat := 32

  const TOYENC := 1
  const TOYSIG := 2
  const TOYKEY := 4
  const TOYKEM := 8
  const TOYHASH := 0x20

  /** A locker: its metadata, its content with its tag, and whether it holds capacity. */
  datatype Context = Context(mdh: Mdh, content: nat, tag: nat, slot: bool)

  const EMPTY: Context := Context(ZERO, 0, 0, false)

  /** What does not change: the features of the unit, the privilege mode, the clock, the Locality entries. */
  datatype Config = Config(zk: bool, mode: nat, clock: Option<int>, csk: bool, cskLevels: set<nat>, multcsk: bool,
                           cskMethod: nat, zeroAlloc: bool, maxAds: nat, lst: seq<nat>, skid: bool, hasRng: bool,
                           tagOf: nat -> nat, random: nat -> nat)

  datatype Fields = Fields(L: seq<Context>, nl: nat, start: nat, slots: nat, pool: seq<nat>, rng: nat, cskSel: nat)

  type Unit = u: Fields | |u.L| == LOCKERS &&
      u.nl <= NONE witness Fields(seq(LOCKERS, _ => EMPTY), NONE, 0, 0, [], 0, 0)

  datatype Form = FormA | FormB | FormC | FormD

  /** What an instruction returns, or the exception it raises. */
  datatype Result =
    | Ok
    | Value(content: nat, tag: nat)
    | Illegal
    | PrivilegeViolation
    | OutOfMemory
    | NoCsk
    | ClockUnavailable
    | Unsupported
    | OtherFormat

  datatype Outcome = Outcome(u: Unit, r: Result)

  /** A locker number, or the locker that klnamedlocker names. */
  datatype Operand = Number(k: nat) | Named

  datatype Part = Low | High | Whole

  datatype Instr =
    | SetSt(kd: nat, immed: nat, r: bool, form: Form, g: nat, md: Mdh)
    | Exec(kd: nat, r: bool)
    | Restrict(kd: nat, rq: Mdh, r: bool, part: Part)
    | Clone(d: Operand, src: Operand)
    | Rename(d: Operand, src: Operand)
    | Swap(d: Operand, src: Operand)
    | MvIn(content: nat, tag: nat)
    | MvOut
    | SetNl(v: nat)

  // ---------------------------------------------------------------- metadata

  predicate IsContent(machine: nat) {
    machine == 1 || machine == 2 || machine == 4 || machine == 8 || machine == 0x10 || machine == 0x20 ||
        machine == 0x40 ||
    machine == 0x80 || machine == 0x100
  }

  predicate InPi(st: nat) {
    st == 56 || st == 59 || st == 60
  }

  predicate InScc(st: nat) {
    st == 57 || st == 58
  }

  predicate Unconfigured(m: Mdh) {
    m.state == 0 && m.stateExt == 0
  }

  /** A Configuration State. */
  predicate Configuring(m: Mdh) {
    56 <= m.state <= 60
  }

  datatype Verdict = Good | Bad | NotSupported

  predicate BadFormat(m: Mdh, provision: bool) {
    if m.version == 3 then
      provision || !(m.state == 0 || m.state == 58 || m.state == 57) || m.auxLen == 0 || m.stateExt != 0 ||
          m.keyType != 0 ||
      m.transparent != 0 || m.dropped != 0 || m.use != 0
    else m.version != 0 || m.auxLen == 1
  }

  predicate BadContext(m: Mdh, provision: bool) {
    if provision then m.state != 0 || m.stateExt != 0 || m.auxLen != 0 || m.dropped != 0
    else
      || m.state == 61 || m.state == 62 || m.state == 63
      || (m.state == 0 && ((m.stateExt == 0 && m.version != 3) || m.stateExt > 6)) || (m.keyType == 2 && !InPi(m.state))
      || (InPi(m.state) && (m.auxLen != 0 || m.dropped != 0))
  }

  /** The metadata rules that do not depend on the unit's tables; invalid takes precedence over unsupported. */
  function Validate(m: Mdh, provision: bool, zk: bool): Verdict {
    var bad :=
      || m.res46 != 0 || m.res78 != 0 || m.res116 != 0 || m.scProt >= 4 || m.keyType == 3 || m.loc.high == 3
      || (m.transparent == 1 && m.keyType == 1) || BadFormat(m, provision)
      || (m.stateExt == 6 && !zk) || (m.expDate != 0 && !zk)
      || ((m.machine == TOYENC || m.machine == TOYKEY) && m.policy == 0)
      || (IsContent(m.machine) && (m.keyType == 1 || m.keyType == 2) && m.machine != TOYKEY)
      || BadContext(m, provision);
    if bad then Bad else if IsContent(m.machine) then Good else NotSupported
  }

  /** The first non-zero entry from j on in its chain of three, or zero. */
  function Chained(lst: seq<nat>, j: nat, end: nat): nat
    requires j <= end <= |lst|
    decreases end - j
  {
    if j == end then 0 else if lst[j] != 0 then lst[j] else Chained(lst, j + 1, end)
  }

  /** Entry j of the Locality table after substitution. */
  function Conf(lst: seq<nat>, j: nat): nat {
    if j >= |lst| then 0
    else if j < 3 then Chained(lst, j, if |lst| < 3 then |lst| else 3)
    else if j < 6 then Chained(lst, j, if |lst| < 6 then |lst| else 6)
    else lst[j]
  }

  /** Every entry that the Locality field names is configured. */
  predicate Configured(lst: seq<nat>, loc: Locality) {
    && (1 <= loc.low <= 3 ==> Conf(lst, loc.low - 1) != 0)
    && (1 <= loc.mid <= 3 ==> Conf(lst, 3 + loc.mid - 1) != 0)
    && (1 <= loc.high <= 2 ==> Conf(lst, 6 + loc.high - 1) != 0)
    && (BitOf(loc.flags, 0) ==> Conf(lst, 8) != 0) && (BitOf(loc.flags, 1) ==> Conf(lst, 9) != 0)
    && (BitOf(loc.flags, 2) ==> Conf(lst, 10) != 0)
  }

  function Check(c: Config, m: Mdh, provision: bool): Verdict {
    var v := Validate(m, provision, c.zk);
    if v != Good then v
    else if !Configured(c.lst, m.loc) then Bad
    else if (m.keyType == 1 && !c.skid) || (m.keyType == 2 && !c.hasRng) then NotSupported
    else Good
  }

  // ---------------------------------------------------------------- capacity

  function SetMdh(u: Unit, k: nat, m: Mdh): Unit
    requires k < LOCKERS
  {
    u.(L := u.L[k := u.L[k].(mdh := m)])
  }

  /** The locker becomes empty; its capacity goes back, with what is in it. */
  function Free(u: Unit, k: nat): Unit
    requires k < LOCKERS
  {
    var l := u.L[k];
    u.(L := u.L[k := EMPTY], pool := if l.slot then u.pool + [l.content] else u.pool,
       slots := if l.slot then u.slots + 1 else u.slots)
  }

  /** Capacity for the locker: freed capacity first, which reads zero if the unit clears it. */
  function Alloc(c: Config, u: Unit, k: nat): Option<Unit>
    requires k < LOCKERS
  {
    if u.slots == 0 then None
    else
      var n := |u.pool|;
      var last := if n == 0 then 0 else u.pool[n - 1];
      Some(u.(slots := u.slots - 1, pool := if n == 0 then [] else u.pool[..n - 1],
              L := u.L[k := u.L[k].(slot := true, content := if c.zeroAlloc then 0 else last)]))
  }

  /** The metadata of an Error State. */
  function Errored(m: Mdh, se: nat): Mdh {
    m.(state := 0, stateExt := se, auxLen := 0, dropped := 0, version := if m.version == 3 then 0 else m.version,
       keyType := if m.keyType == 2 then 0 else m.keyType)
  }

  function Err(u: Unit, k: nat, se: nat): Unit
    requires k < LOCKERS
  {
    SetMdh(Free(u, k), k, Errored(u.L[k].mdh, se))
  }

  /** The locker an instruction works on: Illegal, or none, or a number. */
  function Target(u: Unit, kd: nat, r: bool): Option<nat> {
    if r then (if u.nl == NONE then None else Some(u.nl)) else Some(kd)
  }

  predicate BadTarget(kd: nat, r: bool) {
    if r then kd != 0 else kd >= LOCKERS
  }

  // ---------------------------------------------------------------- clearing and usage

  function Unnamed(u: Unit, k: nat): Unit {
    if u.nl == k then u.(nl := NONE) else u
  }

  function Clear(u: Unit, k: nat): Unit
    requires k < LOCKERS
  {
    Unnamed(Free(u, k), k)
  }

  function FreeFrom(u: Unit, k: nat): Unit
    requires k <= LOCKERS
    decreases LOCKERS - k
  {
    if k == LOCKERS then u else FreeFrom(Free(u, k), k + 1)
  }

  function ClearAll(u: Unit): Unit {
    FreeFrom(u, 0).(nl := NONE, start := 0)
  }

  function SetStE(u: Unit, k: nat, se: nat): Unit
    requires k < LOCKERS
  {
    Err(if Unconfigured(u.L[k].mdh) then SetMdh(u, k, ZERO) else u, k, se)
  }

  datatype Gate = Passed | Refused(r: Result) | Expired

  /** UsagePolicy, then ExpirationDate. */
  function UsageGate(c: Config, m: Mdh): Gate {
    if !BitOf(m.usage, c.mode) then Refused(PrivilegeViolation)
    else if c.zk && m.expDate != 0 then
      match c.clock
      case None => Refused(ClockUnavailable)
      case Some(t) => if (if t < 0 then 0 else if t > 0xFFFFF then 0xFFFFF else t) >= m.expDate then Expired else Passed
    else Passed
  }

  /** What the toy Machines admit: a new State, or a kl.exec. */
  predicate MachineAdmits(m: Mdh, target: Option<nat>) {
    match target
    case None =>
      if m.state == 2 then m.machine == TOYSIG || m.machine == TOYKEM || m.machine == TOYHASH || BitOf(m.policy, 0)
      else m.state == 3 && (m.machine == TOYSIG || BitOf(m.policy, 1))
    case Some(t) =>
      t == 1 ||
      (m.state == 1 &&
       (if m.machine == TOYSIG then t == 2 || t == 3
        else if m.machine == TOYKEM || m.machine == TOYHASH then t == 2
        else (t == 2 && BitOf(m.policy, 0)) || (t == 3 && BitOf(m.policy, 1))))
  }

  /** kl.setst to another State, or kl.exec (target None), which also resets klstart. */
  function Usage(c: Config, u: Unit, tgt: Option<nat>, target: Option<nat>): Outcome
    requires tgt.Some? ==> tgt.value < LOCKERS
  {
    var idle := if target.None? then u.(start := 0) else u;
    if tgt.None? || u.L[tgt.value].mdh.state == 0 then Outcome(idle, Ok)
    else
      var k := tgt.value;
      var m := u.L[k].mdh;
      if Configuring(m) then Outcome(u, PrivilegeViolation)
      else
        match UsageGate(c, m)
        case Refused(r) => Outcome(u, r)
        case Expired => Outcome(Err(u, k, SE_EXPIRED), Ok)
        case Passed =>
          if !MachineAdmits(m, target) then Outcome(Err(u, k, SE_INVALID), Ok)
          else if target.None? then Outcome(idle, Ok)
          else Outcome(SetMdh(u, k, m.(state := target.value)), Ok)
  }

  /** A State that no Machine has. */
  function NoSuchState(c: Config, u: Unit, tgt: Option<nat>): Outcome
    requires tgt.Some? ==> tgt.value < LOCKERS
  {
    if tgt.None? || u.L[tgt.value].mdh.state == 0 then Outcome(u, Ok)
    else if Configuring(u.L[tgt.value].mdh) then Outcome(u, PrivilegeViolation)
    else
      match UsageGate(c, u.L[tgt.value].mdh)
      case Refused(r) => Outcome(u, r)
      case Expired => Outcome(Err(u, tgt.value, SE_EXPIRED), Ok)
      case Passed => Outcome(Err(u, tgt.value, SE_INVALID), Ok)
  }

  function ClearAds(c: Config, u: Unit, tgt: Option<nat>, form: Form): Outcome
    requires tgt.Some? ==> tgt.value < LOCKERS
  {
    if tgt.None? || u.L[tgt.value].mdh.state == 0 then Outcome(u, Ok)
    else if Configuring(u.L[tgt.value].mdh) then Outcome(u, PrivilegeViolation)
    else
      match UsageGate(c, u.L[tgt.value].mdh)
      case Refused(r) => Outcome(u, r)
      case Expired => Outcome(Err(u, tgt.value, SE_EXPIRED), Ok)
      case Passed =>
        if form != FormA then Outcome(Err(u, tgt.value, SE_INVALID), Ok)
        else Outcome(SetMdh(u, tgt.value, u.L[tgt.value].mdh.(auxLen := 0, dropped := 0, use := 0, auxInfo := 0)), Ok)
  }

  // ---------------------------------------------------------------- restricting

  function And(a: nat, b: nat): nat {
    if a == 0 || b == 0 then 0 else (if a % 2 == 1 && b % 2 == 1 then 1 else 0) + 2 * And(a / 2, b / 2)
  }

  function Or(a: nat, b: nat): nat
    decreases a + b
  {
    if a == 0 && b == 0 then 0 else (if a % 2 == 1 || b % 2 == 1 then 1 else 0) + 2 * Or(a / 2, b / 2)
  }

  /** A field other than those that may be restricted is asked for. */
  predicate AsksTooMuch(c: Config, rq: Mdh, lo: bool, hi: bool) {
    || (lo && !(rq.machine == 0 && rq.ext == 0 && rq.scProt == 0 && rq.transparent == 0 && rq.state == 0 &&
        rq.stateExt == 0 &&
                rq.keyType == 0 && rq.auxLen == 0 && rq.res46 == 0 && rq.dropped == 0 && rq.use == 0 &&
                    rq.version == 0))
    || (hi && !(rq.res78 == 0 && rq.auxInfo == 0 && rq.res116 == 0))
    || (hi && !c.zk && rq.expDate != 0)
  }

  /** One selector of the Locality field: None where the request cannot be met. */
  function Narrowed(a: nat, b: nat, chain: bool): Option<nat> {
    if b == 0 || b == a then Some(a) else if a == 0 || (chain && b > a) then Some(b) else None
  }

  function NarrowedDate(cur: nat, asked: nat): nat {
    if asked != 0 && (cur == 0 || asked <= cur) then asked else cur
  }

  function Restricted(m: Mdh, rq: Mdh, lo: bool, hi: bool): Option<Mdh> {
    var m1 := if lo then m.(policy := And(m.policy, rq.policy)) else m;
    if !hi then Some(m1)
    else
      var a, b, d := Narrowed(m.loc.low, rq.loc.low, true), Narrowed(m.loc.mid, rq.loc.mid, true),
                     Narrowed(m.loc.high, rq.loc.high, false);
      if a.None? || b.None? || d.None? then None
      else Some(m1.(usage := And(m.usage, rq.usage), expDate := NarrowedDate(m.expDate, rq.expDate),
                    loc := Locality(a.value, b.value, d.value, Or(m.loc.flags, rq.loc.flags))))
  }

  function DoRestrict(c: Config, u: Unit, tgt: Option<nat>, rq: Mdh, part: Part): Outcome
    requires tgt.Some? ==> tgt.value < LOCKERS
  {
    if tgt.None? || u.L[tgt.value].mdh.state == 0 then Outcome(u, Ok)
    else
      var k := tgt.value;
      var m := u.L[k].mdh;
      if Configuring(m) then Outcome(u, PrivilegeViolation)
      else if AsksTooMuch(c, rq, part != High, part != Low) then Outcome(Err(u, k, SE_INVALID), Ok)
      else
        match Restricted(m, rq, part != High, part != Low)
        case None => Outcome(u, PrivilegeViolation)
        case Some(m') => Outcome(SetMdh(u, k, m'), Ok)
  }

  // ---------------------------------------------------------------- copying and moving

  function Resolve(u: Unit, o: Operand): nat {
    if o.Named? then u.nl else o.k
  }

  predicate BadOperand(o: Operand) {
    o.Number? && o.k >= LOCKERS
  }

  function DoClone(c: Config, u: Unit, d: nat, src: nat): Outcome
    requires d <= NONE && src <= NONE
  {
    if d == NONE || src == NONE || d == src then Outcome(u, Ok)
    else
      var u1 := Clear(u, d);
      var l := u.L[src];
      if l.mdh.state == 0 then Outcome(SetMdh(u1, d, l.mdh), Ok)
      else if Configuring(l.mdh) then Outcome(u1, PrivilegeViolation)
      else
        match Alloc(c, u1, d)
        case None => Outcome(u1, OutOfMemory)
        case Some(u2) => Outcome(u2.(L := u2.L[d := l.(slot := true)]), Ok)
  }

  function DoRename(u: Unit, d: nat, src: nat): Unit
    requires d <= NONE && src <= NONE
  {
    if d == NONE || src == NONE || d == src then u
    else if Unconfigured(u.L[src].mdh) then Clear(u, d)
    else
      var u1 := Clear(u, d);
      u1.(L := u1.L[d := u1.L[src]][src := EMPTY], nl := if u1.nl == src then d else u1.nl)
  }

  function DoSwap(u: Unit, d: nat, src: nat): Unit
    requires d <= NONE && src <= NONE
  {
    if d == NONE || src == NONE || d == src then u
    else u.(L := u.L[d := u.L[src]][src := u.L[d]], nl := if u.nl == d then src else if u.nl == src then d else u.nl)
  }

  // ---------------------------------------------------------------- configuration operations

  /** Whether the CSK of the level is there; a write sequence may be started for it. */
  function RequireCsk(c: Config, u: Unit, level: nat): (Unit, bool) {
    if level in c.cskLevels && (c.multcsk || level == u.cskSel) then (u, true)
    else if c.multcsk && (c.cskMethod == 1 || c.cskMethod == 2) then (u.(cskSel := level), false)
    else (u, false)
  }

  /** The State that the completing ml.State must be in. */
  predicate Completes(m: Mdh, target: nat) {
    if m.version == 3 then target == 58 || target == 57 || (target == 0 && m.state == 58)
    else if InPi(m.state) then InPi(target)
    else 1 <= target <= 55 || InScc(target)
  }

  function CompleteProvision(c: Config, u: Unit, k: nat): Outcome
    requires k < LOCKERS
  {
    var m := u.L[k].mdh;
    if m.auxLen != 0 || m.dropped != 0 then Outcome(Err(u, k, SE_INVALID), Ok)
    else
      var newKey := m.keyType == 2;
      var rng := if newKey then c.random(u.rng) else u.rng;
      var l := u.L[k].(content := if newKey then rng else u.L[k].content,
                       mdh := m.(keyType := if newKey then 0
                           else m.keyType, state := 1, stateExt := 0, use := 0, auxInfo := 0));
      Outcome(u.(rng := rng, L := u.L[k := l]), Ok)
  }

  function Complete(c: Config, u0: Unit, k: nat, ml: Mdh): Outcome
    requires k < LOCKERS
  {
    var u := u0.(start := 0);
    var l := u.L[k];
    var m := l.mdh;
    if m.state == 0 then Outcome(u, Ok)
    else if !Configuring(m) then Outcome(u, Illegal)
    else if m.state == 56 then CompleteProvision(c, u, k)
    else if !Completes(m, ml.state) then Outcome(u, Illegal)
    else if m.version == 3 && ml.state == 0 then Outcome(u, OtherFormat)
    else
      var u1 := SetMdh(u, k, m.(state := ml.state));
      if 1 <= ml.state <= 55 && !Configured(c.lst, m.loc) then Outcome(Err(u1, k, SE_INVALID), Ok)
      else if (m.state == 58 || m.state == 60) && 1 <= ml.state <= 55 && l.tag != c.tagOf(l.content) then
        Outcome(Err(u1, k, SE_MGMT_AUTH), Ok)
      else Outcome(u1, Ok)
  }

  function ExportOpen(c: Config, u0: Unit, k: nat): Outcome
    requires k < LOCKERS
  {
    var u := u0.(start := 0);
    var m := u.L[k].mdh;
    if m.state == 0 then Outcome(u, Ok)
    else if Configuring(m) then Outcome(SetMdh(u, k, m.(state := if InPi(m.state) then 59 else 57)), Ok)
    else
      var (u1, ok) := RequireCsk(c, u, m.scProt);
      if !ok then Outcome(u1, NoCsk)
      else if !Configured(c.lst, m.loc) then Outcome(u1, Ok)
      else Outcome(SetMdh(u1, k, m.(state := 57)), Ok)
  }

  /** The metadata with which an operation is opened. */
  function Opened(c: Config, md: Mdh, provision: bool): Mdh {
    if provision then md.(use := 0, auxInfo := 0, state := 56)
    else
      var m := md.(state := if InPi(md.state) then 60 else 58);
      if md.version == 3 then m
      else m.(dropped := if md.auxLen >= 2 && (md.dropped != 0 || md.auxLen > c.maxAds) then 1 else 0)
  }

  /** An operation whose metadata passed: the CSK of an import, capacity, the metadata. */
  function OpenGood(c: Config, u: Unit, k: nat, md: Mdh, provision: bool): Outcome
    requires k < LOCKERS
  {
    var (u1, ok) := if !provision && md.version != 3 && !InPi(md.state) then RequireCsk(c, u, md.scProt) else (u, true);
    if !ok then Outcome(u1, NoCsk)
    else
      match Alloc(c, u1, k)
      case None => Outcome(u1, OutOfMemory)
      case Some(u2) => Outcome(SetMdh(u2, k, Opened(c, md, provision)), Ok)
  }

  /** Opening a provisioning or an import. */
  function Open(c: Config, u0: Unit, k: nat, md: Mdh, provision: bool): Outcome
    requires k < LOCKERS
  {
    var u := Free(u0.(start := 0), k);
    if !provision && md.state == 0 && 1 <= md.stateExt <= 6 then
      if Check(c, md, false) == Bad then Outcome(SetMdh(u, k, ZERO.(stateExt := SE_INVALID)), Ok)
      else Outcome(Err(SetMdh(u, k, md), k, md.stateExt), Ok)
    else
      match Check(c, md, provision)
      case Bad => Outcome(SetMdh(u, k, ZERO.(stateExt := SE_INVALID)), Ok)
      case NotSupported => Outcome(u, Unsupported)
      case Good => OpenGood(c, u, k, md, provision)
  }

  function Mgmt(c: Config, u0: Unit, tgt: Option<nat>, immed: nat, form: Form, md0: Mdh): Outcome
    requires tgt.Some? ==> tgt.value < LOCKERS
  {
    var md := if form == FormA then ZERO else md0;
    if tgt.None? then Outcome(u0.(start := 0), Ok)
    else
      var k := tgt.value;
      var u := u0.(nl := k);
      if immed == 63 then
        var m := u.L[k].mdh;
        var (u1, ok) := if InScc(m.state) && m.version != 3 &&
            1 <= md.state <= 55 then RequireCsk(c, u.(start := 0), m.scProt)
                        else (u, true);
        if !ok then Outcome(u1, NoCsk) else Complete(c, u1, k, md)
      else if immed == 57 then ExportOpen(c, u, k)
      else Open(c, u, k, md, immed == 56)
  }

  // ---------------------------------------------------------------- the instructions

  /** No CSK at all: nothing but reads. */
  predicate Locked(c: Config) {
    !c.csk || c.cskLevels == {}
  }

  /** The forms and numbers that are no instruction; group 1 sets an Error State, group 3 is kl.mgmt. */
  predicate NoInstruction(c: Config, kd: nat, immed: nat, r: bool, form: Form, g: nat) {
    if g == 1 then form != FormA || !(1 <= immed <= 6) || (immed == 6 && !c.zk)
    else if g == 3 then form == FormB || !(immed == 56 || immed == 57 || immed == 58 || immed == 63)
    else (immed == 65 && (form != FormA || kd != 0 || r)) || 56 <= immed <= 63
  }

  /** The State numbers that name a State, or kl.clearads. */
  function EnterState(c: Config, u: Unit, tgt: Option<nat>, immed: nat, form: Form): Outcome
    requires tgt.Some? ==> tgt.value < LOCKERS
  {
    if immed == 64 then ClearAds(c, u, tgt, form)
    else if immed == 54 || immed == 55 || immed > 65 then NoSuchState(c, u, tgt)
    else Usage(c, u, tgt, Some(immed))
  }

  function DoSetSt(c: Config, u: Unit, kd: nat, immed: nat, r: bool, form: Form, g: nat, md: Mdh): Outcome {
    if NoInstruction(c, kd, immed, r, form, g) then Outcome(u, Illegal)
    else if Locked(c) then Outcome(u, NoCsk)
    else if BadTarget(kd, r) then Outcome(u, Illegal)
    else
      var tgt := Target(u, kd, r);
      if g == 1 then Outcome(if tgt.None? then u else SetStE(u, tgt.value, immed), Ok)
      else if g == 3 then Mgmt(c, u, tgt, immed, form, md)
      else if immed == 0 then Outcome(if tgt.None? then u else Clear(u, tgt.value), Ok)
      else if immed == 65 then Outcome(ClearAll(u), Ok)
      else EnterState(c, u, tgt, immed, form)
  }

  function DoMvIn(u: Unit, content: nat, tag: nat): Outcome {
    if u.nl == NONE || u.L[u.nl].mdh.state == 0 then Outcome(u, Ok)
    else
      var st := u.L[u.nl].mdh.state;
      if !(st == 56 || st == 58 || st == 60) then Outcome(u, Illegal)
      else Outcome(u.(L := u.L[u.nl := u.L[u.nl].(content := content, tag := tag)]), Ok)
  }

  function DoMvOut(c: Config, u: Unit): Outcome {
    if u.nl == NONE || u.L[u.nl].mdh.state == 0 then Outcome(u, Value(0, 0))
    else
      var l := u.L[u.nl];
      if !(l.mdh.state == 57 || l.mdh.state == 59) then Outcome(u, Illegal)
      else Outcome(u, Value(l.content, c.tagOf(l.content)))
  }

  function Step(c: Config, u: Unit, i: Instr): Outcome {
    match i
    case SetSt(kd, immed, r, form, g, md) => DoSetSt(c, u, kd, immed, r, form, g, md)
    case Exec(kd, r) =>
      if Locked(c) then Outcome(u, NoCsk) else if BadTarget(kd, r) then Outcome(u, Illegal)
      else Usage(c, u, Target(u, kd, r), None)
    case Restrict(kd, rq, r, part) =>
      if Locked(c) then Outcome(u, NoCsk) else if BadTarget(kd, r) then Outcome(u, Illegal)
      else DoRestrict(c, u, Target(u, kd, r), rq, part)
    case Clone(d, src) =>
      if Locked(c) then Outcome(u, NoCsk) else if BadOperand(d) || BadOperand(src) then Outcome(u, Illegal)
      else DoClone(c, u, Resolve(u, d), Resolve(u, src))
    case Rename(d, src) =>
      if Locked(c) then Outcome(u, NoCsk) else if BadOperand(d) || BadOperand(src) then Outcome(u, Illegal)
      else Outcome(DoRename(u, Resolve(u, d), Resolve(u, src)), Ok)
    case Swap(d, src) =>
      if Locked(c) then Outcome(u, NoCsk) else if BadOperand(d) || BadOperand(src) then Outcome(u, Illegal)
      else Outcome(DoSwap(u, Resolve(u, d), Resolve(u, src)), Ok)
    case MvIn(content, tag) => DoMvIn(u, content, tag)
    case MvOut => DoMvOut(c, u)
    case SetNl(v) => Outcome(if v <= NONE then u.(nl := v) else u, Ok)
  }

  /** A unit with n units of capacity and no locker configured. */
  function Create(n: nat, rng: nat): Unit {
    Fields(seq(LOCKERS, _ => EMPTY), NONE, 0, n, [], rng, 0)
  }
}
