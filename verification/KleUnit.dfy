/**
 The management unit as objects: an array of 32 locker objects whose fields are updated in place, which are replaced
 by new ones when a locker is freed, and whose references kl.rename and kl.swap move.  No two array elements are ever
 the same object, and every method makes exactly the step of KleMachine.
 */
module KleUnit {
  import opened Wrappers
  import opened Modular
  import opened Metadata
  import opened KleMachine

  class Locker {
    var mdh: Mdh
    var content: nat
    var tag: nat
    var slot: bool

    constructor ()
      ensures Value() == EMPTY
    {
      mdh, content, tag, slot := ZERO, 0, 0, false;
    }

    ghost function Value(): Context
      reads this
    {
      Context(mdh, content, tag, slot)
    }
  }

  class Kle {
    const c: Config
    const L: array<Locker>
    var nl: nat
    var start: nat
    var slots: nat
    var pool: seq<nat>
    var rng: nat
    var cskSel: nat

    ghost function Lockers(): set<Locker>
      reads L
    {
      set i | 0 <= i < L.Length :: L[i]
    }

    /** No two lockers share an object. */
    ghost predicate Valid()
      reads this, L
    {
      L.Length == LOCKERS && nl <= NONE && forall i, j :: 0 <= i < j < LOCKERS ==> L[i] != L[j]
    }

    ghost function Contexts(): (s: seq<Context>)
      reads L, L[..]
      ensures |s| == L.Length && forall i :: 0 <= i < L.Length ==> s[i] == L[i].Value()
    {
      seq(L.Length, i requires 0 <= i < L.Length reads L, L[..] => L[i].Value())
    }

    ghost function State(): (u: Unit)
      requires Valid()
      reads this, L, L[..]
    {
      Fields(Contexts(), nl, start, slots, pool, rng, cskSel)
    }

    constructor (c: Config, capacity: nat, rng: nat)
      ensures Valid() && State() == Create(capacity, rng) && this.c == c && fresh(L) && fresh(Lockers())
    {
      this.c, this.rng, slots, pool := c, rng, capacity, [];
      nl, start, cskSel := NONE, 0, 0;
      var first := new Locker();
      L := new Locker[LOCKERS](_ => first);
      new;
      var i := 0;
      while i < LOCKERS
        invariant 0 <= i <= LOCKERS && L.Length == LOCKERS && fresh(L) && fresh(first)
        invariant forall j :: 0 <= j < LOCKERS ==> fresh(L[j])
        invariant forall j :: 0 <= j < i ==> L[j].Value() == EMPTY
        invariant forall j, k :: 0 <= j < k < i ==> L[j] != L[k]
        modifies L
      {
        L[i] := new Locker();
        i := i + 1;
      }
    }

    // ---------------------------------------------------------------- one locker

    method Free(k: nat)
      requires Valid() && k < LOCKERS
      modifies this`slots, this`pool, L
      ensures Valid() && State() == KleMachine.Free(old(State()), k) && fresh(Lockers() - old(Lockers())) && fresh(L[k])
    {
      var l := L[k];
      if l.slot {
        pool, slots := pool + [l.content], slots + 1;
      }
      L[k] := new Locker();
      assert Contexts() == old(Contexts())[k := EMPTY];
    }

    method Alloc(k: nat) returns (ok: bool)
      requires Valid() && k < LOCKERS
      modifies this`slots, this`pool, L[k]
      ensures Valid() && ok == KleMachine.Alloc(c, old(State()), k).Some?
      ensures State() == if ok then KleMachine.Alloc(c, old(State()), k).value else old(State())
    {
      if slots == 0 {
        return false;
      }
      var last := 0;
      slots := slots - 1;
      if |pool| > 0 {
        last, pool := pool[|pool| - 1], pool[..|pool| - 1];
      }
      L[k].slot, L[k].content := true, if c.zeroAlloc then 0 else last;
      assert Contexts() == old(Contexts())[k := L[k].Value()];
      return true;
    }

    method SetMdh(k: nat, m: Mdh)
      requires Valid() && k < LOCKERS
      modifies L[k]
      ensures Valid() && State() == KleMachine.SetMdh(old(State()), k, m)
    {
      L[k].mdh := m;
      assert Contexts() == old(Contexts())[k := L[k].Value()];
    }

    method SetContent(k: nat, content: nat, tag: nat)
      requires Valid() && k < LOCKERS
      modifies L[k]
      ensures Valid()
      ensures State() == old(State()).(L := old(Contexts())[k := old(Contexts())[k].(content := content, tag := tag)])
    {
      L[k].content, L[k].tag := content, tag;
      assert Contexts() == old(Contexts())[k := L[k].Value()];
    }

    method Err(k: nat, se: nat)
      requires Valid() && k < LOCKERS
      modifies this`slots, this`pool, L
      ensures Valid() && State() == KleMachine.Err(old(State()), k, se) && fresh(Lockers() - old(Lockers()))
    {
      var m := Errored(L[k].mdh, se);
      Free(k);
      SetMdh(k, m);
    }

    /** Whether the Machine lets the instruction go on; an expired locker becomes an Error State. */
    method Gate(k: nat) returns (g: Gate)
      requires Valid() && k < LOCKERS
      modifies this`slots, this`pool, L
      ensures Valid() && fresh(Lockers() - old(Lockers())) && g == UsageGate(c, old(State()).L[k].mdh)
      ensures State() == if g == Expired then KleMachine.Err(old(State()), k, SE_EXPIRED) else old(State())
      ensures g != Expired ==> L[..] == old(L[..])
    {
      hide UsageGate;
      g := UsageGate(c, L[k].mdh);
      if g == Expired {
        Err(k, SE_EXPIRED);
      }
    }

    method Clear(k: nat)
      requires Valid() && k < LOCKERS
      modifies this`slots, this`pool, this`nl, L
      ensures Valid() && State() == KleMachine.Clear(old(State()), k) && fresh(Lockers() - old(Lockers())) &&
              fresh(L[k])
    {
      Free(k);
      if nl == k {
        nl := NONE;
      }
    }

    method FreeAll()
      requires Valid()
      modifies this`slots, this`pool, L
      ensures Valid() && State() == FreeFrom(old(State()), 0) && fresh(Lockers() - old(Lockers()))
    {
      hide KleMachine.Free, FreeFrom, State, Contexts;
      ghost var all := FreeFrom(State(), 0);
      ghost var before := Lockers();
      var k := 0;
      while k < LOCKERS
        invariant Valid() && 0 <= k <= LOCKERS && fresh(Lockers() - before)
        invariant FreeFrom(State(), k) == all
      {
        FreeFromUnfold(State(), k);
        Free(k);
        k := k + 1;
      }
      FreeFromUnfold(State(), LOCKERS);
    }

    method ClearAll()
      requires Valid()
      modifies this`slots, this`pool, this`nl, this`start, L
      ensures Valid() && State() == KleMachine.ClearAll(old(State())) && fresh(Lockers() - old(Lockers()))
    {
      hide FreeFrom;
      FreeAll();
      nl, start := NONE, 0;
    }

    method SetStE(k: nat, se: nat)
      requires Valid() && k < LOCKERS
      modifies this`slots, this`pool, L, L[k]
      ensures Valid() && State() == KleMachine.SetStE(old(State()), k, se) && fresh(Lockers() - old(Lockers()))
    {
      if Unconfigured(L[k].mdh) {
        SetMdh(k, ZERO);
      }
      Err(k, se);
    }

    // ---------------------------------------------------------------- usage and restriction

    /** kl.setst to a State, or kl.exec, on the locker k if there is one. */
    method Usage(tgt: Option<nat>, target: Option<nat>) returns (r: Result)
      requires Valid() && (tgt.Some? ==> tgt.value < LOCKERS)
      modifies this`slots, this`pool, this`start, L, Lockers()
      ensures Valid() && Outcome(State(), r) == KleMachine.Usage(c, old(State()), tgt, target)
      ensures fresh(Lockers() - old(Lockers()))
    {
      hide UsageGate, MachineAdmits, KleMachine.Err;
      if tgt.None? || L[tgt.value].mdh.state == 0 {
        if target.None? {
          start := 0;
        }
        return Ok;
      }
      var k := tgt.value;
      if Configuring(L[k].mdh) {
        return PrivilegeViolation;
      }
      var g := Gate(k);
      if g != Passed {
        return if g.Refused? then g.r else Ok;
      }
      if !MachineAdmits(L[k].mdh, target) {
        Err(k, SE_INVALID);
      } else if target.None? {
        start := 0;
      } else {
        SetMdh(k, L[k].mdh.(state := target.value));
      }
      return Ok;
    }

    method NoSuchState(tgt: Option<nat>) returns (r: Result)
      requires Valid() && (tgt.Some? ==> tgt.value < LOCKERS)
      modifies this`slots, this`pool, L
      ensures Valid() && Outcome(State(), r) == KleMachine.NoSuchState(c, old(State()), tgt)
      ensures fresh(Lockers() - old(Lockers()))
    {
      hide UsageGate, KleMachine.Err;
      if tgt.None? || L[tgt.value].mdh.state == 0 {
        return Ok;
      }
      if Configuring(L[tgt.value].mdh) {
        return PrivilegeViolation;
      }
      var g := Gate(tgt.value);
      if g == Passed {
        Err(tgt.value, SE_INVALID);
      }
      return if g.Refused? then g.r else Ok;
    }

    method ClearAds(tgt: Option<nat>, form: Form) returns (r: Result)
      requires Valid() && (tgt.Some? ==> tgt.value < LOCKERS)
      modifies this`slots, this`pool, L, Lockers()
      ensures Valid() && Outcome(State(), r) == KleMachine.ClearAds(c, old(State()), tgt, form)
      ensures fresh(Lockers() - old(Lockers()))
    {
      hide UsageGate, KleMachine.Err;
      if tgt.None? || L[tgt.value].mdh.state == 0 {
        return Ok;
      }
      var k := tgt.value;
      if Configuring(L[k].mdh) {
        return PrivilegeViolation;
      }
      var g := Gate(k);
      if g == Passed {
        if form != FormA {
          Err(k, SE_INVALID);
        } else {
          SetMdh(k, L[k].mdh.(auxLen := 0, dropped := 0, use := 0, auxInfo := 0));
        }
      }
      return if g.Refused? then g.r else Ok;
    }

    method Restrict(tgt: Option<nat>, rq: Mdh, part: Part) returns (r: Result)
      requires Valid() && (tgt.Some? ==> tgt.value < LOCKERS)
      modifies this`slots, this`pool, L, Lockers()
      ensures Valid() && Outcome(State(), r) == DoRestrict(c, old(State()), tgt, rq, part)
      ensures fresh(Lockers() - old(Lockers()))
    {
      hide AsksTooMuch, Restricted, KleMachine.Err;
      if tgt.None? || L[tgt.value].mdh.state == 0 {
        return Ok;
      }
      var k := tgt.value;
      if Configuring(L[k].mdh) {
        return PrivilegeViolation;
      }
      if AsksTooMuch(c, rq, part != High, part != Low) {
        Err(k, SE_INVALID);
        return Ok;
      }
      var m := Restricted(L[k].mdh, rq, part != High, part != Low);
      if m.None? {
        return PrivilegeViolation;
      }
      SetMdh(k, m.value);
      return Ok;
    }

    // ---------------------------------------------------------------- copying and moving

    /** A copy of a locker in its Valid State into a free one, which takes capacity of its own. */
    method CopyInto(d: nat, l: Locker) returns (ok: bool)
      requires Valid() && d < LOCKERS && l != L[d]
      modifies this`slots, this`pool, L[d]
      ensures Valid() && ok == KleMachine.Alloc(c, old(State()), d).Some?
      ensures State() == if ok then
                           var u := KleMachine.Alloc(c, old(State()), d).value;
                               u.(L := u.L[d := old(l.Value()).(slot := true)])
                         else old(State())
    {
      ok := Alloc(d);
      if ok {
        SetMdh(d, l.mdh);
        SetContent(d, l.content, l.tag);
        assert Contexts() == old(Contexts())[d := old(l.Value()).(slot := true)];
      }
    }

    method Clone(d: nat, src: nat) returns (r: Result)
      requires Valid() && d <= NONE && src <= NONE
      modifies this`slots, this`pool, this`nl, L
      ensures Valid() && Outcome(State(), r) == DoClone(c, old(State()), d, src) && fresh(Lockers() - old(Lockers()))
    {
      hide KleMachine.Alloc, KleMachine.Free, Contexts;
      if d == NONE || src == NONE || d == src {
        return Ok;
      }
      ClearKeepsOthers(State(), d, src);
      Clear(d);
      var l := L[src];
      if l.mdh.state == 0 {
        SetMdh(d, l.mdh);
        return Ok;
      }
      if Configuring(l.mdh) {
        return PrivilegeViolation;
      }
      var ok := CopyInto(d, l);
      return if ok then Ok else OutOfMemory;
    }

    /** The reference moves; the source gets a new locker. */
    method Rename(d: nat, src: nat)
      requires Valid() && d <= NONE && src <= NONE
      modifies this`slots, this`pool, this`nl, L
      ensures Valid() && State() == DoRename(old(State()), d, src) && fresh(Lockers() - old(Lockers()))
    {
      if d == NONE || src == NONE || d == src {
        return;
      }
      if Unconfigured(L[src].mdh) {
        Clear(d);
        return;
      }
      Clear(d);
      MoveReference(d, src);
      if nl == src {
        nl := d;
      }
    }

    method MoveReference(d: nat, src: nat)
      requires Valid() && d < LOCKERS && src < LOCKERS && d != src
      modifies L
      ensures Valid() && fresh(Lockers() - old(Lockers()))
      ensures State() == old(State()).(L := old(Contexts())[d := old(Contexts())[src]][src := EMPTY])
    {
      L[d] := L[src];
      L[src] := new Locker();
      assert Contexts() == old(Contexts())[d := old(Contexts())[src]][src := EMPTY];
    }

    /** The two references change places. */
    method Swap(d: nat, src: nat)
      requires Valid() && d <= NONE && src <= NONE
      modifies this`nl, L
      ensures Valid() && State() == DoSwap(old(State()), d, src) && Lockers() == old(Lockers())
    {
      if d == NONE || src == NONE || d == src {
        return;
      }
      L[d], L[src] := L[src], L[d];
      SameLockers(old(L[..]), L[..], d, src);
      assert Contexts() == old(Contexts())[d := old(Contexts())[src]][src := old(Contexts())[d]];
      if nl == d {
        nl := src;
      } else if nl == src {
        nl := d;
      }
    }

    // ---------------------------------------------------------------- configuration operations

    method RequireCsk(level: nat) returns (ok: bool)
      requires Valid()
      modifies this`cskSel
      ensures Valid() && (State(), ok) == KleMachine.RequireCsk(c, old(State()), level)
    {
      ok := level in c.cskLevels && (c.multcsk || level == cskSel);
      if !ok && c.multcsk && (c.cskMethod == 1 || c.cskMethod == 2) {
        cskSel := level;
      }
    }

    method CompleteProvision(k: nat)
      requires Valid() && k < LOCKERS
      modifies this`slots, this`pool, this`rng, L, L[k]
      ensures Valid() && Outcome(State(), Ok) == KleMachine.CompleteProvision(c, old(State()), k)
      ensures fresh(Lockers() - old(Lockers()))
    {
      hide KleMachine.Err;
      var m := L[k].mdh;
      if m.auxLen != 0 || m.dropped != 0 {
        Err(k, SE_INVALID);
        return;
      }
      if m.keyType == 2 {
        rng := c.random(rng);
        SetContent(k, rng, L[k].tag);
        m := m.(keyType := 0);
      }
      SetMdh(k, m.(state := 1, stateExt := 0, use := 0, auxInfo := 0));
    }

    method Complete(k: nat, ml: Mdh) returns (r: Result)
      requires Valid() && k < LOCKERS
      modifies this`slots, this`pool, this`rng, this`start, L, L[k]
      ensures Valid() && Outcome(State(), r) == KleMachine.Complete(c, old(State()), k, ml)
      ensures fresh(Lockers() - old(Lockers()))
    {
      hide KleMachine.Err, KleMachine.CompleteProvision, Configured, Completes;
      start := 0;
      var m := L[k].mdh;
      if m.state == 0 {
        return Ok;
      }
      if !Configuring(m) {
        return Illegal;
      }
      if m.state == 56 {
        CompleteProvision(k);
        return Ok;
      }
      if !Completes(m, ml.state) {
        return Illegal;
      }
      if m.version == 3 && ml.state == 0 {
        return OtherFormat;
      }
      var authentic := L[k].tag == c.tagOf(L[k].content);
      SetMdh(k, m.(state := ml.state));
      if 1 <= ml.state <= 55 && !Configured(c.lst, m.loc) {
        Err(k, SE_INVALID);
      } else if (m.state == 58 || m.state == 60) && 1 <= ml.state <= 55 && !authentic {
        Err(k, SE_MGMT_AUTH);
      }
      return Ok;
    }

    method ExportOpen(k: nat) returns (r: Result)
      requires Valid() && k < LOCKERS
      modifies this`start, this`cskSel, L[k]
      ensures Valid() && Outcome(State(), r) == KleMachine.ExportOpen(c, old(State()), k)
    {
      hide Configured;
      start := 0;
      var m := L[k].mdh;
      if m.state == 0 {
        return Ok;
      }
      if Configuring(m) {
        SetMdh(k, m.(state := if InPi(m.state) then 59 else 57));
        return Ok;
      }
      var ok := RequireCsk(m.scProt);
      if !ok {
        return NoCsk;
      }
      if Configured(c.lst, m.loc) {
        SetMdh(k, m.(state := 57));
      }
      return Ok;
    }

    /** The short import of an Error State, and metadata that is invalid. */
    method OpenError(k: nat, md: Mdh, bad: bool)
      requires Valid() && k < LOCKERS
      modifies this`slots, this`pool, L, L[k]
      ensures Valid() && fresh(Lockers() - old(Lockers()))
      ensures State() == if bad then KleMachine.SetMdh(old(State()), k, ZERO.(stateExt := SE_INVALID))
                         else KleMachine.Err(KleMachine.SetMdh(old(State()), k, md), k, md.stateExt)
    {
      hide KleMachine.Err, KleMachine.SetMdh;
      if bad {
        SetMdh(k, ZERO.(stateExt := SE_INVALID));
      } else {
        SetMdh(k, md);
        Err(k, md.stateExt);
      }
    }

    /** The operation is opened: capacity for it, and its metadata. */
    method OpenGood(k: nat, md: Mdh, provision: bool) returns (r: Result)
      requires Valid() && k < LOCKERS
      modifies this`slots, this`pool, this`cskSel, L[k]
      ensures Valid() && Outcome(State(), r) == KleMachine.OpenGood(c, old(State()), k, md, provision)
    {
      hide KleMachine.SetMdh, KleMachine.Alloc, KleMachine.RequireCsk, Opened;
      var ok := true;
      if !provision && md.version != 3 && !InPi(md.state) {
        ok := RequireCsk(md.scProt);
      }
      if !ok {
        return NoCsk;
      }
      ok := Alloc(k);
      if !ok {
        return OutOfMemory;
      }
      SetMdh(k, Opened(c, md, provision));
      return Ok;
    }

    method Open(k: nat, md: Mdh, provision: bool) returns (r: Result)
      requires Valid() && k < LOCKERS
      modifies this`slots, this`pool, this`start, this`cskSel, L
      ensures Valid() && Outcome(State(), r) == KleMachine.Open(c, old(State()), k, md, provision)
      ensures fresh(Lockers() - old(Lockers()))
    {
      hide KleMachine.Err, KleMachine.SetMdh, KleMachine.Free, KleMachine.OpenGood, Check, Contexts;
      start := 0;
      Free(k);
      if !provision && md.state == 0 && 1 <= md.stateExt <= 6 {
        OpenError(k, md, Check(c, md, false) == Bad);
        return Ok;
      }
      match Check(c, md, provision) {
        case Bad =>
          OpenError(k, md, true);
          r := Ok;
        case NotSupported => r := Unsupported;
        case Good => r := OpenGood(k, md, provision);
      }
    }

    method Mgmt(tgt: Option<nat>, immed: nat, form: Form, md0: Mdh) returns (r: Result)
      requires Valid() && (tgt.Some? ==> tgt.value < LOCKERS)
      modifies this, L, Lockers()
      ensures Valid() && Outcome(State(), r) == KleMachine.Mgmt(c, old(State()), tgt, immed, form, md0)
      ensures fresh(Lockers() - old(Lockers()))
    {
      hide KleMachine.Complete, KleMachine.ExportOpen, KleMachine.Open, KleMachine.RequireCsk;
      var md := if form == FormA then ZERO else md0;
      if tgt.None? {
        start := 0;
        return Ok;
      }
      nl := tgt.value;
      if immed == 63 {
        var m := L[nl].mdh;
        if InScc(m.state) && m.version != 3 && 1 <= md.state <= 55 {
          start := 0;
          var ok := RequireCsk(m.scProt);
          if !ok {
            return NoCsk;
          }
        }
        r := Complete(tgt.value, md);
      } else if immed == 57 {
        r := ExportOpen(tgt.value);
      } else {
        r := Open(tgt.value, md, immed == 56);
      }
    }

    // ---------------------------------------------------------------- the instructions

    method EnterState(tgt: Option<nat>, immed: nat, form: Form) returns (r: Result)
      requires Valid() && (tgt.Some? ==> tgt.value < LOCKERS)
      modifies this, L, Lockers()
      ensures Valid() && Outcome(State(), r) == KleMachine.EnterState(c, old(State()), tgt, immed, form)
      ensures fresh(Lockers() - old(Lockers()))
    {
      hide KleMachine.ClearAds, KleMachine.NoSuchState, KleMachine.Usage;
      if immed == 64 {
        r := ClearAds(tgt, form);
      } else if immed == 54 || immed == 55 || immed > 65 {
        r := NoSuchState(tgt);
      } else {
        r := Usage(tgt, Some(immed));
      }
    }

    method SetSt(kd: nat, immed: nat, r: bool, form: Form, g: nat, md: Mdh) returns (res: Result)
      requires Valid()
      modifies this, L, Lockers()
      ensures Valid() && Outcome(State(), res) == DoSetSt(c, old(State()), kd, immed, r, form, g, md)
      ensures fresh(Lockers() - old(Lockers()))
    {
      hide NoInstruction, Locked, KleMachine.Mgmt, KleMachine.EnterState, KleMachine.SetStE, KleMachine.Clear,
           KleMachine.ClearAll;
      if NoInstruction(c, kd, immed, r, form, g) {
        return Illegal;
      }
      if Locked(c) {
        return NoCsk;
      }
      if BadTarget(kd, r) {
        return Illegal;
      }
      var tgt := if !r then Some(kd) else if nl == NONE then None else Some(nl);
      res := Ok;
      if g == 1 {
        if tgt.Some? {
          SetStE(tgt.value, immed);
        }
      } else if g == 3 {
        res := Mgmt(tgt, immed, form, md);
      } else if immed == 0 {
        if tgt.Some? {
          Clear(tgt.value);
        }
      } else if immed == 65 {
        ClearAll();
      } else {
        res := EnterState(tgt, immed, form);
      }
    }

    /** Content and tag into the named locker, while an operation that takes content is open. */
    method MvIn(content: nat, tag: nat) returns (r: Result)
      requires Valid()
      modifies Lockers()
      ensures Valid() && Outcome(State(), r) == DoMvIn(old(State()), content, tag) && Lockers() == old(Lockers())
    {
      if nl == NONE || L[nl].mdh.state == 0 {
        return Ok;
      }
      var st := L[nl].mdh.state;
      if !(st == 56 || st == 58 || st == 60) {
        return Illegal;
      }
      SetContent(nl, content, tag);
      return Ok;
    }

    method MvOut() returns (r: Result)
      requires Valid()
      ensures Outcome(State(), r) == DoMvOut(c, State())
    {
      if nl == NONE || L[nl].mdh.state == 0 {
        return Value(0, 0);
      }
      if !(L[nl].mdh.state == 57 || L[nl].mdh.state == 59) {
        return Illegal;
      }
      return Value(L[nl].content, c.tagOf(L[nl].content));
    }
  }

  lemma ClearKeepsOthers(u: Unit, k: nat, j: nat)
    requires k < LOCKERS && j < LOCKERS && j != k
    ensures KleMachine.Clear(u, k).L[j] == u.L[j]
  {
  }

  lemma FreeFromUnfold(u: Unit, k: nat)
    requires k <= LOCKERS
    ensures FreeFrom(u, k) == if k == LOCKERS then u else FreeFrom(Free(u, k), k + 1)
  {
  }

  lemma SameLockers(a: seq<Locker>, b: seq<Locker>, d: nat, src: nat)
    requires d < |a| && src < |a| && b == a[d := a[src]][src := a[d]]
    ensures (set i | 0 <= i < |a| :: a[i]) == (set i | 0 <= i < |b| :: b[i])
  {
    var s, t := set i | 0 <= i < |a| :: a[i], set i | 0 <= i < |b| :: b[i];
    forall i | 0 <= i < |a|
      ensures a[i] in t && b[i] in s
    {
      var j := if i == d then src else if i == src then d else i;
      assert a[i] == b[j] && b[i] == a[j];
    }
  }
}
