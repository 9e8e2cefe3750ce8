/** Whole runs of a hash locker: the message absorbed so far, and how much of its output stream has been read. */
module HashRuns {
  import opened Wrappers
  import opened Modular
  import opened BitStrings
  import opened HashMachine
  import opened HashReference
  import opened HashCorrect

  // ---------------------------------------------------------------- the output stream

  /**
   The locker stands at bit pos of the output for the state S; bound is the length of the output, 0 if there is none.
   */
  ghost predicate At(g: Config, m: Hash, S: Bits, pos: nat, bound: nat) {
    && Ok(g, m) && CoreOk(g.f, m.c) && |S| == StateLen(g.f)
    && m.c.S == Squeezes(g.f, S, Turn(g.f, pos)) && m.c.bb == Spot(g.f, pos)
    && (if bound == 0 then IsXof(g.f) && m.outl == 0 else m.outl > 0 && pos + m.outl == bound)
    && (!IsXof(g.f) ==> bound <= T(g.f))
  }

  lemma TurnSpot(f: Fn, pos: nat, a: nat)
    requires FnOk(f) && Spot(f, pos) + a <= T(f)
    ensures Spot(f, pos) + a < T(f) ==> Turn(f, pos + a) == Turn(f, pos) && Spot(f, pos + a) == Spot(f, pos) + a
    ensures Spot(f, pos) + a == T(f) ==> Turn(f, pos + a) == Turn(f, pos) + 1 && Spot(f, pos + a) == 0
  {
    hide T;
    var t, n, r := T(f), Turn(f, pos), Spot(f, pos);
    assert pos == n * t + r;
    if r + a < t {
      DivModUnique(pos + a, t, n, r + a);
    } else {
      assert pos + a == (n + 1) * t;
      DivModUnique(pos + a, t, n + 1, 0);
    }
  }

  /** The bits from the place in the state on are the next bits of the output. */
  lemma NextBits(f: Fn, S: Bits, pos: nat, a: nat)
    requires FnOk(f) && |S| == StateLen(f) && Spot(f, pos) + a <= T(f)
    ensures Squeezes(f, S, Turn(f, pos))[Spot(f, pos)..Spot(f, pos) + a] == OutRange(f, S, pos, a)
  {
    hide Squeezes, Turn, Spot, T, OutBit;
    var left, right := Squeezes(f, S, Turn(f, pos))[Spot(f, pos)..Spot(f, pos) + a], OutRange(f, S, pos, a);
    forall i | 0 <= i < a
      ensures left[i] == right[i]
    {
      BitAt(f, S, pos, i);
      assert right[i] == OutBit(f, S, pos + i);
    }
  }

  lemma BitAt(f: Fn, S: Bits, pos: nat, i: nat)
    requires FnOk(f) && |S| == StateLen(f) && Spot(f, pos) + i < T(f)
    ensures OutBit(f, S, pos + i) == Squeezes(f, S, Turn(f, pos))[Spot(f, pos) + i]
  {
    hide Squeezes, Turn, Spot, T;
    TurnSpot(f, pos, i);
  }

  lemma RangeJoin(f: Fn, S: Bits, pos: nat, a: nat, n: nat)
    requires FnOk(f) && |S| == StateLen(f)
    ensures OutRange(f, S, pos, a) + OutRange(f, S, pos + a, n) == OutRange(f, S, pos, a + n)
  {
    hide OutBit;
  }

  lemma SqueezesNext(f: Fn, S: Bits, n: nat)
    requires FnOk(f) && |S| == StateLen(f)
    ensures Squeezes(f, S, n + 1) == if f.Sponge? then Slice(f.P(Squeezes(f, S, n)), 0, 1600) else Squeezes(f, S, n)
  {
    if !f.Sponge? {
      assert Squeezes(f, S, n) == S;
    }
  }

  /** Taking a bits, and squeezing when the state has been read completely, moves on by a. */
  lemma TakeMoves(g: Config, m: Hash, S: Bits, pos: nat, bound: nat, a: nat)
    requires At(g, m, S, pos, bound) && m.c.bb + a <= T(g.f) && (m.outl != 0 ==> a < m.outl)
    requires m.st == OutBits ==> a <= m.lbl
    ensures var m1 := Taken(g, m, a); At(g, m1.(c := Squeezed(g, m1.c)), S, pos + a, bound)
  {
    hide Squeezes, Turn, Spot, FnOk, T;
    TurnSpot(g.f, pos, a);
    SqueezesNext(g.f, S, Turn(g.f, pos));
    TBelowB(g.f);
  }

  /** What the loop emits are the next bits of the output, and the count of what is left keeps up. */
  lemma {:induction false} OutFromStream(g: Config, m: Hash, ob: nat, kl: nat, halt: bool, out: Bits, S: Bits, pos: nat,
      bound: nat)
    returns (n: nat)
    requires Emits(g, m) && ob < kl && At(g, m, S, pos, bound)
    ensures |S| == StateLen(g.f) && FnOk(g.f)
    ensures var o := OutFrom(g, m, ob, kl, halt, out);
            n > 0 && o.out == out + OutRange(g.f, S, pos, n) && o.moved == |o.out| &&
                Emitted(g, m, o, ob, kl, S, pos, bound, n)
    decreases kl - ob
  {
    hide At, Emits, OutFrom, Moved, OutRange, Squeezes, Turn, Spot, Ok, T, FnOk, Emitted, StopsHere;
    EmitsOk(g, m);
    AtFacts(g, m, S, pos, bound);
    var a := OutTurn(g, m, ob, kl, halt, out);
    var piece, m2, e := m.c.S[m.c.bb..m.c.bb + a], Moved(g, m, a), ob + a;
    var o := OutFrom(g, m, ob, kl, halt, out);
    NextBits(g.f, S, pos, a);
    n := a;
    if m.outl == a {
      EmittedAll(g, m, o, ob, kl, S, pos, bound, a);
    } else {
      MovedAt(g, m, S, pos, bound, a);
      if StopsHere(m2, m.c.bb + a == T(g.f), e, kl, halt) {
        EmittedPart(g, m, o, ob, kl, S, pos, bound, a, m.c.bb + a == T(g.f), halt);
      } else if e >= kl || (m.st == OutBits && m2.lbl == 0) {
        EmittedPart(g, m, o, ob, kl, S, pos, bound, a, m.c.bb + a == T(g.f), halt);
      } else {
        var k := OutFromStream(g, m2, e, kl, halt, out + piece, S, pos + a, bound);
        n := a + k;
        RangeJoin(g.f, S, pos, a, k);
        assert out + piece + OutRange(g.f, S, pos + a, k) == out + (piece + OutRange(g.f, S, pos + a, k));
        EmittedLater(g, m, o, ob, kl, S, pos, bound, a, k);
      }
    }
  }

  lemma MovedAt(g: Config, m: Hash, S: Bits, pos: nat, bound: nat, a: nat)
    requires Emits(g, m) && At(g, m, S, pos, bound) && m.c.bb + a <= T(g.f) && (m.outl != 0 ==> a < m.outl)
    requires m.st == OutBits ==> a <= m.lbl
    ensures At(g, Moved(g, m, a), S, pos + a, bound)
  {
    TakeMoves(g, m, S, pos, bound, a);
  }

  lemma EmittedAll(g: Config, m: Hash, o: Outcome, ob: nat, kl: nat, S: Bits, pos: nat, bound: nat, a: nat)
    requires At(g, m, S, pos, bound) && m.outl == a > 0 && o.m.st == Success && o.halted.None?
    ensures Emitted(g, m, o, ob, kl, S, pos, bound, a)
  {
    hide Squeezes, Turn, Spot, Ok, T;
  }

  lemma EmittedPart(g: Config, m: Hash, o: Outcome, ob: nat, kl: nat, S: Bits, pos: nat, bound: nat, a: nat, full: bool,
      halt: bool)
    requires Emits(g, m) && m.c.bb + a <= T(g.f) && (m.outl != 0 ==> a <= m.outl) && (m.st == OutBits ==> a <= m.lbl)
    requires At(g, Moved(g, m, a), S, pos + a, bound) && o.m == Moved(g, m, a) && a <= kl - ob
    requires (StopsHere(o.m, full, ob + a, kl, halt) && o.halted == Some((ob + a) / 8)) ||
             ((ob + a >= kl || (m.st == OutBits && o.m.lbl == 0)) && o.halted.None?)
    ensures Emitted(g, m, o, ob, kl, S, pos, bound, a)
  {
    hide Squeezes, Turn, Spot, T, At, Squeezed;
  }

  lemma EmittedLater(g: Config, m: Hash, o: Outcome, ob: nat, kl: nat, S: Bits, pos: nat, bound: nat, a: nat, k: nat)
    requires Emits(g, m) && m.c.bb + a <= T(g.f) && (m.outl != 0 ==> a <= m.outl) && (m.st == OutBits ==> a <= m.lbl)
    requires Emitted(g, Moved(g, m, a), o, ob + a, kl, S, pos + a, bound, k)
    ensures Emitted(g, m, o, ob, kl, S, pos, bound, a + k)
  {
    hide Squeezes, Turn, Spot, T, At, Squeezed, Ok;
  }

  /** The outcome after n emitted bits: done, or standing n bits further. */
  ghost predicate Emitted(g: Config, m: Hash, o: Outcome, ob: nat, kl: nat, S: Bits, pos: nat, bound: nat, n: nat) {
    if o.m.st == Success then bound > 0 && pos + n == bound && o.halted.None?
    else
      && At(g, o.m, S, pos + n, bound) && o.m.st == m.st && o.m.policy == m.policy
      && o.m.lbl == (if m.st == OutBits then m.lbl - n else m.lbl)
      && (o.halted.None? ==> ob + n == kl || (m.st == OutBits && o.m.lbl == 0))
      && (o.halted.Some? ==> ob + n < kl && o.halted.value == (ob + n) / 8 && (m.st == OutBits ==> (ob + n) % 8 == 0))
  }

  lemma EmitsOk(g: Config, m: Hash)
    requires Emits(g, m)
    ensures ConfigOk(g) && Ok(g, m) && (m.st == Output || m.st == OutBits) && m.c.bb < T(g.f)
  {
  }

  lemma AtFacts(g: Config, m: Hash, S: Bits, pos: nat, bound: nat)
    requires At(g, m, S, pos, bound)
    ensures |S| == StateLen(g.f) && ConfigOk(g) && m.c.S == Squeezes(g.f, S, Turn(g.f, pos)) && m.c.bb == Spot(g.f, pos)
    ensures m.outl != 0 ==> bound > 0 && pos + m.outl == bound
  {
  }

  // ---------------------------------------------------------------- the invariant over all instructions

  /** The message bits absorbed, how many output bits have been read, and the length of the output. */
  datatype History = History(msg: Bits, pos: nat, bound: nat)

  const NOTHING: History := History([], 0, 0)

  ghost predicate Inv(g: Config, m: Hash, h: History) {
    m.st != Invalid ==>
      && Ok(g, m) && (g.f.Blake? ==> 1 <= m.nn <= g.f.w) && (g.key.Some? ==> AdmitsTagLen(g))
      && (m.st == Absorb || m.st == Last ==> Fed(g, m.kk, m.nn, m.c, h.msg))
      && (m.st == Absorb || (m.st == Last && m.lbl > 0) ==> |h.msg| % 8 == 0)
      && (m.st == Output || m.st == OutBits ==> At(g, m, RefState(g, m.kk, m.nn, h.msg), h.pos, h.bound))
      && (m.st == Verify ==> g.key.Some? && m.c.S == RefState(g, m.kk, m.nn, h.msg) && m.tagLen == g.tagLenP)
  }

  /** The history after an instruction. */
  function HistoryStep(g: Config, m: Hash, h: History, i: Instr): History
    requires Readable(g, m) && (i.Exec? ==> |i.data| % 8 == 0)
  {
    var o := Step(g, m, i);
    match i
    case SetSt(_, _, _) =>
      if o.m.st == Absorb && m.st != Absorb then NOTHING
      else if (o.m.st == Output || o.m.st == OutBits) && (m.st == Absorb ||
          m.st == Last) then h.(pos := 0, bound := o.m.outl)
      else h
    case SetAux(_, _) => h
    case Exec(_, data, _, klstart, _) =>
      if m.st == Absorb then
        if o.moved % 8 == 0 then h.(msg := h.msg + Order(g.f, Slice(data, 8 * klstart, o.moved))) else h
      else if m.st == Last then
        if o.moved > 0 && m.lbl <= |data| then h.(msg := h.msg + LastPiece(g.f, data, m.lbl)) else h
      else if m.st == Output || m.st == OutBits then h.(pos := h.pos + o.moved)
      else h
    case Restrict(_) => h
  }

  lemma InvReadable(g: Config, m: Hash, h: History)
    requires Inv(g, m, h) && Ok(g, m)
    ensures Readable(g, m)
  {
    hide Fed, RefState, Squeezes, Turn, T;
  }

  /** The reading position starts at the beginning of the finalized state. */
  lemma ClosedAt(g: Config, m: Hash, msg: Bits)
    requires Ok(g, m) && Fed(g, m.kk, m.nn, m.c, msg)
    ensures Closed(g, m).Some? ==>
              Closed(g, m).value.c.S == RefState(g, m.kk, m.nn, msg) && Closed(g, m).value.c.bb == 0 &&
              Closed(g, m).value == m.(c := Closed(g, m).value.c, lbl := 0)
  {
    hide HmacOuter, Finalized, Fed, PlainState;
    if g.key.Some? {
      HmacFinal(g, m.kk, m.nn, m.c, msg);
    } else {
      PlainFinal(g, m.kk, m.nn, m.c, msg);
    }
  }

  lemma StartAt(g: Config, m: Hash, S: Bits, bound: nat)
    requires Ok(g, m) && m.st == Output && m.c.S == S && m.c.bb == 0 && m.outl == bound && (bound == 0 ==>
             IsXof(g.f)) && (!IsXof(g.f) ==> bound <= T(g.f))
    ensures At(g, m, S, 0, bound)
  {
    hide T;
    DivModUnique(0, T(g.f), 0, 0);
  }

  lemma SetOutputInv(g: Config, m: Hash, h: History, form: Form, xs: nat)
    requires Inv(g, m, h) && m.st != Invalid
    ensures var r := SetOutput(g, m, form, xs);
            r.st != Invalid ==>
              r.st == Output && (m.st == Absorb || m.st == Last) && Inv(g, r, h.(pos := 0, bound := r.outl))
  {
    hide Fed, RefState, Closed, At, T;
    if OutputAdmitted(g, m, form, xs) {
      ClosedAt(g, m, h.msg);
      FullFits(g, m);
      var c := Closed(g, m);
      if c.Some? {
        var r := c.value.(outl := if xs != 0 then xs else FullOut(g, m), st := Output);
        StartAt(g, r, RefState(g, m.kk, m.nn, h.msg), r.outl);
      }
    }
  }

  lemma FullFits(g: Config, m: Hash)
    requires Ok(g, m) && (g.f.Blake? ==> 1 <= m.nn <= g.f.w)
    ensures if IsXof(g.f) then FullOut(g, m) == 0 else 0 < FullOut(g, m) <= T(g.f)
  {
  }

  lemma SetVerifyInv(g: Config, m: Hash, h: History, form: Form, xs: nat)
    requires Inv(g, m, h) && m.st != Invalid
    ensures Inv(g, SetVerify(g, m, form, xs), h)
  {
    hide Fed, RefState, Closed, At, T;
    if m.st == Absorb || m.st == Last {
      ClosedAt(g, m, h.msg);
    }
  }

  lemma SetBitsInv(g: Config, m: Hash, h: History, form: Form, xs: nat)
    requires Inv(g, m, h) && m.st != Invalid
    ensures var r := SetBits(g, m, form, xs);
            r.st != Invalid ==>
              r.st == OutBits && Inv(g, r, if m.st == Absorb || m.st == Last then h.(pos := 0, bound := r.outl) else h)
  {
    hide Fed, RefState, SetOutput, T, Squeezes, Turn, Spot;
    if m.st == Absorb || m.st == Last {
      SetOutputInv(g, m, h, FormA, 0);
    }
  }

  lemma SetStInv(g: Config, m: Hash, h: History, target: St, form: Form, xs: nat)
    requires Inv(g, m, h) && Ok(g, m)
    ensures Readable(g, m) && Inv(g, DoSetSt(g, m, target, form, xs), HistoryStep(g, m, h, SetSt(target, form, xs)))
  {
    hide Fed, RefState, SetOutput, SetVerify, SetBits, EnterAbsorb, At, T;
    InvReadable(g, m, h);
    if m.st != Invalid {
      if target == Output {
        SetOutputInv(g, m, h, form, xs);
      } else if target == Verify {
        SetVerifyInv(g, m, h, form, xs);
        VerifyState(g, m, form, xs);
      } else if target == OutBits {
        SetBitsInv(g, m, h, form, xs);
      } else if target == Absorb {
        FedStart(g, m);
        AbsorbState(g, m);
      }
    }
  }

  lemma VerifyState(g: Config, m: Hash, form: Form, xs: nat)
    requires Ok(g, m)
    ensures SetVerify(g, m, form, xs).st == Invalid || SetVerify(g, m, form, xs).st == Verify
  {
    hide Closed;
  }

  lemma AbsorbState(g: Config, m: Hash)
    requires Ok(g, m)
    ensures EnterAbsorb(g, m) == m.(st := Absorb, lbl := B(g.f), c := EnterAbsorb(g, m).c)
  {
    hide PutAll;
  }

  lemma OutputInv(g: Config, m: Hash, h: History, kl: nat, klstart: nat, halt: bool)
    requires Inv(g, m, h) && (m.st == Output || m.st == OutBits) && (m.st == OutBits ==> m.lbl > 0) && Readable(g, m)
    ensures Inv(g, DoOutput(g, m, kl, klstart, halt).m, h.(pos := h.pos + DoOutput(g, m, kl, klstart, halt).moved))
  {
    hide Fed, RefState, At, OutFrom, T, OutRange, Squeezes, Turn, Spot;
    var S := RefState(g, m.kk, m.nn, h.msg);
    if !Empty(kl, klstart) && !(klstart != 0 && m.c.bb != 0 && m.st == Output) {
      var n := OutFromStream(g, m, 8 * klstart, kl, halt, [], S, h.pos, h.bound);
    }
  }

  /** Every instruction keeps the invariant. */
  lemma ExecInv(g: Config, m: Hash, h: History, form: Form, data: Bits, kllen: nat, klstart: nat, halt: bool)
    requires Inv(g, m, h) && Ok(g, m) && |data| % 8 == 0
    ensures Readable(g, m)
    ensures Inv(g, DoExec(g, m, form, data, kllen, klstart, halt).m, HistoryStep(g, m, h, Exec(form, data, kllen,
            klstart, halt)))
  {
    hide Fed, RefState, At, T, DoAbsorb, DoLast, DoOutput, Order, LastPiece, Slice;
    InvReadable(g, m, h);
    if m.st == Absorb {
      AbsorbFeeds(g, m, h.msg, data, klstart, halt);
    } else if m.st == Last {
      if 0 < m.lbl <= |data| {
        LastFeeds(g, m, h.msg, data);
        LastFields(g, m, data);
      }
      NoPiece(g, h.msg);
    } else if m.st == Output || m.st == OutBits {
      if m.st == Output || m.lbl > 0 {
        OutputInv(g, m, h, kllen, klstart, halt);
      }
    }
  }

  lemma NoPiece(g: Config, msg: Bits)
    ensures msg + [] == msg
  {
  }

  lemma LastFields(g: Config, m: Hash, data: Bits)
    requires Ok(g, m) && m.st == Last && m.lbl <= |data| && |data| % 8 == 0
    ensures DoLast(g, m, data) == m.(c := DoLast(g, m, data).c, lbl := 0)
  {
    hide PutAll, Vli;
  }

  lemma StepKeepsInv(g: Config, m: Hash, h: History, i: Instr)
    requires Inv(g, m, h) && Ok(g, m) && (i.Exec? ==> |i.data| % 8 == 0)
    ensures Readable(g, m) && Inv(g, Step(g, m, i).m, HistoryStep(g, m, h, i))
  {
    hide DoSetSt, DoExec, DoRestrict, Fed, RefState, At, T;
    InvReadable(g, m, h);
    match i
    case SetSt(target, form, xs) => SetStInv(g, m, h, target, form, xs);
    case SetAux(form, xs) =>
    case Exec(form, data, kllen, klstart, halt) => ExecInv(g, m, h, form, data, kllen, klstart, halt);
    case Restrict(mask) => RestrictInv(g, m, h, mask);
  }

  lemma RestrictInv(g: Config, m: Hash, h: History, mask: nat)
    requires Inv(g, m, h) && Ok(g, m)
    ensures Inv(g, DoRestrict(g, m, mask), h)
  {
    hide Fed, RefState, T, Squeezes, Turn, Spot;
  }

  lemma CreateInv(g: Config, policy: nat)
    requires ConfigOk(g)
    ensures Inv(g, Create(g, policy), NOTHING)
  {
    hide Fed, RefState, At, T;
  }

  // ---------------------------------------------------------------- runs

  predicate WholeData(instrs: seq<Instr>) {
    forall i :: 0 <= i < |instrs| ==> instrs[i].Exec? ==> |instrs[i].data| % 8 == 0
  }

  /** The locker and the history after a run. */
  ghost function After(g: Config, m: Hash, h: History, instrs: seq<Instr>): (r: (Hash, History))
    requires Ok(g, m) && Inv(g, m, h) && WholeData(instrs)
    ensures Ok(g, r.0) && Inv(g, r.0, r.1)
    decreases |instrs|
  {
    hide Step, Inv, HistoryStep, Ok;
    if instrs == [] then (m, h)
    else
      StepKeepsInv(g, m, h, instrs[0]);
      After(g, Step(g, m, instrs[0]).m, HistoryStep(g, m, h, instrs[0]), instrs[1..])
  }

  ghost function AfterRun(g: Config, policy: nat, instrs: seq<Instr>): (r: (Hash, History))
    requires ConfigOk(g) && WholeData(instrs)
    ensures Ok(g, r.0) && Inv(g, r.0, r.1)
  {
    hide Inv, Ok;
    CreateInv(g, policy);
    After(g, Create(g, policy), NOTHING, instrs)
  }

  /**
   Reading.  After any run, an admitted read hands out the next bits of the output for the message that was absorbed:
   bits pos, pos + 1, ... of one stream.  Success is entered exactly when a bounded output is used up; otherwise as many
   bits are left as before less those read.
   */
  lemma ReadsOneStream(g: Config, policy: nat, instrs: seq<Instr>, kl: nat, klstart: nat, halt: bool)
    requires ConfigOk(g) && WholeData(instrs)
    ensures var (m, h) := AfterRun(g, policy, instrs);
            Readable(g, m) &&
            var o := DoExec(g, m, FormC, [], kl, klstart, halt);
            (m.st == Output || m.st == OutBits) && o.m.st != Invalid && !Empty(kl, klstart) ==>
              o.moved > 0 && o.out == OutRange(g.f, RefState(g, m.kk, m.nn, h.msg), h.pos, o.moved) &&
              (o.m.st == Success <==> h.bound > 0 && h.pos + o.moved == h.bound) &&
              (o.m.st != Success ==> o.m.outl + (if h.bound == 0 then 0 else o.moved) == m.outl)
  {
    hide OutFrom, OutRange, RefState, AfterRun, Fed, T, Squeezes, Turn, Spot;
    var (m, h) := AfterRun(g, policy, instrs);
    InvReadable(g, m, h);
    if (m.st == Output || (m.st == OutBits && m.lbl > 0)) && !Empty(kl, klstart) {
      var S := RefState(g, m.kk, m.nn, h.msg);
      var n := OutFromStream(g, m, 8 * klstart, kl, halt, [], S, h.pos, h.bound);
      assert [] + OutRange(g.f, S, h.pos, n) == OutRange(g.f, S, h.pos, n);
    }
  }

  /**
   A halted read stops where the next one may start: the locker can go on, in the same State and inside the window.
   */
  lemma {:induction false} OutHalts(g: Config, m: Hash, ob: nat, kl: nat, out: Bits)
    requires Emits(g, m) && ob < kl && |out| <= ob
    ensures var o := OutFrom(g, m, ob, kl, true, out);
            o.halted.Some? ==>
              Emits(g, o.m) && o.m.st == m.st && o.m.policy == m.policy && (m.st == Output ==> o.m.c.bb == 0) &&
              8 * o.halted.value < kl && |out| < |o.out| &&
              (m.st == OutBits || (ob % 8 == 0 && m.c.bb % 8 == 0) ==> 8 * o.halted.value == ob + (|o.out| - |out|))
    decreases kl - ob
  {
    hide Emits, OutFrom, Moved, Ok, T, FnOk, CoreOk, ConfigOk, Amount;
    EmitsState(g, m);
    var a := OutTurn(g, m, ob, kl, true, out);
    var piece, m2, e := m.c.S[m.c.bb..m.c.bb + a], Moved(g, m, a), ob + a;
    if m.outl != a {
      if StopsHere(m2, m.c.bb + a == T(g.f), e, kl, true) {
        StoppedEmits(g, m, a, e);
      } else if e < kl && !(m.st == OutBits && m2.lbl == 0) {
        if m.st == Output {
          FullOrDone(g, m, a, ob, kl);
        }
        OutHalts(g, m2, e, kl, out + piece);
      }
    }
  }

  /** Where the loop stops, the state has been read completely or the read is at a byte. */
  lemma StoppedEmits(g: Config, m: Hash, a: nat, e: nat)
    requires Emits(g, m) && 0 < a && m.c.bb + a <= T(g.f) && (m.outl != 0 ==> a <= m.outl) && (m.st == OutBits ==>
             a <= m.lbl)
    requires if m.st == OutBits then Moved(g, m, a).lbl != 0 else m.c.bb + a == T(g.f)
    ensures Emits(g, Moved(g, m, a)) && T(g.f) % 8 == 0
    ensures m.st == Output ==> Moved(g, m, a).c.bb == 0
  {
  }

  lemma EmitsState(g: Config, m: Hash)
    requires Emits(g, m)
    ensures FnOk(g.f) && Ok(g, m) && T(g.f) <= |m.c.S| && (m.st == Output || m.st == OutBits)
  {
  }

  /** In Hash_Output a turn that does not reach the end of the read or of the output reads the state completely. */
  lemma FullOrDone(g: Config, m: Hash, a: nat, ob: nat, kl: nat)
    requires Emits(g, m) && m.st == Output && ob + a < kl && a == Amount(g, m, kl - ob, ob, true) && m.outl != a
    ensures m.c.bb + a == T(g.f)
  {
  }

  /**
   Halted reads.  The position that a halted read reports is accepted: the exec that resumes there, halting again or
   not, does not fail, and it goes on where the read stopped if the read was at a byte.
   */
  lemma HaltedReadAccepted(g: Config, policy: nat, instrs: seq<Instr>, kl: nat, klstart: nat, halt: bool)
    requires ConfigOk(g) && WholeData(instrs)
    ensures var m := AfterRun(g, policy, instrs).0;
            Readable(g, m) &&
            var o1 := DoExec(g, m, FormC, [], kl, klstart, true);
            (m.st == Output || m.st == OutBits) && o1.halted.Some? ==>
              Readable(g, o1.m) && o1.m.st == m.st &&
              var o2 := DoExec(g, o1.m, FormC, [], kl, o1.halted.value, halt);
              o2.m.st != Invalid && o2.moved > 0 && o1.moved > 0 &&
              (m.st == OutBits || m.c.bb % 8 == 0 ==> 8 * o1.halted.value == 8 * klstart + o1.moved)
  {
    hide OutFrom, AfterRun, Fed, RefState, T, Squeezes, Turn, Spot;
    var (m, h) := AfterRun(g, policy, instrs);
    InvReadable(g, m, h);
    if (m.st == Output || (m.st == OutBits && m.lbl > 0)) && !Empty(kl, klstart) {
      OutHalts(g, m, 8 * klstart, kl, []);
      OutMoves(g, m, 8 * klstart, kl, true);
      var o1 := OutFrom(g, m, 8 * klstart, kl, true, []);
      if o1.halted.Some? {
        OutMoves(g, o1.m, 8 * o1.halted.value, kl, halt);
      }
    }
  }

  lemma {:induction false} OutMovesFrom(g: Config, m: Hash, ob: nat, kl: nat, halt: bool, out: Bits)
    requires Emits(g, m) && ob < kl
    ensures var o := OutFrom(g, m, ob, kl, halt, out);
            |o.out| > |out| && o.moved == |o.out| && (o.m.st == m.st || o.m.st == Success)
    decreases kl - ob
  {
    hide Emits, OutFrom, Moved, Ok, T, FnOk, CoreOk, ConfigOk, Amount;
    EmitsState(g, m);
    var a := OutTurn(g, m, ob, kl, halt, out);
    var piece, m2, e := m.c.S[m.c.bb..m.c.bb + a], Moved(g, m, a), ob + a;
    if m.outl != a && !StopsHere(m2, m.c.bb + a == T(g.f), e, kl, halt) && e < kl && !(m.st == OutBits && m2.lbl == 0) {
      OutMovesFrom(g, m2, e, kl, halt, out + piece);
    }
  }

  lemma OutMoves(g: Config, m: Hash, ob: nat, kl: nat, halt: bool)
    requires Emits(g, m) && ob < kl
    ensures var o := OutFrom(g, m, ob, kl, halt, []);
            o.moved > 0 && o.moved == |o.out| && (o.m.st == m.st || o.m.st == Success)
  {
    hide OutFrom;
    OutMovesFrom(g, m, ob, kl, halt, []);
  }

  /**
   Verification of an HMAC ends in Success exactly when the tag given is the truncated HMAC of the absorbed message; a
   tag that is too short is not compared.
   */
  lemma VerifiesHmac(g: Config, policy: nat, instrs: seq<Instr>, data: Bits)
    requires ConfigOk(g) && WholeData(instrs) && |data| % 8 == 0
    ensures var (m, h) := AfterRun(g, policy, instrs);
            Readable(g, m) &&
            (m.st == Verify && m.policy / 2 % 2 == 1 && |data| >= g.tagLenP ==>
              DoExec(g, m, FormB, data, 0, 0, false).m.st ==
              if Slice(data, 0, g.tagLenP) == Slice(RefState(g, m.kk, m.nn, h.msg), 0, g.tagLenP) then Success
                  else Failure) &&
            (m.st == Verify && 0 < |data| < g.tagLenP ==> DoExec(g, m, FormB, data, 0, 0, false).m.st == Invalid)
  {
    hide AfterRun, Fed, RefState, Squeezes, Turn, Spot;
    var (m, h) := AfterRun(g, policy, instrs);
    InvReadable(g, m, h);
  }

  /**
   Absorbing with an interruption.  The position reported is at a byte and is accepted by the exec that resumes there,
   and the two together leave the locker as the uninterrupted transfer does.
   */
  lemma AbsorbResumes(g: Config, policy: nat, instrs: seq<Instr>, data: Bits, klstart: nat)
    requires ConfigOk(g) && WholeData(instrs) && |data| % 8 == 0
    ensures var m := AfterRun(g, policy, instrs).0;
            m.st == Absorb ==>
              var o1 := DoAbsorb(g, m, data, klstart, true);
              o1.halted.Some? ==>
                o1.m.st == Absorb && o1.halted.value * 8 == 8 * klstart + o1.moved < |data| &&
                DoAbsorb(g, o1.m, data, o1.halted.value, false).m == DoAbsorb(g, m, data, klstart, false).m
  {
    hide AfterRun, Vli, T, Holds, RefState, Keyed, FedBits;
    var (m, h) := AfterRun(g, policy, instrs);
    if m.st == Absorb && !Empty(|data|, klstart) && (klstart == 0 || AtBoundary(g.f, m.c)) {
      var ib, c0 := 8 * klstart, Keyed(g.f, g.sk, m.c);
      var V := KeyedFeeds(g, m, h.msg);
      PlaceIsWhole(g, m, h.msg, c0, V);
      VliHolds(g.f, Iv(g.f, m.kk, m.nn), c0, V, data, ib, |data|, true, true);
      WholeBytes(g.f, c0, data, ib, true);
      HaltsOnce(g.f, c0, data, ib, |data|);
      var (c, e) := Vli(g.f, c0, data, ib, |data|, true, true);
      NoKeyAgain(g.f, g.sk, c);
    }
  }

  /** An interruption comes after one turn of the loop. */
  lemma HaltsOnce(f: Fn, c: Core, X: Bits, ib: nat, kl: nat)
    requires CoreOk(f, c) && ib < kl
    ensures var (c', e) := Vli(f, c, X, ib, kl, true, true);
            e < kl ==> Vli(f, c, X, ib, kl, true, false) == Vli(f, c', X, e, kl, true, false)
  {
    hide Vli, Turned;
    VliTurn(f, c, X, ib, kl, true, true);
    VliTurn(f, c, X, ib, kl, true, false);
    var (c2, e) := Turned(f, c, X, ib, kl, true);
    VliTurn(f, c2, X, e, kl, true, true);
  }

  lemma NoKeyAgain(f: Fn, sk: Option<Bits>, c: Core)
    requires CoreOk(f, c) && (sk.Some? ==> f.Blake? && |sk.value| == B(f)) && c.cum > 0
    ensures Keyed(f, sk, c) == c
  {
  }
}
