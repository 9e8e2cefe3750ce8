/**
 What goes in and out of the ML-DSA locker: fields loaded and emitted in pieces, the verdict of verification, and what
 the policy closes.
 */
module MldsaTransfers {
  import opened Wrappers
  import opened Modular
  import opened Digits
  import opened Streams
  import opened MldsaRounding
  import opened MldsaCodec
  import opened MldsaSampling
  import opened Mldsa
  import opened MldsaVerify
  import opened MldsaMachine

  // ---------------------------------------------------------------- loads

  /** The locker after a load of each piece in turn. */
  ghost function AfterLoads(w: Setting, m: Fields, pieces: seq<Bytes>): Fields
    requires Sized(w, m)
    decreases |pieces|
  {
    if pieces == [] then m
    else
      var m1 := DoExec(w, m, FormB, pieces[0], 0, None, None).m;
      if Sized(w, m1) then AfterLoads(w, m1, pieces[1..]) else m1
  }

  /** The State m.st is loading, and what it has so far is v. */
  ghost predicate HasLoaded(w: Setting, m: Fields, v: Bytes) {
    && Sized(w, m) && Loading(m.st) && Permitted(m.policy, m.st) && m.used == |v| < Size(w, m.st)
    && |Field(m, m.st)| == Size(w, m.st) && Field(m, m.st)[..|v|] == v
  }

  /** The field with the first bytes replaced. */
  function Filled(before: Bytes, v: Bytes): Bytes
    requires |v| <= |before|
  {
    v + before[|v|..]
  }

  lemma ExecIsLoad(w: Setting, m: Fields, piece: Bytes)
    requires Sized(w, m) && Loading(m.st) && Permitted(m.policy, m.st)
    ensures |Field(m, m.st)| == Size(w, m.st) &&
            DoExec(w, m, FormB, piece, 0, None, None).m == DoLoad(w, m, FormB, piece)
  {
    hide DoLoad;
  }

  lemma OverwrittenIsFilled(before: Bytes, v: Bytes, piece: Bytes)
    requires |v| + |piece| <= |before| && before[..|v|] == v
    ensures Overwritten(before, |v|, piece) == Filled(before, v + piece) &&
            Filled(before, v + piece)[..|v + piece|] == v + piece
  {
    assert before[|v|..][|piece|..] == before[|v| + |piece|..];
  }

  lemma FieldOfWith(w: Setting, m: Fields, v: Bytes, used: nat)
    requires Loading(m.st) && Sized(w, m) && |v| == Size(w, m.st)
    ensures var m1 := WithField(m, m.st, v).(used := used);
            Field(m1, m1.st) == v && m1.st == m.st && m1.policy == m.policy && Sized(w, m1)
  {
  }

  lemma OnePiece(w: Setting, m: Fields, v: Bytes, piece: Bytes)
    requires HasLoaded(w, m, v) && |v| + |piece| < Size(w, m.st)
    ensures var m1 := DoExec(w, m, FormB, piece, 0, None, None).m;
            HasLoaded(w, m1, v + piece) &&
            m1 == WithField(m, m.st, Filled(Field(m, m.st), v + piece)).(used := |v + piece|)
  {
    hide Loaded, DoExec, Overwritten, Filled, WithField, Size, Sized, Field, Permitted;
    ExecIsLoad(w, m, piece);
    OverwrittenIsFilled(Field(m, m.st), v, piece);
    FieldOfWith(w, m, Filled(Field(m, m.st), v + piece), |v + piece|);
  }

  lemma LastPiece(w: Setting, m: Fields, v: Bytes, piece: Bytes)
    requires HasLoaded(w, m, v) && |v| + |piece| == Size(w, m.st)
    ensures DoExec(w, m, FormB, piece, 0, None, None).m ==
            Loaded(w, WithField(m, m.st, v + piece).(used := Size(w, m.st)), false)
  {
    hide Loaded, DoExec, Overwritten, WithField, Size, Sized, Field, Permitted;
    ExecIsLoad(w, m, piece);
    OverwrittenIsFilled(Field(m, m.st), v, piece);
    assert Filled(Field(m, m.st), v + piece) == v + piece;
  }

  /**
   However the bytes are cut into pieces, what is loaded is the bytes; nothing else changes until the load is
   complete.
   */
  lemma {:induction false} LoadsConcatenate(w: Setting, m: Fields, v: Bytes, pieces: seq<Bytes>)
    requires HasLoaded(w, m, v) && pieces != [] && |v| + |Join(pieces)| == Size(w, m.st)
    requires |v| + |Join(pieces[..|pieces| - 1])| < Size(w, m.st)
    ensures AfterLoads(w, m, pieces) ==
            Loaded(w, WithField(m, m.st, v + Join(pieces)).(used := Size(w, m.st)), false)
    decreases |pieces|
  {
    hide Loaded, DoExec, HasLoaded, Sized, WithField, Size, Field, Filled;
    LoadedSize(w, m, v);
    if |pieces| == 1 {
      assert Join(pieces) == pieces[0] + Join([]) == pieces[0];
      LastPiece(w, m, v, pieces[0]);
      NoMoreLoads(w, DoExec(w, m, FormB, pieces[0], 0, None, None).m, pieces);
    } else {
      var rest := pieces[1..];
      assert pieces[..|pieces| - 1][0] == pieces[0] && pieces[..|pieces| - 1][1..] == rest[..|rest| - 1];
      OnePiece(w, m, v, pieces[0]);
      var m1 := DoExec(w, m, FormB, pieces[0], 0, None, None).m;
      SameStateLoads(w, m, Filled(Field(m, m.st), v + pieces[0]), |v + pieces[0]|, v + pieces[0] + Join(rest));
      LoadedSize(w, m1, v + pieces[0]);
      LoadsConcatenate(w, m1, v + pieces[0], rest);
      assert v + pieces[0] + Join(rest) == v + Join(pieces);
    }
  }

  lemma LoadedSize(w: Setting, m: Fields, v: Bytes)
    requires HasLoaded(w, m, v)
    ensures Sized(w, m) && |Field(m, m.st)| == Size(w, m.st) && |v| < Size(w, m.st) && Loading(m.st)
  {
  }

  lemma NoMoreLoads(w: Setting, m1: Fields, pieces: seq<Bytes>)
    requires |pieces| == 1
    ensures Sized(w, m1) ==> AfterLoads(w, m1, pieces[1..]) == m1
  {
  }

  /** Writing a field twice is writing it once. */
  lemma WrittenTwice(m: Fields, st: int, f: Bytes, used: nat, v: Bytes, n: nat)
    ensures WithField(WithField(m, st, f).(used := used), st, v).(used := n) == WithField(m, st, v).(used := n)
  {
    hide WithField;
    WithFieldIs(m, st, f);
    WithFieldIs(WithField(m, st, f).(used := used), st, v);
    WithFieldIs(m, st, v);
  }

  lemma WithFieldIs(m: Fields, st: int, v: Bytes)
    ensures st == PRIVIN ==> WithField(m, st, v) == m.(privkey := v)
    ensures st == PKIN || st == PKOUT ==> WithField(m, st, v) == m.(pubkey := v)
    ensures st == MUIN ==> WithField(m, st, v) == m.(mu := v)
    ensures !(st == PRIVIN || st == PKIN || st == PKOUT || st == MUIN) ==> WithField(m, st, v) == m.(signature := v)
  {
  }

  lemma SameStateLoads(w: Setting, m: Fields, f: Bytes, used: nat, v: Bytes)
    requires Loading(m.st)
    ensures var m1 := WithField(m, m.st, f).(used := used);
            m1.st == m.st && Size(w, m1.st) == Size(w, m.st) &&
            WithField(m1, m1.st, v).(used := Size(w, m.st)) == WithField(m, m.st, v).(used := Size(w, m.st))
  {
    hide Size, WithField;
    WithFieldKeeps(m, m.st, f);
    WrittenTwice(m, m.st, f, used, v, Size(w, m.st));
  }

  /** What a complete load leaves: a key that fails its range check is refused, everything else is there. */
  lemma LoadCompletes(w: Setting, m: Fields, v: Bytes)
    requires Loading(m.st) && |v| == Size(w, m.st)
    ensures var r := Loaded(w, WithField(m, m.st, v).(used := |v|), false);
            if m.st == PRIVIN && !SkOk(w.ps, v) then r == Cleared(w, r, true)
            else Field(r, m.st) == v && r.st == m.st && r.policy == m.policy &&
                 (m.st == PRIVIN ==> r.hasPriv) && (m.st == PKIN ==> r.hasPub) && (m.st == MUIN ==> r.hasMu)
  {
    hide SkOk;
  }

  lemma OverwrittenCut(before: Bytes, v: Bytes, piece: Bytes)
    requires |v| <= |before| < |v| + |piece|
    ensures Overwritten(before, |v|, piece) == Overwritten(before, |v|, piece[..|before| - |v|])
  {
    assert piece[..|before| - |v|][..|before| - |v|] == piece[..|before| - |v|];
  }

  /** Bytes in excess make a public key or a signature fail and leave zeros; for the other fields they are ignored. */
  lemma LoadExceeds(w: Setting, m: Fields, v: Bytes, piece: Bytes)
    requires HasLoaded(w, m, v) && |v| + |piece| > Size(w, m.st)
    ensures var r := DoExec(w, m, FormB, piece, 0, None, None).m;
            if m.st == PKIN then r.st == FAILURE && r.pubkey == ZeroBytes(w.ps.pkLen) && r.hasPub == m.hasPub
            else if m.st == SIN then r.st == FAILURE && r.signature == ZeroBytes(w.ps.sigLen)
            else r == DoExec(w, m, FormB, piece[..Size(w, m.st) - |v|], 0, None, None).m
  {
    hide DoExec, Overwritten, SkOk, Permitted;
    ExecIsLoad(w, m, piece);
    ExecIsLoad(w, m, piece[..Size(w, m.st) - |v|]);
    OverwrittenCut(Field(m, m.st), v, piece);
  }

  // ---------------------------------------------------------------- signing

  /**
   Sign_Generate entered and carried out at once: with a private key and a message there, it leaves the signature for
   the random value drawn, or for zeros if the operand asked for the deterministic variant.
   */
  lemma SignsAtOnce(w: Setting, m: Fields, form: Form, xs: nat, draw: Option<Bytes>)
    requires Inv(w, m) && DoSetSt(w, m, SGEN, form, xs).st == SGEN
    ensures var m1 := DoSetSt(w, m, SGEN, form, xs);
            Sized(w, m1) && m1.policy % 2 == 1 && m1.hasPriv && m1.hasMu &&
            SignedBy(w, m1, if xs == 0 then draw else Some(ZeroBytes(32)), DoExec(w, m1, FormD, [], 0, None, draw).m)
  {
    hide Sign, Inv, Left;
    var m1 := DoSetSt(w, m, SGEN, form, xs);
    KeyIsSized(w, m);
    LeftFields(w, m);
    StepKeepsInv(w, m, SetSt(SGEN, form, xs));
    KeyIsSized(w, m1);
  }

  /** The locker after signing with rnd. */
  ghost predicate SignedBy(w: Setting, m: Fields, rnd: Option<Bytes>, r: Fields)
    requires Sized(w, m)
  {
    match rnd
    case None => r.st == 0
    case Some(x) =>
      match Sign(w.ps, w.hs, m.privkey, m.mu, x, w.lim)
      case None => r.st == FAILURE
      case Some((_, sig)) => r.st == SOUT && r.signature == sig && r.rnd == ZeroBytes(32)
  }

  // ---------------------------------------------------------------- reads

  /** What is handed out by reads of the given sizes, one after the other. */
  ghost function Emitted(w: Setting, m: Fields, ns: seq<nat>): (Fields, Bytes)
    requires Sized(w, m)
    decreases |ns|
  {
    if ns == [] then (m, [])
    else
      var o := DoExec(w, m, FormC, [], ns[0], None, None);
      if !Sized(w, o.m) then (o.m, o.out)
      else
        var (m', out) := Emitted(w, o.m, ns[1..]);
        (m', o.out + out)
  }

  function SumOf(ns: seq<nat>): nat {
    if ns == [] then 0 else ns[0] + SumOf(ns[1..])
  }

  lemma OneRead(w: Setting, m: Fields, n: nat)
    requires Sized(w, m) && (m.st == PKOUT || m.st == SOUT) && Permitted(m.policy, m.st) && m.used + n <= Size(w, m.st)
    ensures |Field(m, m.st)| == Size(w, m.st)
    ensures var m1 := if m.used + n == Size(w, m.st) then To(m, SUCCESS) else m.(used := m.used + n);
            DoExec(w, m, FormC, [], n, None, None) == Outcome(m1, Field(m, m.st)[m.used..m.used + n]) && Sized(w, m1) &&
            Field(m1, m.st) == Field(m, m.st)
  {
    hide Permitted, DoLoad, DoGenerate, DoComputePk, DoVerify, DoSign, Cleared;
  }

  /** Whatever the sizes of the reads, they hand out the field from where it was, piece by piece, and end in Success. */
  lemma {:induction false} ReadsConcatenate(w: Setting, m: Fields, ns: seq<nat>)
    requires Sized(w, m) && (m.st == PKOUT || m.st == SOUT) && Permitted(m.policy, m.st) && m.used < Size(w, m.st)
    requires ns != [] && m.used + SumOf(ns) == Size(w, m.st) && m.used + SumOf(ns[..|ns| - 1]) < Size(w, m.st)
    ensures |Field(m, m.st)| == Size(w, m.st)
    ensures Emitted(w, m, ns) == (To(m, SUCCESS), Field(m, m.st)[m.used..])
    decreases |ns|
  {
    hide Permitted, DoExec, Sized, Field, Size;
    OneRead(w, m, ns[0]);
    var o := DoExec(w, m, FormC, [], ns[0], None, None);
    if |ns| == 1 {
      assert ns[1..] == [] && SumOf(ns) == ns[0];
      assert o.out + [] == o.out == Field(m, m.st)[m.used..];
      assert Emitted(w, o.m, ns[1..]) == (o.m, []);
    } else {
      var rest := ns[1..];
      assert ns[..|ns| - 1][0] == ns[0] && ns[..|ns| - 1][1..] == rest[..|rest| - 1];
      SameSize(w, m);
      ReadsConcatenate(w, o.m, rest);
      assert Field(m, m.st)[m.used..] == o.out + Field(m, m.st)[m.used + ns[0]..];
    }
  }

  lemma SameSize(w: Setting, m: Fields)
    requires Sized(w, m) && (m.st == PKOUT || m.st == SOUT)
    ensures forall u: nat :: Size(w, m.(used := u).st) == Size(w, m.st)
  {
  }

  // ---------------------------------------------------------------- the verdict

  /** Verification in the locker ends in Success exactly for what FIPS 204 accepts, and in Failure otherwise. */
  lemma LockerDecides(w: Setting, m: Fields)
    requires Sized(w, m) && m.st == SVER && m.policy / 2 % 2 == 1
    ensures var r := DoExec(w, m, FormD, [], 0, None, None).m;
            (r.st == SUCCESS || r.st == FAILURE) &&
            (r.st == SUCCESS <==> exists p :: Accepts(w.ps, w.hs, m.pubkey, m.mu, m.signature, w.lim, p))
  {
    hide Accepts, Verify, PkFromSk, Sign;
    VerifyIff(w.ps, w.hs, m.pubkey, m.mu, m.signature, w.lim);
  }

  // ---------------------------------------------------------------- the policy

  /** Where a change of State leads: to the State named, if the policy permits it, or the locker is cleared. */
  lemma SetStLeads(w: Setting, m: Fields, target: int, form: Form, xs: nat)
    ensures var r := DoSetSt(w, m, target, form, xs);
            r.policy == m.policy && (r.st != 0 ==> r.st == target && Permitted(m.policy, target) && target != SOUT)
  {
    hide Enter, Left, Cleared;
    ClearedFields(w, m, true);
    ClearedFields(w, m, false);
    LeftFields(w, m);
    EnterLeads(w, Left(w, m), target, xs);
  }

  lemma EnterLeads(w: Setting, m: Fields, target: int, xs: nat)
    ensures var r := Enter(w, m, target, xs); r.Some? ==> r.value.st == target && r.value.policy == m.policy
  {
  }

  lemma ClearedFields(w: Setting, m: Fields, error: bool)
    ensures Cleared(w, m, error).st == 0 && Cleared(w, m, error).policy == m.policy
  {
  }

  lemma LeftFields(w: Setting, m: Fields)
    ensures Left(w, m).st == m.st && Left(w, m).policy == m.policy
  {
  }

  predicate IsState(st: int) {
    st == 0 || Defined(st) || st == SUCCESS || st == FAILURE
  }

  /** Where an exec leads, and that one which the policy does not permit clears the locker. */
  lemma ExecLeads(w: Setting, m: Fields, form: Form, data: Bytes, n: nat, halt: Option<nat>, draw: Option<Bytes>)
    requires Sized(w, m) && IsState(m.st)
    ensures var o := DoExec(w, m, form, data, n, halt, draw);
            o.m.policy == m.policy && (m.st != 0 && !Permitted(m.policy, m.st) ==>
                o == Outcome(Cleared(w, m, true), []))
    ensures var r := DoExec(w, m, form, data, n, halt, draw).m;
            r.st == 0 || r.st == m.st || r.st == SUCCESS || r.st == FAILURE || r.st == PKOUT || r.st == READY ||
            (r.st == SOUT && m.st == SGEN)
  {
    hide DoLoad, DoEmit, DoGenerate, DoComputePk, DoVerify, DoSign, Size, Field, Cleared;
    ClearedFields(w, m, true);
    if Loading(m.st) {
      LoadLeads(w, m, form, data);
    } else if m.st == PKOUT || m.st == SOUT {
      EmitLeads(w, m, form, n);
    } else {
      GenerateLeads(w, m, draw);
      ComputeLeads(w, m);
      VerifyLeads(w, m);
      SignLeads(w, m, halt, draw);
    }
  }

  lemma EmitLeads(w: Setting, m: Fields, form: Form, n: nat)
    requires Sized(w, m) && (m.st == PKOUT || m.st == SOUT)
    ensures |Field(m, m.st)| == Size(w, m.st)
    ensures var r := DoEmit(w, m, form, n).m; r.policy == m.policy && (r.st == 0 || r.st == m.st || r.st == SUCCESS)
  {
  }

  lemma GenerateLeads(w: Setting, m: Fields, draw: Option<Bytes>)
    ensures var r := DoGenerate(w, m, draw); r.policy == m.policy && (r.st == 0 || r.st == PKOUT || r.st == FAILURE)
  {
    hide KeyGen, Cleared;
    ClearedFields(w, m, true);
  }

  lemma ComputeLeads(w: Setting, m: Fields)
    requires Sized(w, m)
    ensures var r := DoComputePk(w, m); r.policy == m.policy && (r.st == 0 || r.st == READY || r.st == FAILURE)
  {
    hide PkFromSk, H, TrOf, Cleared;
    ClearedFields(w, m, true);
  }

  lemma VerifyLeads(w: Setting, m: Fields)
    ensures var r := DoVerify(w, m); r.policy == m.policy && (r.st == SUCCESS || r.st == FAILURE)
  {
    hide Verify;
  }

  lemma LoadedLeads(w: Setting, m: Fields, excess: bool)
    ensures var r := Loaded(w, m, excess); r.policy == m.policy && (r.st == 0 || r.st == m.st || r.st == FAILURE)
  {
    hide SkOk, Cleared;
    ClearedFields(w, m, true);
  }

  lemma WithFieldKeeps(m: Fields, st: int, v: Bytes)
    ensures WithField(m, st, v).st == m.st && WithField(m, st, v).policy == m.policy
  {
  }

  lemma LoadLeads(w: Setting, m: Fields, form: Form, data: Bytes)
    requires Sized(w, m) && Loading(m.st)
    ensures |Field(m, m.st)| == Size(w, m.st)
    ensures var r := DoLoad(w, m, form, data); r.policy == m.policy && (r.st == 0 || r.st == m.st || r.st == FAILURE)
  {
    hide Overwritten, Loaded, WithField, Cleared;
    ClearedFields(w, m, true);
    if m.used < Size(w, m.st) {
      var v := Overwritten(Field(m, m.st), m.used, data);
      WithFieldKeeps(m, m.st, v);
      LoadedLeads(w, WithField(m, m.st, v).(used := Size(w, m.st)), |data| > Size(w, m.st) - m.used);
    }
  }

  lemma StartLeads(w: Setting, m: Fields, draw: Option<Bytes>)
    ensures var r := Started(w, m, draw);
            r.Some? ==> r.value == m.(used := r.value.used, rnd := r.value.rnd, ads := r.value.ads)
  {
  }

  lemma CompletedLeads(m: Fields, whole: Option<(nat, Bytes)>)
    ensures var r := Completed(m, whole); r.policy == m.policy && (r.st == SOUT || r.st == FAILURE)
  {
  }

  lemma SignLeads(w: Setting, m: Fields, halt: Option<nat>, draw: Option<Bytes>)
    requires Sized(w, m)
    ensures var r := DoSign(w, m, halt, draw);
            r.policy == m.policy && (r.st == 0 || r.st == m.st || r.st == SOUT || r.st == FAILURE)
  {
    hide Sign, Started, Completed, Unfinished, Cleared;
    ClearedFields(w, m, true);
    StartLeads(w, m, draw);
    if Started(w, m, draw).Some? {
      var m1 := Started(w, m, draw).value;
      CompletedLeads(m1, Sign(w.ps, w.hs, m1.privkey, m1.mu, m1.rnd, w.lim));
    }
  }

  /** No instruction adds to the policy. */
  lemma PolicyNarrows(w: Setting, m: Fields, i: Instr)
    requires Inv(w, m)
    ensures Sized(w, m)
    ensures var p := Step(w, m, i).m.policy;
            p == m.policy || ((p % 2 == 1 ==> m.policy % 2 == 1) && (p / 2 % 2 == 1 ==> m.policy / 2 % 2 == 1))
  {
    hide DoSetSt, DoExec, Inv;
    KnownState(w, m);
    KeyIsSized(w, m);
    match i
    case SetSt(target, form, xs) => SetStLeads(w, m, target, form, xs);
    case Exec(form, data, n, halt, draw) => ExecLeads(w, m, form, data, n, halt, draw);
    case Restrict(_) =>
  }

  /** Without the right to sign, no instruction leads to a signing State, and an exec in one clears the locker. */
  lemma NoSigning(w: Setting, m: Fields, i: Instr)
    requires Inv(w, m) && m.policy % 2 == 0
    ensures Sized(w, m)
    ensures var o := Step(w, m, i);
            (o.m.st == SGEN || o.m.st == SOUT ==> o.m.st == m.st && i.Restrict?) &&
            (i.Exec? && (m.st == SGEN || m.st == SOUT) ==> o == Outcome(Cleared(w, m, true), []))
  {
    hide DoSetSt, DoExec, Cleared, Inv;
    ClearedFields(w, m, true);
    KnownState(w, m);
    KeyIsSized(w, m);
    match i
    case SetSt(target, form, xs) => SetStLeads(w, m, target, form, xs);
    case Exec(form, data, n, halt, draw) => ExecLeads(w, m, form, data, n, halt, draw);
    case Restrict(_) =>
  }

  /** Without the right to verify, no instruction leads to a verifying State, and an exec in one clears the locker. */
  lemma NoVerifying(w: Setting, m: Fields, i: Instr)
    requires Inv(w, m) && m.policy / 2 % 2 == 0
    ensures Sized(w, m)
    ensures var o := Step(w, m, i);
            (o.m.st == SVER || o.m.st == SIN ==> o.m.st == m.st && i.Restrict?) &&
            (i.Exec? && (m.st == SVER || m.st == SIN) ==> o == Outcome(Cleared(w, m, true), []))
  {
    hide DoSetSt, DoExec, Cleared, Inv;
    ClearedFields(w, m, true);
    KnownState(w, m);
    KeyIsSized(w, m);
    match i
    case SetSt(target, form, xs) => SetStLeads(w, m, target, form, xs);
    case Exec(form, data, n, halt, draw) => ExecLeads(w, m, form, data, n, halt, draw);
    case Restrict(_) =>
  }
}
