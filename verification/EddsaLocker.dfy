/**
 The EdDSA locker object itself: its fields are byte arrays that are written in place, piece by piece, and every
 method is proved to make exactly the step of EddsaMachine.
 */
module EddsaLocker {
  import opened Wrappers
  import opened Modular
  import opened Digits
  import opened Streams
  import opened EddsaMachine

  /** The same locker, where everything in an invalid locker is forgotten. */
  ghost predicate Same(a: Ed, b: Ed) {
    a == b || (a.st == INVALID && b.st == INVALID)
  }

  /** The whole array is overwritten. */
  method Fill(a: array<byte>, b: Bytes)
    requires a.Length == |b|
    modifies a
    ensures a[..] == b
  {
    forall i | 0 <= i < |b| {
      a[i] := b[i];
    }
  }

  /** Part of the array is overwritten. */
  method WriteAt(a: array<byte>, at: nat, data: Bytes)
    requires at + |data| <= a.Length
    modifies a
    ensures a[..] == Written(old(a[..]), at, data)
  {
    forall i | 0 <= i < |data| {
      a[at + i] := data[i];
    }
  }

  /** The loop that zeroes a field. */
  method Zero(a: array<byte>)
    modifies a
    ensures a[..] == Zeros(a.Length)
  {
    var i := 0;
    while i < a.Length
      invariant 0 <= i <= a.Length && forall j :: 0 <= j < i ==> a[j] == 0
    {
      a[i] := 0;
      i := i + 1;
    }
  }

  class Locker {
    const E: Curve
    const aux: bool
    const ext: bool
    const scalar: array<byte>
    const second: array<byte>
    const hash: array<byte>
    const sig: array<byte>
    const gen: array<byte>
    const ctx: array<byte>
    var st: int
    var policy: nat
    var has: Flags
    var outType: nat
    var progress: bool
    var base: nat
    var ctxLen: nat
    var msgPass: nat
    var r: nat
    var kp: nat
    var msg: Bytes
    var pass: nat
    var complete: bool

    ghost function Buffers(): set<object> {
      {scalar, second, hash, sig, gen, ctx}
    }

    /** The contents of the arrays. */
    ghost function Fields(): Store
      reads Buffers()
    {
      Store(scalar[..], second[..], hash[..], sig[..], gen[..], ctx[..])
    }

    ghost function State(): Ed
      reads this, Buffers()
    {
      Ed(st, policy, aux, ext, Fields(), has, outType, progress, base, ctxLen, msgPass, r, kp, msg, pass, complete)
    }

    /** The six arrays are different objects. */
    ghost predicate Apart() {
      && scalar != second && scalar != hash && scalar != sig && scalar != gen && scalar != ctx
      && second != hash && second != sig && second != gen && second != ctx
      && hash != sig && hash != gen && hash != ctx && sig != gen && sig != ctx && gen != ctx
    }

    ghost predicate Valid()
      reads this, Buffers()
    {
      CurveOk(E) && Apart() && Ok(E.kind, State())
    }

    /** What a failing instruction still keeps. */
    ghost predicate Bounded()
      reads this, Buffers()
    {
      CurveOk(E) && Apart() && StoreOk(E.kind, Fields()) && ctxLen <= 255
    }

    constructor (E: Curve, policy: nat, aux: bool, ext: bool)
      requires CurveOk(E) && 0 < policy < 4
      ensures Valid() && State() == Create(E, policy, aux, ext) && fresh(Buffers())
    {
      var w := Width(E.kind);
      this.E, this.aux, this.ext, this.policy := E, aux, ext, policy;
      scalar, second, hash := new byte[w](_ => 0), new byte[w](_ => 0), new byte[64](_ => 0);
      sig, ctx := new byte[2 * w](_ => 0), new byte[255](_ => 0);
      var g := E.enc(E.base);
      gen := new byte[w](i requires 0 <= i < |g| => g[i]);
      st, has, outType, progress, base, ctxLen := RDY, Flags(false, false, false, false), 0, false, 0, 0;
      msgPass, r, kp, msg, pass, complete := 0, 0, 0, [], 0, true;
      new;
      assert Fields() == Store(Zeros(w), Zeros(w), Zeros(64), Zeros(2 * w), g, Zeros(255));
    }

    /** The array that the Set State s loads. */
    function Loaded(s: int): array<byte> {
      if s == SGEN then gen else if s == SSCAL then scalar else if s == SHASH then hash
      else if s == S2ND then second else if s == SIN then sig else ctx
    }

    // ---------------------------------------------------------------- leaving a State

    method FinalizePass() returns (ok: bool)
      requires Valid()
      modifies `r, `has, `msgPass, `kp, `msg, sig
      ensures Bounded() && ok == EddsaMachine.FinalizePass(E, old(State())).Some?
      ensures ok ==> State() == EddsaMachine.FinalizePass(E, old(State())).value
    {
      hide HashToScalar, Expand, Dom, PublicKey;
      var w := Width(E.kind);
      var prefix, dom := Expand(E, scalar[..]).1, Dom(E.kind, 0, ctx[..ctxLen]);
      var M := msg;
      msg, has := [], has.(rnd := false);
      assert ctx[..ctxLen] == ctx[..][..ctxLen] && sig[..w] == sig[..][..w];
      if pass == 0 {
        r := HashToScalar(E, dom + prefix + M);
        Fill(sig, E.enc(E.mul(r, E.base)) + Zeros(w));
        has, msgPass := has.(sig := false), 1;
      } else if pass == 1 {
        if HashToScalar(E, dom + prefix + M) != r {
          return false;
        }
        kp, msgPass := HashToScalar(E, dom + sig[..w] + PublicKey(E, scalar[..]) + M), 2;
      } else {
        kp := HashToScalar(E, dom + sig[..w] + second[..] + M);
      }
      return true;
    }

    method AbandonLoad()
      requires Apart()
      modifies `ctxLen, `complete, Loaded(st)
      ensures State() == EddsaMachine.AbandonLoad(old(State()))
    {
      if IsSet(st) && !complete {
        Zero(Loaded(st));
        if st == SCTX {
          ctxLen := 0;
        }
      }
      complete := true;
    }

    method Leave(target: int) returns (ok: bool)
      requires Valid()
      modifies this, Buffers()
      ensures Bounded() && ok == EddsaMachine.Leave(E, old(State()), target).Some?
      ensures ok ==> State() == EddsaMachine.Leave(E, old(State()), target).value
    {
      hide EddsaMachine.FinalizePass, Loading, WithLoaded;
      var absorbing := st == MABS;
      ok := true;
      if absorbing && target != RDY {
        ok := FinalizePass();
        if !ok {
          return;
        }
      } else if absorbing {
        msg := [];
      }
      AbandonLoad();
      progress, base := false, 0;
      if absorbing {
        has := has.(rnd := false);
      }
    }

    // ---------------------------------------------------------------- entering a State

    /** A field is cleared if c. */
    method ClearIf(s: int, c: bool)
      requires Apart()
      modifies Loaded(s)
      ensures Loaded(s)[..] == ClearedIf(old(Loaded(s)[..]), c)
    {
      if c {
        Zero(Loaded(s));
      }
    }

    method ApplyPoints(xs: nat)
      requires Apart() && second.Length == gen.Length == |E.enc(E.base)|
      modifies second, gen
      ensures Fields() == OptionPoints(old(Fields()), has.second, xs, E.enc(E.base))
    {
      hide BitOf;
      var g, s := gen[..], second[..];
      Fill(second, if BitOf(xs, 1) then Zeros(second.Length) else if BitOf(xs, 4) then g else s);
      Fill(gen, if BitOf(xs, 0) then E.enc(E.base) else if BitOf(xs, 5) && has.second then s
          else g);
    }

    method ApplyClears(xs: nat)
      requires Apart()
      modifies scalar, hash, sig
      ensures Fields() == OptionClears(old(Fields()), xs)
    {
      hide BitOf;
      ClearIf(SSCAL, BitOf(xs, 2));
      ClearIf(SHASH, BitOf(xs, 3));
      ClearIf(SIN, BitOf(xs, 6));
    }

    /** Ready from a State that has been left; ok is false when the options are refused. */
    method ToReady(form: Form, xs: nat) returns (ok: bool)
      requires Bounded()
      modifies this, Buffers()
      ensures Bounded() && ok == (EddsaMachine.ToReady(old(State()), form, xs, E.enc(E.base)).st != INVALID)
      ensures ok ==> State() == EddsaMachine.ToReady(old(State()), form, xs, E.enc(E.base))
    {
      hide BitOf, OptionPoints, OptionClears, OptionFlags, CurveOk;
      if form == FormB {
        if xs >= 128 || (BitOf(xs, 5) && has.second && ext) {
          return false;
        }
        PointSize();
        ApplyPoints(xs);
        ApplyClears(xs);
        has := OptionFlags(has, xs);
      }
      ForgetSeries();
      ok := true;
    }

    method ForgetSeries()
      requires Apart()
      modifies `st, `msgPass, `r, `kp, `ctxLen, `msg, ctx
      ensures State() == old(State()).(st := RDY, msgPass := 0, r := 0, kp := 0,
                                       f := old(Fields()).(ctx := Zeros(|old(Fields()).ctx|)), ctxLen := 0, msg := [])
    {
      Zero(ctx);
      EndSeries();
      st, ctxLen := RDY, 0;
    }

    method EndSeries()
      modifies `msgPass, `r, `kp, `msg
      ensures State() == old(State()).(msgPass := 0, r := 0, kp := 0, msg := [])
    {
      msgPass, r, kp, msg := 0, 0, 0, [];
    }

    lemma PointSize()
      requires CurveOk(E)
      ensures |E.enc(E.base)| == Width(E.kind)
    {
    }

    method RandomKey(random: Option<nat>) returns (ok: bool)
      requires Bounded()
      modifies `base, `complete, scalar
      ensures Bounded() && ok == random.Some?
      ensures ok ==> State() == EddsaMachine.RandomKey(old(State()), random, |old(Fields()).scalar|)
    {
      hide ToLe, Le;
      ok := random.Some?;
      if ok {
        Fill(scalar, ToLe(random.value, scalar.Length));
        if Le(scalar[..]) == 0 && scalar.Length > 0 {
          scalar[0] := 1;
        }
        base, complete := scalar.Length, true;
      }
    }

    /** Set_Generator and Set_Scalar. */
    method EnterKey(target: int, form: Form, xs: nat, random: Option<nat>) returns (ok: bool)
      requires Bounded() && (target == SGEN || target == SSCAL)
      modifies this, Buffers()
      ensures Bounded() && ok == (Enter(old(State()), target, form, xs, random, E.enc(E.base)).st != INVALID)
      ensures ok ==> State() == Enter(old(State()), target, form, xs, random, E.enc(E.base))
    {
      hide EddsaMachine.RandomKey, EddsaMachine.EnterPass;
      PointSize();
      ok, st := true, target;
      if target == SGEN {
        if ext && form == FormB && xs != 0 {
          return false;
        }
        if form == FormA || xs == 0 {
          Fill(gen, E.enc(E.base));
          base := gen.Length;
        } else {
          Zero(gen);
          complete := false;
        }
      } else {
        Zero(scalar);
        KeyState(State(), random, scalar.Length);
        if form == FormB && xs != 0 {
          ok := RandomKey(random);
        } else {
          complete := false;
        }
      }
    }

    /** The other Set States, and the States that work. */
    method EnterField(target: int, xs: nat) returns (ok: bool)
      requires Bounded() && RDY < target <= SCTX && target != SGEN && target != SSCAL && target != MABS
      modifies this, Buffers()
      ensures Bounded() && ok == (Enter(old(State()), target, FormB, xs, None, E.enc(E.base)).st != INVALID)
      ensures ok ==> forall form, random ::
                State() == Enter(old(State()), target, form, xs, random, E.enc(E.base))
    {
      hide EddsaMachine.RandomKey, EddsaMachine.EnterPass;
      ok, st, complete := true, target, false;
      if target == SHASH {
        Zero(hash);
        has := has.(hash := false);
      } else if target == S2ND {
        Zero(second);
        has := has.(second := false);
      } else if target == SIN {
        Zero(sig);
        has := has.(sig := false);
      } else if target == SCTX {
        if xs > 255 {
          return false;
        }
        Zero(ctx);
        ctxLen, complete := xs, xs == 0;
      } else {
        complete := true;
      }
    }

    /** Whether a pass of this kind may begin. */
    method PassAdmitted(xs: nat) returns (ok: bool)
      ensures ok == (EddsaMachine.EnterPass(State(), xs).st != INVALID)
    {
      hide BitOf, Le;
      ok := aux &&
            (if xs == 0 then BitOf(policy, 0) && Le(scalar[..]) != 0
             else if xs == 1 then msgPass == 1
             else xs == 2 && BitOf(policy, 1) && has.sig && has.second);
    }

    method EnterPass(xs: nat) returns (ok: bool)
      requires Bounded()
      modifies `st, `pass, `msg, `has, `msgPass, `kp
      ensures Bounded() && ok == (EddsaMachine.EnterPass(old(State()), xs).st != INVALID)
      ensures ok ==> State() == EddsaMachine.EnterPass(old(State()), xs)
    {
      hide BitOf, Le, CurveOk, StoreOk;
      ok := PassAdmitted(xs);
      if ok {
        if xs != 1 {
          NewSeries(if xs == 0 then 0 else 3);
        }
        BeginPass(xs);
      }
    }

    method NewSeries(kind: nat)
      modifies `msgPass, `kp
      ensures State() == old(State()).(msgPass := kind, kp := 0)
    {
      msgPass, kp := kind, 0;
    }

    method BeginPass(xs: nat)
      modifies `st, `pass, `msg, `has
      ensures State() == old(State()).(st := MABS, pass := xs, msg := [], has := old(has).(rnd := true))
    {
      st, pass, msg, has := MABS, xs, [], has.(rnd := true);
    }

    method EnterState(target: int, form: Form, xs: nat, random: Option<nat>) returns (ok: bool)
      requires Bounded() && RDY < target <= SCTX
      modifies this, Buffers()
      ensures Bounded() && ok == (Enter(old(State()), target, form, xs, random, E.enc(E.base)).st != INVALID)
      ensures ok ==> State() == Enter(old(State()), target, form, xs, random, E.enc(E.base))
    {
      hide EddsaMachine.EnterPass, EddsaMachine.RandomKey;
      if target == SGEN || target == SSCAL {
        ok := EnterKey(target, form, xs, random);
      } else if target == MABS {
        ok := EnterPass(xs);
      } else {
        ok := EnterField(target, xs);
      }
    }

    /** The new State, if the locker meets its conditions. */
    method Arrive(target: int, form: Form, xs: nat, random: Option<nat>)
      requires Bounded() && RDY <= target <= SCTX
      modifies this, Buffers()
      ensures Bounded() && Same(State(), EddsaMachine.Arrive(old(State()), target, form, xs, random, E.enc(E.base)))
    {
      hide Enter, EddsaMachine.ToReady, GateOk, BitOf, CurveOk;
      var ok := Gate(target);
      if ok {
        if target == RDY {
          ok := ToReady(form, xs);
        } else {
          ok := EnterState(target, form, if form == FormA then 0 else xs, random);
        }
      }
      if !ok {
        st := INVALID;
      }
    }

    method SetSt(target: int, form: Form, xs: nat, random: Option<nat>)
      requires Valid() && st != INVALID
      modifies this, Buffers()
      ensures Valid() && Same(State(), DoSetSt(E, old(State()), target, form, xs, random))
    {
      hide EddsaMachine.Arrive, EddsaMachine.Leave, FormOk, SourceOk;
      SetStOk(E, State(), target, form, xs, random);
      if target == 0 {
        return;
      }
      var ok := RDY <= target <= SCTX && target != OUT && FormOk(target, form, xs) && SourceOk(st, target);
      if ok {
        ok := Leave(target);
      }
      if ok {
        Arrive(target, form, xs, random);
      } else {
        st := INVALID;
      }
    }

    /** What the new State asks of the locker. */
    method Gate(target: int) returns (ok: bool)
      ensures ok == ((target == PMUL || target == SGN || target == SVER ==> GateOk(State(), target)) &&
                     (target == SIN ==> BitOf(policy, 1)))
    {
      hide Le, BitOf;
      if target == PMUL {
        ok := Le(scalar[..]) != 0;
      } else if target == SGN {
        ok := BitOf(policy, 0) && Le(scalar[..]) != 0 && (msgPass == 2 || (msgPass == 0 && has.hash));
      } else if target == SVER {
        ok := BitOf(policy, 1) && has.second && has.sig && (msgPass == 3 || (msgPass == 0 && has.hash));
      } else {
        ok := target != SIN || BitOf(policy, 1);
      }
    }

    // ---------------------------------------------------------------- working in a State

    method WritePiece(data: Bytes)
      requires Apart() && base + |data| <= Loaded(st).Length
      modifies Loaded(st)
      ensures Fields() == WithLoaded(old(Fields()), st, Written(Loading(old(State())), base, data))
    {
      hide Written;
      WriteAt(Loaded(st), base, data);
    }

    /** The next piece goes behind the last one; the excess is ignored. */
    method LoadPiece(data: Bytes)
      requires Valid() && IsSet(st) && !complete
      modifies `base, `complete, `has, Loaded(st)
      ensures State() == Load(old(State()), data)
    {
      hide Written, CurveOk;
      var size := if st == SCTX then ctxLen else Loaded(st).Length;
      SizeIs(size);
      var n := Min(|data|, size - base);
      WritePiece(data[..n]);
      base := base + n;
      if base == size {
        complete := true;
        has := has.(hash := has.hash || st == SHASH, second := has.second || st == S2ND, sig := has.sig || st == SIN);
      }
    }

    lemma SizeIs(size: nat)
      requires size == if st == SCTX then ctxLen else Loaded(st).Length
      ensures size == LoadSize(State()) && Loaded(st).Length == |Loading(State())|
    {
    }

    method ExecIn(data: Bytes)
      requires Valid() && st != INVALID
      modifies `st, `base, `complete, `has, `msg, Loaded(st)
      ensures Valid() && State() == DoExecIn(E.kind, old(State()), data)
    {
      hide Load;
      ExecInOk(E.kind, State(), data);
      if st == MABS {
        msg := msg + data;
      } else if !IsSet(st) || complete {
        st := INVALID;
      } else {
        LoadPiece(data);
      }
    }

    method ToOutput(ot: nat)
      modifies `outType, `st, `base, `progress
      ensures State() == EddsaMachine.ToOutput(old(State()), ot)
    {
      outType, st, base, progress := ot, OUT, 0, false;
    }

    method Multiply(halt: bool)
      requires Valid() && st == PMUL
      modifies this, second
      ensures State() == DoMultiply(E, old(State()), halt)
    {
      hide Expand;
      if ext && has.second {
        st := INVALID;
        return;
      }
      var p := E.dec(if has.second then second[..] else gen[..]);
      if p.None? || p.value == NEUTRAL || E.mul(E.L, p.value) != NEUTRAL {
        st := FAILURE;
      } else if halt {
        progress := true;
      } else {
        PointSizes();
        var shared := has.second;
        Fill(second, E.enc(E.mul(Expand(E, scalar[..]).0, p.value)));
        has := has.(second := true);
        ToOutput(if shared then 2 else 0);
      }
    }

    lemma PointSizes()
      requires CurveOk(E)
      ensures forall p :: |E.enc(p)| == Width(E.kind)
    {
    }

    method SignGenerate(halt: bool)
      requires Valid() && st == SGN
      modifies this, sig
      ensures State() == DoSign(E, old(State()), halt)
    {
      hide SignatureOf;
      if halt {
        progress := true;
      } else {
        PutSignature();
        has := has.(sig := true);
        EndSeries();
        ToOutput(1);
      }
    }

    method PutSignature()
      requires Valid()
      modifies sig
      ensures Fields() == old(Fields()).(sig := SignatureOf(E, old(State())))
    {
      hide SignatureOf;
      SignatureSize(E, State());
      var s := ComputeSignature();
      Fill(sig, s);
    }

    /** From the scalars that the passes left, or in one shot over the prehashed message. */
    method ComputeSignature() returns (b: Bytes)
      requires Valid()
      ensures b == SignatureOf(E, State())
    {
      hide Expand, Sign, ToLe;
      var w := Width(E.kind);
      assert sig[..w] == sig[..][..w] && ctx[..ctxLen] == ctx[..][..ctxLen];
      if msgPass == 2 {
        b := sig[..w] + ToLe((r + kp * Expand(E, scalar[..]).0) % E.L, w);
      } else {
        b := Sign(E, scalar[..], hash[..], 1, ctx[..ctxLen]);
      }
    }

    method SignVerify(halt: bool)
      requires Valid() && st == SVER
      modifies `kp, `progress, `st
      ensures State() == DoVerify(E, old(State()), halt)
    {
      hide Verifies, HashToScalar, Dom;
      if halt {
        progress := true;
      } else {
        var w := Width(E.kind);
        assert sig[..w] == sig[..][..w] && ctx[..ctxLen] == ctx[..][..ctxLen];
        var k := if msgPass == 3 then kp
                 else HashToScalar(E, Dom(E.kind, 1, ctx[..ctxLen]) + sig[..w] + second[..] + hash[..]);
        var good := Verifies(E, second[..], sig[..], k);
        kp, progress, st := 0, false, if good then SUCCESS else FAILURE;
      }
    }

    method ExecD(halt: bool)
      requires Valid() && st != INVALID
      modifies this, second, sig
      ensures Valid() && State() == DoExecD(E, old(State()), halt)
    {
      hide DoMultiply, DoSign, DoVerify;
      ExecDOk(E, State(), halt);
      if st == PMUL {
        Multiply(halt);
      } else if st == SGN {
        SignGenerate(halt);
      } else if st == SVER {
        SignVerify(halt);
      } else {
        st := INVALID;
      }
    }

    method OutputBytes() returns (o: Bytes)
      ensures o == OutBytes(State())
    {
      o := if outType == 1 then sig[..] else second[..];
    }

    method ExecOut(n: nat) returns (out: Bytes)
      requires Valid() && st != INVALID
      modifies `st, `base
      ensures Valid() && Outcome(State(), out) == DoExecOut(old(State()), n)
    {
      hide OutBytes, CurveOk, StoreOk, LoadSize;
      ExecOutOk(E.kind, State(), n);
      var o := OutputBytes();
      if st != OUT || base + n > |o| {
        st := INVALID;
        return [];
      }
      out := o[base..base + n];
      base, st := base + n, if base + n == |o| then SUCCESS else OUT;
    }

    method Derive() returns (out: Bytes)
      requires Valid() && st != INVALID
      modifies `st
      ensures Valid() && Outcome(State(), out) == DoDerive(old(State()))
    {
      ExecOutOk(E.kind, State(), 0);
      if st == OUT && outType == 2 && base == 0 {
        st := SUCCESS;
        return second[..];
      }
      st := INVALID;
      return [];
    }

    method Restrict(narrowed: nat)
      requires Valid() && st != INVALID
      modifies `st, `policy, `progress, `has
      ensures Valid() && State() == DoRestrict(old(State()), narrowed)
    {
      hide BitOf;
      RestrictOk(E.kind, State(), narrowed);
      if narrowed == 0 || (BitOf(narrowed, 0) && !BitOf(policy, 0))
         || (BitOf(narrowed, 1) && !BitOf(policy, 1)) || narrowed >= 4 {
        st := INVALID;
        return;
      }
      policy := narrowed;
      if !BitOf(narrowed, 0) {
        DropProgress();
      }
    }

    /** Without signing there is nothing to go on with; in Msg_Absorb the flag stands for the hash. */
    method DropProgress()
      modifies `progress, `has
      ensures State() == old(State()).(progress := false, has := if st == MABS then old(has)
              else old(has).(rnd := false))
    {
      progress := false;
      if st != MABS {
        has := has.(rnd := false);
      }
    }

    method ClearAds()
      requires Valid() && st != INVALID
      modifies `progress
      ensures Valid() && State() == old(State()).(progress := false)
    {
      ClearAdsOk(E.kind, State());
      progress := false;
    }

    method ImportGenerator(g: Bytes)
      requires Valid() && st != INVALID
      modifies `st, gen
      ensures Valid() && State() == DoImportGenerator(E, old(State()), g)
    {
      GeneratorOk(E, State(), g);
      if (ext && g != E.enc(E.base)) || |g| != Width(E.kind) {
        st := INVALID;
      } else {
        Fill(gen, g);
      }
    }
  }

  /** Where a random key begins: with a zero scalar. */
  lemma KeyState(m: Ed, random: Option<nat>, w: nat)
    ensures (EddsaMachine.RandomKey(m, random, w).st == INVALID) == (random.None? || m.st == INVALID)
  {
    hide ToLe, Le;
  }
}
