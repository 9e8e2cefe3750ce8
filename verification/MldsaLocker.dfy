/** The ML-DSA locker object: its methods update the fields in place, and make exactly the steps of MldsaMachine. */
module MldsaLocker {
  import opened Wrappers
  import opened Modular
  import opened Digits
  import opened Streams
  import opened MldsaRounding
  import opened MldsaCodec
  import opened MldsaSampling
  import opened Mldsa
  import opened MldsaMachine

  /** The flag bits of StateExtension. */
  datatype Flags = Flags(priv: bool, pub: bool, hedged: bool, mu: bool)

  class Locker {
    const w: Setting
    var policy: nat
    var st: int
    var error: bool
    var se: Flags
    var used: nat
    var privkey: Bytes
    var pubkey: Bytes
    var signature: Bytes
    var mu: Bytes
    var rnd: Bytes
    var ads: Option<nat>

    function State(): (m: Fields)
      reads this
    {
      Fields(policy, st, error, se.priv, se.pub, se.hedged, se.mu, used, privkey, pubkey, signature, mu, rnd, ads)
    }

    constructor (w: Setting, policy: nat)
      ensures this.w == w && State() == Create(w, policy)
    {
      this.w, this.policy := w, policy;
      st, error, used, ads, se := READY, false, 0, None, Flags(false, false, false, false);
      privkey, pubkey, signature := ZeroBytes(w.ps.skLen), ZeroBytes(w.ps.pkLen), ZeroBytes(w.ps.sigLen);
      mu, rnd := ZeroBytes(64), ZeroBytes(32);
    }

    method ZeroAll()
      modifies this`privkey, this`pubkey, this`signature, this`mu, this`rnd
      ensures privkey == ZeroBytes(w.ps.skLen) && pubkey == ZeroBytes(w.ps.pkLen) && signature == ZeroBytes(w.ps.sigLen)
      ensures mu == ZeroBytes(64) && rnd == ZeroBytes(32)
    {
      privkey, pubkey, signature := ZeroBytes(w.ps.skLen), ZeroBytes(w.ps.pkLen), ZeroBytes(w.ps.sigLen);
      mu, rnd := ZeroBytes(64), ZeroBytes(32);
    }

    method Clear(error: bool)
      modifies this
      ensures State() == Cleared(w, old(State()), error) && policy == old(policy)
    {
      hide ZeroBytes;
      ZeroAll();
      st, this.error, used, ads, se := 0, error, 0, None, Flags(false, false, false, false);
    }

    method GoReady()
      modifies this
      ensures State() == EnterReady(w, old(State())) && policy == old(policy)
    {
      hide ZeroBytes;
      signature, mu, rnd := ZeroBytes(w.ps.sigLen), ZeroBytes(64), ZeroBytes(32);
      se, st, used, ads := se.(mu := false), READY, 0, None;
    }

    method GoTo(target: int)
      modifies this`st, this`used
      ensures State() == To(old(State()), target)
    {
      st, used := target, 0;
    }

    method StoreField(at: int, v: Bytes)
      modifies this`privkey, this`pubkey, this`mu, this`signature
      ensures State() == WithField(old(State()), at, v)
    {
      if at == PRIVIN {
        privkey := v;
      } else if at == PKIN || at == PKOUT {
        pubkey := v;
      } else if at == MUIN {
        mu := v;
      } else {
        signature := v;
      }
    }

    method Leave()
      modifies this
      ensures State() == Left(w, old(State())) && policy == old(policy)
    {
      hide WithField, Size;
      if Loading(st) && used < Size(w, st) {
        StoreField(st, ZeroBytes(Size(w, st)));
        if st == MUIN {
          se := se.(mu := false);
        }
      } else if st == SGEN && used != 0 {
        used, rnd, ads := 0, ZeroBytes(32), None;
      }
    }

    /** Entering a State that loads a field: what is there is dropped first. */
    method EnterLoad(target: int) returns (ok: bool)
      requires Loading(target)
      modifies this`se, this`pubkey, this`privkey, this`mu, this`signature, this`st, this`used
      ensures ok == Enter(w, old(State()), target, 0).Some?
      ensures ok ==> State() == Enter(w, old(State()), target, 0).value
    {
      hide ZeroBytes;
      ok := true;
      if target == PRIVIN {
        se := se.(priv := false, pub := false);
        pubkey, privkey := ZeroBytes(w.ps.pkLen), ZeroBytes(w.ps.skLen);
      } else if target == PKIN {
        ok := !se.priv;
        se, pubkey := se.(pub := false), ZeroBytes(w.ps.pkLen);
      } else if target == MUIN {
        se, mu := se.(mu := false), ZeroBytes(64);
      } else {
        signature := ZeroBytes(w.ps.sigLen);
      }
      GoTo(target);
    }

    /** Whether the State was entered. */
    method DoEnter(target: int, xs: nat) returns (ok: bool)
      modifies this
      ensures ok == Enter(w, old(State()), target, xs).Some? && policy == old(policy)
      ensures ok ==> State() == Enter(w, old(State()), target, xs).value
    {
      hide EnterReady, ZeroBytes;
      ok := true;
      if target == READY {
        GoReady();
      } else if Loading(target) {
        ok := EnterLoad(target);
      } else {
        ok := (target == PKOUT ==> se.pub) && (target == CPK ==> se.priv) && (target == SVER ==> se.pub && se.mu)
              && (target == SGEN ==> se.priv && se.mu);
        if target == SGEN {
          se := se.(hedged := xs == 0);
        }
        GoTo(target);
      }
    }

    method SetSt(target: int, form: Form, xs: nat)
      modifies this
      ensures State() == DoSetSt(w, old(State()), target, form, xs)
    {
      hide Enter, Left, Cleared, SetAdmitted;
      if st == 0 {
        return;
      }
      if target == 0 {
        Clear(false);
      } else if !SetAdmitted(State(), target, form) {
        Clear(true);
      } else {
        ghost var m := State();
        Leave();
        var ok := DoEnter(target, xs);
        if !ok {
          ForgetAll(w, m, State());
          Clear(true);
        }
      }
    }

    method Load(form: Form, data: Bytes)
      requires Loading(st) && |Field(State(), st)| == Size(w, st)
      modifies this
      ensures State() == DoLoad(w, old(State()), form, data)
    {
      hide Cleared, Overwritten, Loaded, Field, WithField, Size;
      if form != FormB || used >= Size(w, st) {
        Clear(true);
        return;
      }
      var room := Size(w, st) - used;
      StoreField(st, Overwritten(Field(State(), st), used, data));
      if |data| < room {
        used := used + |data|;
      } else {
        used := Size(w, st);
        FinishLoad(|data| > room);
      }
    }

    method FinishLoad(excess: bool)
      requires Loading(st)
      modifies this
      ensures State() == Loaded(w, old(State()), excess)
    {
      hide Cleared, ZeroBytes, SkOk;
      if st == PRIVIN {
        if SkOk(w.ps, privkey) {
          se := se.(priv := true);
        } else {
          Clear(true);
        }
      } else if st == PKIN {
        if excess {
          pubkey := ZeroBytes(w.ps.pkLen);
          GoTo(FAILURE);
        } else {
          se := se.(pub := true);
        }
      } else if st == MUIN {
        se := se.(mu := true);
      } else if excess {
        signature := ZeroBytes(w.ps.sigLen);
        GoTo(FAILURE);
      }
    }

    method Emit(form: Form, n: nat) returns (out: Bytes)
      requires |Field(State(), st)| == Size(w, st)
      modifies this
      ensures Outcome(State(), out) == DoEmit(w, old(State()), form, n)
    {
      hide Cleared, Field, Size;
      if form != FormC || used + n > Size(w, st) {
        Clear(true);
        return [];
      }
      out := Field(State(), st)[used..used + n];
      if used + n == Size(w, st) {
        GoTo(SUCCESS);
      } else {
        used := used + n;
      }
    }

    method Generate(draw: Option<Bytes>)
      modifies this
      ensures State() == DoGenerate(w, old(State()), draw)
    {
      hide Cleared, KeyGen;
      if draw.None? {
        Clear(true);
        return;
      }
      var keys := KeyGen(w.ps, w.hs, draw.value, w.lim);
      if keys.None? {
        GoTo(FAILURE);
      } else {
        pubkey, privkey := keys.value.0, keys.value.1;
        se := se.(priv := true, pub := true);
        GoTo(PKOUT);
      }
    }

    method ComputePk()
      requires |privkey| == w.ps.skLen
      modifies this
      ensures State() == DoComputePk(w, old(State()))
    {
      hide Cleared, PkFromSk, H, TrOf, EnterReady;
      var pk := PkFromSk(w.ps, w.hs, privkey, w.lim);
      if pk.None? {
        GoTo(FAILURE);
      } else if H(w.hs, pk.value, 64) != TrOf(w.ps, privkey) {
        Clear(true);
      } else {
        pubkey, se := pk.value, se.(pub := true);
        GoReady();
      }
    }

    method CheckSignature()
      modifies this
      ensures State() == DoVerify(w, old(State()))
    {
      hide Verify;
      var ok := Verify(w.ps, w.hs, pubkey, mu, signature, w.lim);
      GoTo(if ok == Some(true) then SUCCESS else FAILURE);
    }

    /** Fixes rnd at the start of a signature; an interrupted one whose progress was lost starts again. */
    method Begin(draw: Option<Bytes>) returns (ok: bool)
      modifies this`used, this`rnd, this`ads
      ensures ok == Started(w, old(State()), draw).Some? && (ok ==> State() == Started(w, old(State()), draw).value)
    {
      hide ZeroBytes;
      if used != 0 && ads.None? {
        used, rnd := 0, ZeroBytes(32);
      }
      ok := true;
      if used == 0 {
        if se.hedged {
          if draw.None? {
            return false;
          }
          rnd := draw.value;
        } else {
          rnd := ZeroBytes(32);
        }
        ads := Some(0);
      }
    }

    method Complete(whole: Option<(nat, Bytes)>)
      modifies this`signature, this`rnd, this`ads, this`st, this`used
      ensures State() == Completed(old(State()), whole)
    {
      hide ZeroBytes;
      if whole.Some? {
        signature := whole.value.1;
      }
      rnd, ads := ZeroBytes(32), None;
      GoTo(if whole.Some? then SOUT else FAILURE);
    }

    /** The iterations go on behind those already done, up to halt more of them. */
    method Continue(halt: Option<nat>)
      requires |privkey| == w.ps.skLen
      modifies this
      ensures State() == Continued(w, old(State()), halt)
    {
      hide Sign, Completed;
      var done := if ads.Some? then ads.value else 0;
      var whole := SignLoop(w.ps, w.hs, privkey, mu, rnd, w.lim);
      if halt.Some? && Unfinished(w, whole, done + halt.value) {
        ads, used := Some(done + halt.value), done + halt.value + 1;
      } else {
        Complete(whole);
      }
    }

    /** Sign_Generate. */
    method SignNow(halt: Option<nat>, draw: Option<Bytes>)
      requires |privkey| == w.ps.skLen
      modifies this
      ensures State() == DoSign(w, old(State()), halt, draw)
    {
      hide Cleared, Started, Continued;
      StartedKeeps(w, State(), draw);
      ghost var m := State();
      var ok := Begin(draw);
      if ok {
        Continue(halt);
      } else {
        ForgetAll(w, m, State());
        Clear(true);
      }
    }

    method Exec(form: Form, data: Bytes, n: nat, halt: Option<nat>, draw: Option<Bytes>) returns (out: Bytes)
      requires Sized(w, State())
      modifies this
      ensures Outcome(State(), out) == DoExec(w, old(State()), form, data, n, halt, draw)
    {
      hide Cleared, DoLoad, DoEmit, DoGenerate, DoComputePk, DoVerify, DoSign;
      out := [];
      if st == 0 {
        return;
      }
      if st == READY || st == SUCCESS || st == FAILURE || !Permitted(policy, st) {
        Clear(true);
      } else if Loading(st) {
        Load(form, data);
      } else if st == PKOUT || st == SOUT {
        out := Emit(form, n);
      } else if form != FormD {
        Clear(true);
      } else if st == GEN {
        Generate(draw);
      } else if st == CPK {
        ComputePk();
      } else if st == SVER {
        CheckSignature();
      } else {
        SignNow(halt, draw);
      }
    }

    method Restrict(mask: nat)
      modifies this`policy
      ensures State() == old(State()).(policy := And2(old(policy), mask))
    {
      policy := And2(policy, mask);
    }
  }

  lemma StartedKeeps(w: Setting, m: Fields, draw: Option<Bytes>)
    ensures Started(w, m, draw).Some? ==> Started(w, m, draw).value.privkey == m.privkey
  {
  }

  /** Clearing depends on nothing but the policy. */
  lemma ForgetAll(w: Setting, a: Fields, b: Fields)
    ensures a.policy == b.policy ==> Cleared(w, a, true) == Cleared(w, b, true)
  {
  }
}
