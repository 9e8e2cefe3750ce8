/**
 The ML-DSA locker: keys, message representative and signature are loaded, generated and emitted under kl.setst and
 kl.exec.  `Step` is the transition function that the class in MldsaLocker follows.
 */
module MldsaMachine {
  import opened Wrappers
  import opened Modular
  import opened Digits
  import opened Streams
  import opened MldsaRounding
  import opened MldsaCodec
  import opened MldsaSampling
  import opened Mldsa
  import opened MldsaCorrectness

  const READY := 1
  const GEN := 2
  const PKOUT := 3
  const PKIN := 4
  const MUIN := 6
  const SGEN := 8
  const SOUT := 9
  const SVER := 10
  const SIN := 11
  const PRIVIN := 12
  const CPK := 13
  const SUCCESS := 54
  const FAILURE := 55

  datatype Form = FormA | FormB | FormC | FormD

  /** What does not change: the parameter set, the hash functions and the loop bounds. */
  datatype Setting = Setting(ps: Params, hs: Hashes, lim: Limits)

  /**
   The fields of a locker.  StateExtension is kept as its four flags and, once inert, as whether there was an error; ads
   is the number of finished iterations of an interrupted Sign_Generate.
   */
  datatype Fields = Fields(policy: nat, st: int, error: bool, hasPriv: bool, hasPub: bool, hedged: bool, hasMu: bool,
                           used: nat, privkey: Bytes, pubkey: Bytes, signature: Bytes, mu: Bytes, rnd: Bytes,
                               ads: Option<nat>)

  /** draw is what the random bit generator would return if it is asked, none when it fails. */
  datatype Instr =
    | SetSt(target: int, form: Form, xs: nat)
    | Exec(form: Form, data: Bytes, n: nat, halt: Option<nat>, draw: Option<Bytes>)
    | Restrict(mask: nat)

  datatype Outcome = Outcome(m: Fields, out: Bytes)

  function ZeroBytes(n: nat): (r: Bytes)
    ensures |r| == n
  {
    seq(n, _ => 0)
  }

  // ---------------------------------------------------------------- state changes

  function Cleared(w: Setting, m: Fields, error: bool): Fields {
    Fields(m.policy, 0, error, false, false, false, false, 0, ZeroBytes(w.ps.skLen), ZeroBytes(w.ps.pkLen),
           ZeroBytes(w.ps.sigLen), ZeroBytes(64), ZeroBytes(32), None)
  }

  function Invalid(w: Setting, m: Fields): Fields {
    Cleared(w, m, true)
  }

  function Create(w: Setting, policy: nat): Fields {
    Fields(policy, READY, false, false, false, false, false, 0, ZeroBytes(w.ps.skLen), ZeroBytes(w.ps.pkLen),
           ZeroBytes(w.ps.sigLen), ZeroBytes(64), ZeroBytes(32), None)
  }

  function EnterReady(w: Setting, m: Fields): Fields {
    m.(signature := ZeroBytes(w.ps.sigLen), mu := ZeroBytes(64), hasMu := false, rnd := ZeroBytes(32), st := READY,
        used := 0,
       ads := None)
  }

  function To(m: Fields, st: int): Fields {
    m.(st := st, used := 0)
  }

  predicate Loading(st: int) {
    st == PRIVIN || st == PKIN || st == MUIN || st == SIN
  }

  predicate Defined(st: int) {
    st == READY || st == GEN || st == PKOUT || st == PKIN || st == MUIN || st == SGEN || st == SOUT || st == SVER ||
        st == SIN ||
    st == PRIVIN || st == CPK
  }

  function Size(w: Setting, st: int): nat {
    if st == PRIVIN then w.ps.skLen else if st == PKIN || st == PKOUT then w.ps.pkLen
    else if st == MUIN then 64 else w.ps.sigLen
  }

  /** The field that a State loads or emits. */
  function Field(m: Fields, st: int): Bytes {
    if st == PRIVIN then m.privkey else if st == PKIN || st == PKOUT then m.pubkey else if st == MUIN then m.mu
        else m.signature
  }

  function WithField(m: Fields, st: int, v: Bytes): Fields {
    if st == PRIVIN then m.(privkey := v) else if st == PKIN || st == PKOUT then m.(pubkey := v)
    else if st == MUIN then m.(mu := v) else m.(signature := v)
  }

  predicate Permitted(policy: nat, st: int) {
    ((st == SGEN || st == SOUT) ==> policy % 2 == 1) && ((st == SVER || st == SIN) ==> policy / 2 % 2 == 1)
  }

  /** Leaving a State: an incomplete load and an interrupted signature are dropped. */
  function Left(w: Setting, m: Fields): Fields {
    if Loading(m.st) && m.used < Size(w, m.st) then
      var m1 := WithField(m, m.st, ZeroBytes(Size(w, m.st)));
      if m.st == MUIN then m1.(hasMu := false) else m1
    else if m.st == SGEN && m.used != 0 then m.(used := 0, rnd := ZeroBytes(32), ads := None)
    else m
  }

  function Enter(w: Setting, m: Fields, target: int, xs: nat): Option<Fields> {
    if target == READY then Some(EnterReady(w, m))
    else if target == PRIVIN then
      Some(To(m.(hasPriv := false, hasPub := false, pubkey := ZeroBytes(w.ps.pkLen), privkey := ZeroBytes(w.ps.skLen)),
          target))
    else if target == PKIN then
      if m.hasPriv then None else Some(To(m.(hasPub := false, pubkey := ZeroBytes(w.ps.pkLen)), target))
    else if target == MUIN then Some(To(m.(hasMu := false, mu := ZeroBytes(64)), target))
    else if target == SIN then Some(To(m.(signature := ZeroBytes(w.ps.sigLen)), target))
    else if (target == PKOUT && !m.hasPub) || (target == CPK && !m.hasPriv) then None
    else if target == SVER && !(m.hasPub && m.hasMu) then None
    else if target == SGEN then
      if m.hasPriv && m.hasMu then Some(To(m.(hedged := xs == 0), target)) else None
    else Some(To(m, target))
  }

  predicate SetAdmitted(m: Fields, target: int, form: Form) {
    && Defined(target)
    && (m.st == SUCCESS || m.st == FAILURE ==> target == READY)
    && (form == FormA || (target == SGEN && form == FormB))
    && Permitted(m.policy, target) && target != SOUT
    && (target == m.st ==> target == READY || Loading(target))
  }

  function DoSetSt(w: Setting, m: Fields, target: int, form: Form, xs: nat): Fields {
    if m.st == 0 then m
    else if target == 0 then Cleared(w, m, false)
    else if !SetAdmitted(m, target, form) then Invalid(w, m)
    else
      match Enter(w, Left(w, m), target, xs)
      case None => Invalid(w, m)
      case Some(m') => m'
  }

  // ---------------------------------------------------------------- kl.exec

  /** data written into v from position at on, as far as v reaches. */
  function Overwritten(v: Bytes, at: nat, data: Bytes): (r: Bytes)
    requires at <= |v|
    ensures |r| == |v|
  {
    var take := if |data| < |v| - at then |data| else |v| - at;
    v[..at] + data[..take] + v[at + take..]
  }

  /** A load is complete: what is checked, and what follows. */
  function Loaded(w: Setting, m: Fields, excess: bool): Fields {
    if m.st == PRIVIN then (if SkOk(w.ps, m.privkey) then m.(hasPriv := true) else Invalid(w, m))
    else if m.st == PKIN then
      (if excess then To(m.(pubkey := ZeroBytes(w.ps.pkLen)), FAILURE) else m.(hasPub := true))
    else if m.st == MUIN then m.(hasMu := true)
    else if excess then To(m.(signature := ZeroBytes(w.ps.sigLen)), FAILURE)
    else m
  }

  function DoLoad(w: Setting, m: Fields, form: Form, data: Bytes): Fields
    requires |Field(m, m.st)| == Size(w, m.st)
  {
    if form != FormB || m.used >= Size(w, m.st) then Invalid(w, m)
    else
      var room := Size(w, m.st) - m.used;
      var m1 := WithField(m, m.st, Overwritten(Field(m, m.st), m.used, data));
      if |data| < room then m1.(used := m.used + |data|) else Loaded(w, m1.(used := Size(w, m.st)), |data| > room)
  }

  function DoEmit(w: Setting, m: Fields, form: Form, n: nat): Outcome
    requires |Field(m, m.st)| == Size(w, m.st)
  {
    if form != FormC || m.used + n > Size(w, m.st) then Outcome(Invalid(w, m), [])
    else
      var out := Field(m, m.st)[m.used..m.used + n];
      Outcome(if m.used + n == Size(w, m.st) then To(m, SUCCESS) else m.(used := m.used + n), out)
  }

  function DoGenerate(w: Setting, m: Fields, draw: Option<Bytes>): Fields {
    match draw
    case None => Invalid(w, m)
    case Some(xi) =>
      match KeyGen(w.ps, w.hs, xi, w.lim)
      case None => To(m, FAILURE)
      case Some((pk, sk)) => To(m.(pubkey := pk, privkey := sk, hasPriv := true, hasPub := true), PKOUT)
  }

  /** The hash of the public key that a secret key carries. */
  function TrOf(ps: Params, sk: Bytes): Bytes
    requires |sk| == ps.skLen
  {
    sk[64..128]
  }

  function DoComputePk(w: Setting, m: Fields): Fields
    requires |m.privkey| == w.ps.skLen
  {
    hide PkFromSk;
    match PkFromSk(w.ps, w.hs, m.privkey, w.lim)
    case None => To(m, FAILURE)
    case Some(pk) =>
      if H(w.hs, pk, 64) != TrOf(w.ps, m.privkey) then Invalid(w, m)
      else EnterReady(w, m.(pubkey := pk, hasPub := true))
  }

  function DoVerify(w: Setting, m: Fields): Fields {
    match Verify(w.ps, w.hs, m.pubkey, m.mu, m.signature, w.lim)
    case None => To(m, FAILURE)
    case Some(ok) => To(m, if ok then SUCCESS else FAILURE)
  }

  /** The start of a signature: rnd is drawn, or zero in the deterministic variant. */
  function Started(w: Setting, m: Fields, draw: Option<Bytes>): Option<Fields> {
    var m1 := if m.used != 0 && m.ads.None? then m.(used := 0, rnd := ZeroBytes(32)) else m;
    if m1.used != 0 then Some(m1)
    else if !m.hedged then Some(m1.(rnd := ZeroBytes(32), ads := Some(0)))
    else if draw.Some? then Some(m1.(rnd := draw.value, ads := Some(0)))
    else None
  }

  /** Interrupted after halt more iterations. */
  function Interrupted(m: Fields, done: nat): Fields {
    m.(ads := Some(done), used := done + 1)
  }

  /** The signature is there to be emitted, or the loop bound was passed. */
  function Completed(m: Fields, whole: Option<(nat, Bytes)>): Fields {
    if whole.Some? then To(m.(signature := whole.value.1, rnd := ZeroBytes(32), ads := None), SOUT)
    else To(m.(rnd := ZeroBytes(32), ads := None), FAILURE)
  }

  /** done iterations do not complete the signature, nor pass the loop bound. */
  predicate Unfinished(w: Setting, whole: Option<(nat, Bytes)>, done: nat) {
    if whole.Some? then done < whole.value.0 else done <= w.lim.sign
  }

  /** The iterations go on behind those already done, up to halt more of them. */
  function Continued(w: Setting, m: Fields, halt: Option<nat>): Fields
    requires |m.privkey| == w.ps.skLen
  {
    var done := if m.ads.Some? then m.ads.value else 0;
    var whole := Sign(w.ps, w.hs, m.privkey, m.mu, m.rnd, w.lim);
    if halt.Some? && Unfinished(w, whole, done + halt.value) then Interrupted(m, done + halt.value)
    else Completed(m, whole)
  }

  function DoSign(w: Setting, m: Fields, halt: Option<nat>, draw: Option<Bytes>): Fields
    requires |m.privkey| == w.ps.skLen
  {
    match Started(w, m, draw)
    case None => Invalid(w, m)
    case Some(m1) => Continued(w, m1, halt)
  }

  function DoExec(w: Setting, m: Fields, form: Form, data: Bytes, n: nat, halt: Option<nat>,
      draw: Option<Bytes>): Outcome
    requires Sized(w, m)
  {
    if m.st == 0 then Outcome(m, [])
    else if m.st == READY || m.st == SUCCESS || m.st == FAILURE ||
        !Permitted(m.policy, m.st) then Outcome(Invalid(w, m), [])
    else if Loading(m.st) then Outcome(DoLoad(w, m, form, data), [])
    else if m.st == PKOUT || m.st == SOUT then DoEmit(w, m, form, n)
    else if form != FormD then Outcome(Invalid(w, m), [])
    else
      Outcome(if m.st == GEN then DoGenerate(w, m, draw) else if m.st == CPK then DoComputePk(w, m)
              else if m.st == SVER then DoVerify(w, m) else DoSign(w, m, halt, draw), [])
  }

  /** Every field has its size. */
  ghost predicate Sized(w: Setting, m: Fields) {
    |m.privkey| == w.ps.skLen && |m.pubkey| == w.ps.pkLen && |m.signature| == w.ps.sigLen && |m.mu| == 64
  }

  function Step(w: Setting, m: Fields, i: Instr): Outcome
    requires Sized(w, m)
  {
    match i
    case SetSt(target, form, xs) => Outcome(DoSetSt(w, m, target, form, xs), [])
    case Exec(form, data, n, halt, draw) => DoExec(w, m, form, data, n, halt, draw)
    case Restrict(mask) => Outcome(m.(policy := And2(m.policy, mask)), [])
  }

  // ---------------------------------------------------------------- the invariant

  /** The keys in the locker belong together. */
  ghost predicate KeysFit(w: Setting, m: Fields) {
    && Sized(w, m)
    && (m.hasPriv ==> SkOk(w.ps, m.privkey))
    && (m.hasPriv && m.hasPub ==> PkFromSk(w.ps, w.hs, m.privkey, w.lim) == Some(m.pubkey))
  }

  /** How far a transfer or a signature has got, and what must be present in each State. */
  ghost predicate ProgressFits(w: Setting, m: Fields) {
    && m.ads == (if m.st == SGEN && m.used != 0 then Some(m.used - 1) else None)
    && (m.ads.None? ==> m.rnd == ZeroBytes(32))
    && (Loading(m.st) ==> m.used <= Size(w, m.st))
    && (m.st == PKOUT || m.st == SOUT ==> m.used < Size(w, m.st))
    && (m.st == PRIVIN && m.used < w.ps.skLen ==> !m.hasPriv && !m.hasPub)
    && (m.st == PKIN ==> !m.hasPriv && (m.used < w.ps.pkLen ==> !m.hasPub))
    && (m.st == PKOUT ==> m.hasPub)
    && (m.st == CPK ==> m.hasPriv)
    && (m.st == SGEN ==> m.hasPriv && m.hasMu)
    && (m.st == SVER ==> m.hasPub && m.hasMu)
    && (m.st == 0 ==> m == Cleared(w, m, m.error))
    && (m.st == 0 || Defined(m.st) || m.st == SUCCESS || m.st == FAILURE)
  }

  ghost predicate Inv(w: Setting, m: Fields) {
    KeysFit(w, m) && ProgressFits(w, m)
  }

  lemma ClearedInv(w: Setting, m: Fields, error: bool)
    ensures Inv(w, Cleared(w, m, error))
  {
    hide PkFromSk, SkOk;
  }

  lemma CreateInv(w: Setting, policy: nat)
    ensures Inv(w, Create(w, policy))
  {
    hide PkFromSk, SkOk;
  }

  lemma LeftInv(w: Setting, m: Fields)
    requires Inv(w, m) && m.st != 0
    ensures KeysFit(w, Left(w, m)) && Left(w, m).ads == None && Left(w, m).rnd == ZeroBytes(32) && Left(w, m).st == m.st
  {
    hide PkFromSk, SkOk, WithField, Cleared;
    if Loading(m.st) && m.used < Size(w, m.st) {
      DroppedFits(w, m);
    }
  }

  /** An incomplete load can be dropped: no flag depends on the field. */
  lemma DroppedFits(w: Setting, m: Fields)
    requires Inv(w, m) && Loading(m.st) && m.used < Size(w, m.st)
    ensures var m1 := WithField(m, m.st, ZeroBytes(Size(w, m.st)));
            KeysFit(w, m1) && m1.ads == m.ads && m1.rnd == m.rnd && m1.st == m.st
  {
    hide PkFromSk, SkOk, Cleared;
  }

  lemma EnterInv(w: Setting, m: Fields, target: int, xs: nat)
    requires KeysFit(w, m) && m.ads == None && m.rnd == ZeroBytes(32) && Defined(target) && target != SOUT
    ensures Enter(w, m, target, xs).Some? ==> Inv(w, Enter(w, m, target, xs).value)
  {
    hide PkFromSk, SkOk;
    PositiveSizes(w.ps);
  }

  lemma PositiveSizes(ps: Params)
    ensures ps.skLen >= 128 && ps.pkLen >= 32 && ps.sigLen > 0
  {
  }

  lemma SetStInv(w: Setting, m: Fields, target: int, form: Form, xs: nat)
    requires Inv(w, m)
    ensures Inv(w, DoSetSt(w, m, target, form, xs))
  {
    hide Inv, KeysFit, Enter, Left, Cleared, SetAdmitted;
    ClearedInv(w, m, true);
    ClearedInv(w, m, false);
    if m.st != 0 && SetAdmitted(m, target, form) {
      AdmittedTarget(m, target, form);
      LeftInv(w, m);
      EnterInv(w, Left(w, m), target, xs);
    }
  }

  lemma AdmittedTarget(m: Fields, target: int, form: Form)
    requires SetAdmitted(m, target, form)
    ensures Defined(target) && target != SOUT
  {
  }

  lemma LoadedInv(w: Setting, m: Fields, excess: bool)
    requires Sized(w, m) && Loading(m.st) && m.used == Size(w, m.st) && m.ads == None && m.rnd == ZeroBytes(32)
    requires m.st == PRIVIN || m.st == PKIN ==> !m.hasPriv && !m.hasPub
    requires KeysFit(w, m)
    ensures Inv(w, Loaded(w, m, excess))
  {
    hide PkFromSk, SkOk, Cleared;
    ClearedInv(w, m, true);
  }

  /** While a load is going on, its field can take any content. */
  lemma Reloaded(w: Setting, m: Fields, v: Bytes, used: nat)
    requires Inv(w, m) && Loading(m.st) && m.used < Size(w, m.st) && |v| == Size(w, m.st) && used <= Size(w, m.st)
    ensures var m1 := WithField(m, m.st, v).(used := used);
            m1.st == m.st && m1.ads == None && m1.rnd == ZeroBytes(32) && KeysFit(w, m1) &&
            (m.st == PRIVIN || m.st == PKIN ==> !m1.hasPriv && !m1.hasPub) && (used < Size(w, m.st) ==> Inv(w, m1))
  {
    hide PkFromSk, SkOk, Cleared;
  }

  lemma LoadInv(w: Setting, m: Fields, form: Form, data: Bytes)
    requires Inv(w, m) && Loading(m.st)
    ensures Inv(w, DoLoad(w, m, form, data))
  {
    hide KeysFit, ProgressFits, Inv, Cleared, Loaded, Overwritten, Field, WithField;
    ClearedInv(w, m, true);
    KeyIsSized(w, m);
    FieldIsSized(w, m, m.st);
    if form == FormB && m.used < Size(w, m.st) {
      var v := Overwritten(Field(m, m.st), m.used, data);
      Reloaded(w, m, v, if |data| < Size(w, m.st) - m.used then m.used + |data| else Size(w, m.st));
      FitIsSized(w, WithField(m, m.st, v));
      if |data| >= Size(w, m.st) - m.used {
        LoadedInv(w, WithField(m, m.st, v).(used := Size(w, m.st)), |data| > Size(w, m.st) - m.used);
      }
    }
  }

  lemma FieldIsSized(w: Setting, m: Fields, st: int)
    requires Sized(w, m)
    ensures Loading(st) || st == PKOUT || st == SOUT ==> |Field(m, st)| == Size(w, st)
  {
  }

  lemma FitIsSized(w: Setting, m: Fields)
    ensures KeysFit(w, m) ==> Sized(w, m)
    ensures KeysFit(w, m.(used := Size(w, m.st))) ==> Sized(w, m)
  {
    hide PkFromSk, SkOk, Size;
  }

  lemma KeysMoved(w: Setting, m: Fields, st: int, used: nat)
    requires KeysFit(w, m)
    ensures KeysFit(w, m.(st := st, used := used))
  {
    hide PkFromSk, SkOk;
  }

  lemma EmitInv(w: Setting, m: Fields, form: Form, n: nat)
    requires Inv(w, m) && (m.st == PKOUT || m.st == SOUT)
    ensures Inv(w, DoEmit(w, m, form, n).m)
  {
    hide KeysFit, Field, Cleared;
    ClearedInv(w, m, true);
    KeyIsSized(w, m);
    KeysMoved(w, m, SUCCESS, 0);
    KeysMoved(w, m, m.st, m.used + n);
  }

  lemma GenerateInv(w: Setting, m: Fields, draw: Option<Bytes>)
    requires Inv(w, m) && m.st == GEN
    ensures Inv(w, DoGenerate(w, m, draw))
  {
    hide PkFromSk, SkOk, Cleared, KeyGen, H;
    ClearedInv(w, m, true);
    PositiveSizes(w.ps);
    if draw.Some? && KeyGen(w.ps, w.hs, draw.value, w.lim).Some? {
      KeyGenLengths(w.ps, w.hs, draw.value, w.lim);
      PublicFromSecret(w.ps, w.hs, draw.value, w.lim);
    }
  }

  lemma KeyGenLengths(ps: Params, hs: Hashes, xi: Bytes, lim: Limits)
    requires KeyGen(ps, hs, xi, lim).Some?
    ensures var (pk, sk) := KeyGen(ps, hs, xi, lim).value; |pk| == ps.pkLen && |sk| == ps.skLen
  {
    hide KeyGen, Sign, Verify;
    SignedIsVerified(ps, hs, xi, [], [], lim);
  }

  lemma ComputePkInv(w: Setting, m: Fields)
    requires Inv(w, m) && m.st == CPK
    ensures Inv(w, DoComputePk(w, m))
  {
    hide PkFromSk, SkOk, Cleared, H, TrOf;
    ClearedInv(w, m, true);
    PkFromSkLength(w.ps, w.hs, m.privkey, w.lim);
  }

  lemma PkFromSkLength(ps: Params, hs: Hashes, sk: Bytes, lim: Limits)
    requires |sk| == ps.skLen
    ensures var r := PkFromSk(ps, hs, sk, lim); r.Some? ==> |r.value| == ps.pkLen
  {
    hide ExpandA, TVector, SkDecode, PkEncode, T1All;
    DecodedReduced(ps, sk);
    var s := SkDecode(ps, sk);
    var A := ExpandA(ps, hs, s.rho, lim);
    if A.Some? {
      RhoLength(ps, sk);
      PkRoundTrip(ps, s.rho, T1All(TVector(ps, A.value, s.s1, s.s2)));
    }
  }

  lemma RhoLength(ps: Params, sk: Bytes)
    requires |sk| == ps.skLen
    ensures |SkDecode(ps, sk).rho| == 32
  {
    hide BitUnpackAll;
  }

  lemma VerifyInv(w: Setting, m: Fields)
    requires Inv(w, m) && m.st == SVER
    ensures Inv(w, DoVerify(w, m))
  {
    hide PkFromSk, SkOk, Verify;
  }

  /** What a signature in progress starts from. */
  ghost predicate SigningFrom(w: Setting, m: Fields) {
    && KeysFit(w, m) && m.st == SGEN && m.hasPriv && m.hasMu && m.ads.Some?
  }

  lemma StartedFits(w: Setting, m: Fields, draw: Option<Bytes>)
    requires Inv(w, m) && m.st == SGEN
    ensures var r := Started(w, m, draw);
            r.Some? ==> SigningFrom(w, r.value) && r.value.privkey == m.privkey && r.value.mu == m.mu
  {
    hide PkFromSk, SkOk, Cleared;
  }

  lemma InterruptedInv(w: Setting, m: Fields, done: nat)
    requires SigningFrom(w, m)
    ensures Inv(w, Interrupted(m, done))
  {
    hide PkFromSk, SkOk, Cleared;
  }

  lemma SignedInv(w: Setting, m: Fields, sig: Bytes)
    requires SigningFrom(w, m) && |sig| == w.ps.sigLen
    ensures Inv(w, To(m.(rnd := ZeroBytes(32), ads := None), FAILURE))
    ensures Inv(w, To(m.(signature := sig, rnd := ZeroBytes(32), ads := None), SOUT))
  {
    hide PkFromSk, SkOk, Cleared;
    PositiveSizes(w.ps);
  }

  lemma SignInv(w: Setting, m: Fields, halt: Option<nat>, draw: Option<Bytes>)
    requires Inv(w, m) && m.st == SGEN
    ensures Inv(w, DoSign(w, m, halt, draw))
  {
    hide KeysFit, ProgressFits, Inv, Sign, Cleared, Interrupted, To, Started;
    ClearedInv(w, m, true);
    StartedFits(w, m, draw);
    KeyIsSized(w, m);
    if Started(w, m, draw).Some? {
      var m1 := Started(w, m, draw).value;
      var done := if m1.ads.Some? then m1.ads.value else 0;
      if halt.Some? {
        InterruptedInv(w, m1, done + halt.value);
      }
      var r := Sign(w.ps, w.hs, m.privkey, m.mu, m1.rnd, w.lim);
      if r.Some? {
        SignatureShape(w.ps, w.hs, m.privkey, m.mu, m1.rnd, w.lim);
        SignedInv(w, m1, r.value.1);
      } else {
        SignedInv(w, m1, ZeroBytes(w.ps.sigLen));
      }
    }
  }

  lemma KeyIsSized(w: Setting, m: Fields)
    requires Inv(w, m)
    ensures Sized(w, m)
  {
    hide PkFromSk, SkOk, Cleared, ProgressFits;
  }

  lemma RestrictInv(w: Setting, m: Fields, policy: nat)
    requires Inv(w, m)
    ensures Inv(w, m.(policy := policy))
  {
    hide PkFromSk, SkOk;
  }

  lemma StepKeepsInv(w: Setting, m: Fields, i: Instr)
    requires Inv(w, m)
    ensures Inv(w, Step(w, m, i).m)
  {
    hide DoSetSt, DoLoad, DoEmit, DoGenerate, DoComputePk, DoVerify, DoSign, KeysFit, Inv, Cleared, ProgressFits;
    ClearedInv(w, m, true);
    KeyIsSized(w, m);
    KnownState(w, m);
    match i
    case SetSt(target, form, xs) => SetStInv(w, m, target, form, xs);
    case Exec(form, data, n, halt, draw) =>
      if Loading(m.st) {
        LoadInv(w, m, form, data);
      } else if m.st == PKOUT || m.st == SOUT {
        EmitInv(w, m, form, n);
      } else if m.st == GEN {
        GenerateInv(w, m, draw);
      } else if m.st == CPK {
        ComputePkInv(w, m);
      } else if m.st == SVER {
        VerifyInv(w, m);
      } else if m.st == SGEN {
        SignInv(w, m, halt, draw);
      }
    case Restrict(mask) => RestrictInv(w, m, And2(m.policy, mask));
  }

  lemma KnownState(w: Setting, m: Fields)
    requires Inv(w, m)
    ensures m.st == 0 || Defined(m.st) || m.st == SUCCESS || m.st == FAILURE
  {
    hide KeysFit, Cleared;
  }

  // ---------------------------------------------------------------- runs

  function After(w: Setting, m: Fields, instrs: seq<Instr>): (r: Fields)
    requires Inv(w, m)
    ensures Inv(w, r)
    decreases instrs
  {
    hide Inv, Step;
    if instrs == [] then m
    else
      KeyIsSized(w, m);
      StepKeepsInv(w, m, instrs[0]);
      After(w, Step(w, m, instrs[0]).m, instrs[1..])
  }

  /**
   Over every run from a provisioned locker: a private key that is present passed its range check, and a public key
   next to it is the one that the private key determines; an inert locker holds nothing; rnd is not kept past a
   signature.
   */
  lemma KeysBelongTogether(w: Setting, policy: nat, instrs: seq<Instr>)
    ensures Inv(w, Create(w, policy))
    ensures var m := After(w, Create(w, policy), instrs);
            (m.hasPriv ==> |m.privkey| == w.ps.skLen && SkOk(w.ps, m.privkey)) &&
            (m.hasPriv && m.hasPub ==> PkFromSk(w.ps, w.hs, m.privkey, w.lim) == Some(m.pubkey)) &&
            (m.st == 0 ==> m == Cleared(w, m, m.error)) &&
            (m.rnd != ZeroBytes(32) ==> m.st == SGEN && m.used != 0)
  {
    hide PkFromSk, SkOk, Cleared;
    CreateInv(w, policy);
  }

  // ---------------------------------------------------------------- an interrupted signature

  /** The whole signature for the rnd that the first instruction fixed. */
  function WholeSignature(w: Setting, m: Fields, rnd: Bytes): Option<(nat, Bytes)>
    requires Sized(w, m)
  {
    Sign(w.ps, w.hs, m.privkey, m.mu, rnd, w.lim)
  }

  /** The rnd of a signature that starts here, none when the generator fails. */
  function FixedRnd(m: Fields, draw: Option<Bytes>): Option<Bytes> {
    if m.hedged then draw else Some(ZeroBytes(32))
  }

  function Total(halts: seq<nat>): nat {
    if halts == [] then 0 else Total(halts[..|halts| - 1]) + halts[|halts| - 1]
  }

  /** kl.exec in Sign_Generate, interrupted after the given numbers of iterations, one instruction after the other. */
  function AfterHalts(w: Setting, m: Fields, halts: seq<nat>, draws: seq<Option<Bytes>>): (r: Fields)
    requires Inv(w, m) && |draws| == |halts|
    ensures Inv(w, r)
    decreases |halts|
  {
    hide Inv, DoExec;
    if halts == [] then m
    else
      var n := |halts| - 1;
      var m1 := AfterHalts(w, m, halts[..n], draws[..n]);
      KeyIsSized(w, m1);
      ExecKeepsInv(w, m1, FormD, [], 0, Some(halts[n]), draws[n]);
      DoExec(w, m1, FormD, [], 0, Some(halts[n]), draws[n]).m
  }

  lemma ExecKeepsInv(w: Setting, m: Fields, form: Form, data: Bytes, n: nat, halt: Option<nat>, draw: Option<Bytes>)
    requires Inv(w, m)
    ensures Sized(w, m) && Inv(w, DoExec(w, m, form, data, n, halt, draw).m)
  {
    hide Inv, DoExec;
    KeyIsSized(w, m);
    StepKeepsInv(w, m, Exec(form, data, n, halt, draw));
  }

  /** A locker about to sign. */
  ghost predicate ReadyToSign(w: Setting, m: Fields, draw: Option<Bytes>) {
    Inv(w, m) && m.st == SGEN && m.used == 0 && m.policy % 2 == 1 && FixedRnd(m, draw).Some?
  }

  /** The locker with done iterations behind it. */
  function InProgress(m: Fields, rnd: Bytes, done: nat): Fields {
    m.(rnd := rnd, ads := Some(done), used := done + 1)
  }

  /** One more exec, from the start or from an interruption; the random bits offered later are not used. */
  lemma SignStep(w: Setting, m: Fields, first: Option<Bytes>, m1: Fields, done: nat, halt: Option<nat>,
      draw: Option<Bytes>)
    requires ReadyToSign(w, m, first) && Sized(w, m)
    requires (m1 == m && done == 0 && draw == first) || m1 == InProgress(m, FixedRnd(m, first).value, done)
    ensures Sized(w, m1)
    ensures var rnd := FixedRnd(m, first).value;
            DoExec(w, m1, FormD, [], 0, halt, draw) ==
            Outcome(if halt.Some? && Unfinished(w, WholeSignature(w, m, rnd), done + halt.value)
                    then InProgress(m, rnd, done + halt.value) else Completed(m, WholeSignature(w, m, rnd)), [])
  {
    hide Sign, SkOk, PkFromSk, Cleared;
  }

  /**
   While the iterations done do not suffice, the locker holds exactly the rnd first fixed and a progress that grows.
   */
  lemma {:induction false} SeriesProgress(w: Setting, m: Fields, halts: seq<nat>, draws: seq<Option<Bytes>>)
    requires |draws| == |halts| > 0 && ReadyToSign(w, m, draws[0]) && Sized(w, m)
    requires Unfinished(w, WholeSignature(w, m, FixedRnd(m, draws[0]).value), Total(halts))
    ensures AfterHalts(w, m, halts, draws) == InProgress(m, FixedRnd(m, draws[0]).value, Total(halts))
    decreases |halts|
  {
    hide ReadyToSign, Inv, DoExec, WholeSignature, InProgress, FixedRnd;
    var n := |halts| - 1;
    if n == 0 {
      assert halts[..0] == [] && draws[..0] == [];
      ReadyInv(w, m, draws[0]);
      SignStep(w, m, draws[0], m, 0, Some(halts[0]), draws[0]);
    } else {
      ReadyInv(w, m, draws[0]);
      SeriesProgress(w, m, halts[..n], draws[..n]);
      SignStep(w, m, draws[0], AfterHalts(w, m, halts[..n], draws[..n]), Total(halts[..n]), Some(halts[n]), draws[n]);
    }
  }

  lemma ReadyInv(w: Setting, m: Fields, draw: Option<Bytes>)
    requires ReadyToSign(w, m, draw)
    ensures Inv(w, m) && FixedRnd(m, draw).Some?
  {
    hide Inv, FixedRnd;
  }

  /**
   The instruction that completes an interrupted series leaves the locker as one uninterrupted instruction would have.
   */
  lemma SeriesCompletes(w: Setting, m: Fields, halts: seq<nat>, draws: seq<Option<Bytes>>, halt: Option<nat>,
      draw: Option<Bytes>)
    requires |draws| == |halts| > 0 && ReadyToSign(w, m, draws[0]) && Sized(w, m)
    requires var whole := WholeSignature(w, m, FixedRnd(m, draws[0]).value);
             Unfinished(w, whole, Total(halts)) && (halt.Some? ==> !Unfinished(w, whole, Total(halts) + halt.value))
    ensures Inv(w, m) && Sized(w, AfterHalts(w, m, halts, draws))
    ensures DoExec(w, AfterHalts(w, m, halts, draws), FormD, [], 0, halt, draw) == DoExec(w, m, FormD, [], 0, None,
            draws[0])
  {
    hide ReadyToSign, Inv, WholeSignature, InProgress, FixedRnd, DoExec, Completed, Unfinished, AfterHalts, Total;
    ReadyInv(w, m, draws[0]);
    SeriesProgress(w, m, halts, draws);
    KeyIsSized(w, AfterHalts(w, m, halts, draws));
    SignStep(w, m, draws[0], AfterHalts(w, m, halts, draws), Total(halts), halt, draw);
    SignStep(w, m, draws[0], m, 0, None, draws[0]);
  }

  lemma {:induction false} PositiveHalts(halts: seq<nat>)
    requires forall i :: 0 <= i < |halts| ==> halts[i] > 0
    ensures Total(halts) >= |halts|
  {
    if halts != [] {
      PositiveHalts(halts[..|halts| - 1]);
    }
  }

  /** Positive halts make progress: a series that has not completed is no longer than the loop bound. */
  lemma SeriesEnds(w: Setting, m: Fields, rnd: Bytes, halts: seq<nat>)
    requires Sized(w, m) && Unfinished(w, WholeSignature(w, m, rnd), Total(halts))
    requires forall i :: 0 <= i < |halts| ==> halts[i] > 0
    ensures |halts| <= Total(halts) <= w.lim.sign
  {
    hide Sign;
    PositiveHalts(halts);
    if WholeSignature(w, m, rnd).Some? {
      SignatureShape(w.ps, w.hs, m.privkey, m.mu, rnd, w.lim);
    }
  }

  // ---------------------------------------------------------------- what a completed signature is worth

  /** With a generated key pair, a completed signature is accepted for the message representative that was signed. */
  lemma CompletedIsVerified(w: Setting, m: Fields, xi: Bytes, draw: Option<Bytes>)
    requires ReadyToSign(w, m, draw) && Sized(w, m) && KeyGen(w.ps, w.hs, xi, w.lim) == Some((m.pubkey, m.privkey))
    ensures var r := DoExec(w, m, FormD, [], 0, None, draw).m;
            r.st == SOUT || r.st == FAILURE
    ensures var r := DoExec(w, m, FormD, [], 0, None, draw).m;
            r.st == SOUT ==> Verify(w.ps, w.hs, m.pubkey, m.mu, r.signature, w.lim) == Some(true)
  {
    hide ReadyToSign, KeyGen, Sign, Verify, DoExec, FixedRnd, Inv;
    ReadyInv(w, m, draw);
    SignStep(w, m, draw, m, 0, None, draw);
    SignedIsVerified(w.ps, w.hs, xi, m.mu, FixedRnd(m, draw).value, w.lim);
  }

  // ---------------------------------------------------------------- export and import

  /** The locker imported from a snapshot of m, with or without the section that holds an interrupted signature. */
  function Reimported(w: Setting, m: Fields, content2: bool): Fields
    requires |m.privkey| == w.ps.skLen
  {
    var m1 := if content2 then m else m.(ads := None);
    if m1.hasPriv && !SkOk(w.ps, m1.privkey) then Invalid(w, m1)
    else if m1.st == SGEN && m1.used != 0 && m1.ads.None? then m1.(used := 0, rnd := ZeroBytes(32))
    else m1
  }

  /** A reachable locker comes back as it was; without the section only an interrupted signature is lost. */
  lemma ReimportRestores(w: Setting, policy: nat, instrs: seq<Instr>)
    ensures Inv(w, Create(w, policy))
    ensures var m := After(w, Create(w, policy), instrs);
            Reimported(w, m, true) == m &&
            Reimported(w, m, false) == (if m.st == SGEN then m.(used := 0, rnd := ZeroBytes(32), ads := None) else m)
  {
    hide PkFromSk, SkOk, Cleared;
    CreateInv(w, policy);
  }
}
