/**
 The EdDSA locker: keys, points and a context are loaded in pieces, a message is absorbed twice, and the signature is
 computed from what the two passes left.  `Step` is the transition function; the class in EddsaLocker changes its
 fields as the model's methods do and is proved to follow it.
 */
module EddsaMachine {
  import opened Wrappers
  import opened Modular
  import opened Digits
  import opened Streams

  // ---------------------------------------------------------------- the scheme

  datatype Kind = Ed25519 | Ed448

  datatype Point = Point(x: int, y: int)

  /** The neutral element. */
  const NEUTRAL: Point := Point(0, 1)

  /** The curve: points with their encoding, the base point and its order, and the hash. */
  datatype Curve = Curve(kind: Kind, L: nat, H: Bytes -> Bytes, enc: Point -> Bytes, dec: Bytes -> Option<Point>,
      base: Point,
                         mul: (nat, Point) -> Point, add: (Point, Point) -> Point)

  /** The bytes of a point or a scalar. */
  function Width(k: Kind): nat {
    if k == Ed25519 then 32 else 57
  }

  ghost predicate CurveOk(E: Curve) {
    E.L > 0 && (forall m :: |E.H(m)| == 2 * Width(E.kind)) && (forall p :: |E.enc(p)| == Width(E.kind))
  }

  /** A little-endian number. */
  function Le(b: Bytes): nat {
    if b == [] then 0 else b[0] as nat + 256 * Le(b[1..])
  }

  function ToLe(n: nat, len: nat): (b: Bytes)
    ensures |b| == len
  {
    if len == 0 then [] else [(n % 256) as byte] + ToLe(n / 256, len - 1)
  }

  function Zeros(n: nat): (b: Bytes)
    ensures |b| == n
  {
    seq(n, _ => 0)
  }

  function Ascii(s: string): Bytes
    requires forall i :: 0 <= i < |s| ==> s[i] < 128 as char
  {
    seq(|s|, i requires 0 <= i < |s| => s[i] as int as byte)
  }

  /** The prefix that separates plain, prehashed and contextual signatures. */
  function Dom(k: Kind, x: byte, ctx: Bytes): Bytes
    requires |ctx| <= 255
  {
    if k == Ed448 then Ascii("SigEd448") + [x, |ctx| as byte] + ctx
    else if x == 0 && ctx == [] then []
    else Ascii("SigEd25519 no Ed25519 collisions") + [x, |ctx| as byte] + ctx
  }

  /** The secret scalar's bytes with the bits of the cofactor and the top bits fixed. */
  function Clamped(k: Kind, a: Bytes): (r: Bytes)
    requires |a| == Width(k)
    ensures |r| == |a|
  {
    if k == Ed25519 then a[0 := a[0] - a[0] % 8][31 := a[31] % 64 + 64]
    else a[0 := a[0] - a[0] % 4][55 := a[55] % 128 + 128][56 := 0]
  }

  /** The secret scalar and the prefix of a seed. */
  function Expand(E: Curve, seed: Bytes): (nat, Bytes)
    requires CurveOk(E)
  {
    var h, w := E.H(seed), Width(E.kind);
    (Le(Clamped(E.kind, h[..w])), h[w..])
  }

  function PublicKey(E: Curve, seed: Bytes): (r: Bytes)
    requires CurveOk(E)
    ensures |r| == Width(E.kind)
  {
    E.enc(E.mul(Expand(E, seed).0, E.base))
  }

  function HashToScalar(E: Curve, m: Bytes): nat
    requires CurveOk(E)
  {
    Le(E.H(m)) % E.L
  }

  /** One-shot signing (RFC 8032 section 5.1.6); M is the message for x = 0 and its hash for x = 1. */
  function Sign(E: Curve, seed: Bytes, M: Bytes, x: byte, ctx: Bytes): (r: Bytes)
    requires CurveOk(E) && |ctx| <= 255
    ensures |r| == 2 * Width(E.kind)
  {
    var (s, prefix) := Expand(E, seed);
    var dom := Dom(E.kind, x, ctx);
    var r := HashToScalar(E, dom + prefix + M);
    var R := E.enc(E.mul(r, E.base));
    var k := HashToScalar(E, dom + R + PublicKey(E, seed) + M);
    R + ToLe((r + k * s) % E.L, Width(E.kind))
  }

  // ---------------------------------------------------------------- the locker

  const INVALID := -1
  const RDY := 1
  const SGEN := 2
  const SSCAL := 3
  const PMUL := 4
  const SGN := 5
  const SVER := 6
  const SHASH := 7
  const S2ND := 8
  const SIN := 9
  const OUT := 10
  const MABS := 11
  const SCTX := 12
  const SUCCESS := 54
  const FAILURE := 55

  /** The States in which a field is loaded. */
  predicate IsSet(st: int) {
    st == SGEN || st == SSCAL || st == SHASH || st == S2ND || st == SIN || st == SCTX
  }

  /** The loaded fields; ctx has room for 255 bytes. */
  datatype Store = Store(scalar: Bytes, second: Bytes, hash: Bytes, sig: Bytes, gen: Bytes, ctx: Bytes)

  datatype Flags = Flags(second: bool, sig: bool, hash: bool, rnd: bool)

  datatype Ed = Ed(st: int, policy: nat, aux: bool, ext: bool, f: Store, has: Flags, outType: nat, progress: bool,
      base: nat,
                   ctxLen: nat, msgPass: nat, r: nat, kp: nat, msg: Bytes, pass: nat, complete: bool)

  datatype Form = FormA | FormB | FormOther

  datatype Instr =
    | SetSt(target: int, form: Form, xs: nat, random: Option<nat>)
    | ExecIn(data: Bytes)
    | ExecD(halt: bool)
    | ExecOut(n: nat)
    | Restrict(policy: nat)
    | ClearAds
    | Clone
    | ImportGenerator(g: Bytes)
    | Derive

  datatype Outcome = Outcome(m: Ed, out: Bytes)

  predicate StoreOk(k: Kind, f: Store) {
    |f.scalar| == |f.second| == |f.gen| == Width(k) && |f.sig| == 2 * Width(k) && |f.hash| == 64 && |f.ctx| == 255
  }

  /** The size of what the current Set State loads. */
  function LoadSize(m: Ed): nat {
    if m.st == SCTX then m.ctxLen else |Loading(m)|
  }

  /** The field that the current Set State loads. */
  function Loading(m: Ed): Bytes {
    if m.st == SGEN then m.f.gen else if m.st == SSCAL then m.f.scalar else if m.st == SHASH then m.f.hash
    else if m.st == S2ND then m.f.second else if m.st == SIN then m.f.sig else m.f.ctx
  }

  function WithLoaded(f: Store, st: int, b: Bytes): Store {
    if st == SGEN then f.(gen := b) else if st == SSCAL then f.(scalar := b) else if st == SHASH then f.(hash := b)
    else if st == S2ND then f.(second := b) else if st == SIN then f.(sig := b) else f.(ctx := b)
  }

  /** What keeps the loads inside their fields. */
  predicate Ok(k: Kind, m: Ed) {
    StoreOk(k, m.f) && m.ctxLen <= 255 && (IsSet(m.st) && !m.complete ==> m.base <= LoadSize(m)) &&
    (m.st == OUT ==> m.base <= |OutBytes(m)|)
  }

  function Fail(m: Ed): Ed {
    m.(st := INVALID)
  }

  // ---------------------------------------------------------------- entering a State

  /** The forms with which a State may be named. */
  predicate FormOk(target: int, form: Form, xs: nat) {
    if form == FormA then target != SCTX && target != MABS
    else form == FormB &&
         (target == RDY || target == SGEN || target == SSCAL || target == MABS || (target == SCTX && xs != 0))
  }

  predicate SourceOk(st: int, target: int) {
    target == RDY || st == RDY || IsSet(st) || (st == MABS && (target == MABS || target == SGN || target == SVER))
  }

  /** The conditions for multiplying, signing and verifying. */
  predicate GateOk(m: Ed, target: int) {
    if target == PMUL then Le(m.f.scalar) != 0
    else if target == SGN then
      BitOf(m.policy, 0) && Le(m.f.scalar) != 0 && (m.msgPass == 2 || (m.msgPass == 0 && m.has.hash))
    else BitOf(m.policy, 1) && m.has.second && m.has.sig && (m.msgPass == 3 || (m.msgPass == 0 && m.has.hash))
  }

  /** Leaving Msg_Absorb: the pass is hashed; None when the second pass is not the message of the first. */
  function FinalizePass(E: Curve, m: Ed): Option<Ed>
    requires CurveOk(E) && Ok(E.kind, m)
  {
    var (s, prefix) := Expand(E, m.f.scalar);
    var dom, w := Dom(E.kind, 0, m.f.ctx[..m.ctxLen]), Width(E.kind);
    var m1 := m.(msg := [], has := m.has.(rnd := false));
    if m.pass == 0 then
      var r := HashToScalar(E, dom + prefix + m.msg);
      Some(m1.(r := r, f := m.f.(sig := E.enc(E.mul(r, E.base)) + Zeros(w)), has := m1.has.(sig := false),
          msgPass := 1))
    else if m.pass == 1 then
      if HashToScalar(E, dom + prefix + m.msg) != m.r then None
      else Some(m1.(kp := HashToScalar(E, dom + m.f.sig[..w] + PublicKey(E, m.f.scalar) + m.msg), msgPass := 2))
    else Some(m1.(kp := HashToScalar(E, dom + m.f.sig[..w] + m.f.second + m.msg)))
  }

  /** Leaving a Set State before its field is complete zeroes the field. */
  function AbandonLoad(m: Ed): Ed {
    if IsSet(m.st) && !m.complete then
      m.(f := WithLoaded(m.f, m.st, Zeros(|Loading(m)|)), ctxLen := if m.st == SCTX then 0
          else m.ctxLen, complete := true)
    else m.(complete := true)
  }

  /** The points as Form B of kl.setst to Ready asks for them: exchanged, defaulted, cleared. */
  function OptionPoints(f: Store, second: bool, xs: nat, gen0: Bytes): Store {
    var second1 := if BitOf(xs, 4) then f.gen else f.second;
    f.(second := if BitOf(xs, 1) then Zeros(|f.second|) else second1,
       gen := if BitOf(xs, 0) then gen0 else if BitOf(xs, 5) && second then f.second else f.gen)
  }

  function ClearedIf(b: Bytes, c: bool): (r: Bytes)
    ensures |r| == |b|
  {
    if c then Zeros(|b|) else b
  }

  /** The other fields, cleared as asked for. */
  function OptionClears(f: Store, xs: nat): Store {
    f.(scalar := ClearedIf(f.scalar, BitOf(xs, 2)), hash := ClearedIf(f.hash, BitOf(xs, 3)), sig := ClearedIf(f.sig,
        BitOf(xs,
        6)))
  }

  function OptionFlags(h: Flags, xs: nat): Flags {
    Flags((h.second || BitOf(xs, 4)) && !BitOf(xs, 1), h.sig && !BitOf(xs, 6), h.hash && !BitOf(xs, 3), h.rnd)
  }

  /** What Form B of kl.setst to Ready asks for, bit by bit. */
  function ReadyOptions(m: Ed, xs: nat, gen0: Bytes): Option<Ed> {
    if xs >= 128 || (BitOf(xs, 5) && m.has.second && m.ext) then None
    else Some(m.(f := OptionClears(OptionPoints(m.f, m.has.second, xs, gen0), xs), has := OptionFlags(m.has, xs)))
  }

  function ToReady(m: Ed, form: Form, xs: nat, gen0: Bytes): Ed {
    match (if form == FormB then ReadyOptions(m, xs, gen0) else Some(m))
    case None => Fail(m)
    case Some(m1) => m1.(st := RDY, msgPass := 0, r := 0, kp := 0, f := m1.f.(ctx := Zeros(|m1.f.ctx|)), ctxLen := 0,
        msg := [])
  }

  /** A random scalar; None is a failure of the random bit generator. */
  function RandomKey(m: Ed, random: Option<nat>, w: nat): Ed {
    match random
    case None => Fail(m)
    case Some(c) =>
      var b := ToLe(c, w);
      m.(f := m.f.(scalar := if Le(b) == 0 && w > 0 then b[0 := 1] else b), base := w, complete := true)
  }

  /** Starting a pass over the message. */
  function EnterPass(m: Ed, xs: nat): Ed {
    var m1 := m.(st := MABS, pass := xs, msg := [], has := m.has.(rnd := true));
    if !m.aux then Fail(m)
    else if xs == 0 then
      if BitOf(m.policy, 0) && Le(m.f.scalar) != 0 then m1.(msgPass := 0, kp := 0) else Fail(m)
    else if xs == 1 then (if m.msgPass == 1 then m1 else Fail(m))
    else if xs == 2 then
      if BitOf(m.policy, 1) && m.has.sig && m.has.second then m1.(msgPass := 3, kp := 0) else Fail(m)
    else Fail(m)
  }

  /** The new State itself, once the old one has been left. */
  function Enter(m0: Ed, target: int, form: Form, xs: nat, random: Option<nat>, gen0: Bytes): Ed {
    var m, w := m0.(st := target), |m0.f.gen|;
    if target == SGEN then
      if m.ext && form == FormB && xs != 0 then Fail(m)
      else if form == FormA || xs == 0 then m.(f := m.f.(gen := gen0), base := w)
      else m.(f := m.f.(gen := Zeros(w)), complete := false)
    else if target == SSCAL then
      if form == FormB && xs != 0 then RandomKey(m.(f := m.f.(scalar := Zeros(|m.f.scalar|))), random, |m.f.scalar|)
      else m.(f := m.f.(scalar := Zeros(|m.f.scalar|)), complete := false)
    else if target == SHASH then m.(f := m.f.(hash := Zeros(|m.f.hash|)), has := m.has.(hash := false),
        complete := false)
    else if target == S2ND then m.(f := m.f.(second := Zeros(|m.f.second|)), has := m.has.(second := false),
        complete := false)
    else if target == SIN then m.(f := m.f.(sig := Zeros(|m.f.sig|)), has := m.has.(sig := false), complete := false)
    else if target == SCTX then
      if xs > 255 then Fail(m) else m.(f := m.f.(ctx := Zeros(|m.f.ctx|)), ctxLen := xs, complete := xs == 0)
    else if target == MABS then EnterPass(m0, xs)
    else m.(complete := true)
  }

  /** Leaving the current State for target: the pass is hashed, or an incomplete load is dropped. */
  function Leave(E: Curve, m: Ed, target: int): Option<Ed>
    requires CurveOk(E) && Ok(E.kind, m)
  {
    var left := if m.st == MABS && target != RDY then FinalizePass(E, m)
        else if m.st == MABS then Some(m.(msg := [])) else Some(m);
    match left
    case None => None
    case Some(m1) =>
      var m2 := AbandonLoad(m1).(progress := false, base := 0);
      Some(if m.st == MABS then m2.(has := m2.has.(rnd := false)) else m2)
  }

  /** The new State, if the locker meets its conditions. */
  function Arrive(m: Ed, target: int, form: Form, xs: nat, random: Option<nat>, gen0: Bytes): Ed {
    if (target == PMUL || target == SGN || target == SVER) && !GateOk(m, target) then Fail(m)
    else if target == SIN && !BitOf(m.policy, 1) then Fail(m)
    else if target == RDY then ToReady(m, form, xs, gen0)
    else Enter(m, target, form, if form == FormA then 0 else xs, random, gen0)
  }

  /** kl.clear (target 0) is not part of the model. */
  function DoSetSt(E: Curve, m: Ed, target: int, form: Form, xs: nat, random: Option<nat>): Ed
    requires CurveOk(E) && Ok(E.kind, m)
  {
    var gen0 := E.enc(E.base);
    if target == 0 then m
    else if !(RDY <= target <= SCTX) || target == OUT || !FormOk(target, form, xs) ||
        !SourceOk(m.st, target) then Fail(m)
    else
      match Leave(E, m, target)
      case None => Fail(m)
      case Some(m1) => Arrive(m1, target, form, xs, random, gen0)
  }

  // ---------------------------------------------------------------- working in a State

  /** The field with the data written from at on. */
  function Written(b: Bytes, at: nat, data: Bytes): (r: Bytes)
    requires at + |data| <= |b|
    ensures |r| == |b|
  {
    b[..at] + data + b[at + |data|..]
  }

  /** The next piece of a load; what is too much of the last piece is ignored. */
  function Load(m: Ed, data: Bytes): Ed
    requires IsSet(m.st) && !m.complete && m.base <= LoadSize(m) <= |Loading(m)|
  {
    var n := Min(|data|, LoadSize(m) - m.base);
    var m1 := m.(f := WithLoaded(m.f, m.st, Written(Loading(m), m.base, data[..n])), base := m.base + n);
    if m.base + n != LoadSize(m) then m1
    else
      m1.(complete := true, has := m.has.(hash := m.has.hash || m.st == SHASH, second := m.has.second || m.st == S2ND,
                                          sig := m.has.sig || m.st == SIN))
  }

  function DoExecIn(k: Kind, m: Ed, data: Bytes): Ed
    requires Ok(k, m)
  {
    if m.st == MABS then m.(msg := m.msg + data) else if !IsSet(m.st) || m.complete then Fail(m) else Load(m, data)
  }

  /** The result is handed out from its beginning. */
  function ToOutput(m: Ed, outType: nat): Ed {
    m.(outType := outType, st := OUT, base := 0, progress := false)
  }

  function DoMultiply(E: Curve, m: Ed, halt: bool): Ed
    requires CurveOk(E)
  {
    if m.ext && m.has.second then Fail(m)
    else
      var p := E.dec(if m.has.second then m.f.second else m.f.gen);
      if p.None? || p.value == NEUTRAL || E.mul(E.L, p.value) != NEUTRAL then m.(st := FAILURE)
      else if halt then m.(progress := true)
      else
        ToOutput(m.(f := m.f.(second := E.enc(E.mul(Expand(E, m.f.scalar).0, p.value))), has := m.has.(second := true)),
                 if m.has.second then 2 else 0)
  }

  function SignatureOf(E: Curve, m: Ed): Bytes
    requires CurveOk(E) && Ok(E.kind, m)
  {
    var s, w := Expand(E, m.f.scalar).0, Width(E.kind);
    if m.msgPass == 2 then m.f.sig[..w] + ToLe((m.r + m.kp * s) % E.L, w)
    else Sign(E, m.f.scalar, m.f.hash, 1, m.f.ctx[..m.ctxLen])
  }

  function DoSign(E: Curve, m: Ed, halt: bool): Ed
    requires CurveOk(E) && Ok(E.kind, m)
  {
    if halt then m.(progress := true)
    else
      ToOutput(m.(f := m.f.(sig := SignatureOf(E, m)), has := m.has.(sig := true), r := 0, kp := 0, msgPass := 0,
          msg := []), 1)
  }

  /** The group equation, times the cofactor. */
  predicate Verifies(E: Curve, A: Bytes, sig: Bytes, k: nat)
    requires |sig| == 2 * Width(E.kind)
  {
    var w, c := Width(E.kind), if E.kind == Ed25519 then 8 else 4;
    var a, r, S := E.dec(A), E.dec(sig[..w]), Le(sig[w..]);
    a.Some? && r.Some? && S < E.L &&
    E.mul(c * S, E.base) == E.add(E.mul(c, r.value), E.mul(c * k, a.value))
  }

  function DoVerify(E: Curve, m: Ed, halt: bool): Ed
    requires CurveOk(E) && Ok(E.kind, m)
  {
    if halt then m.(progress := true)
    else
      var w := Width(E.kind);
      var k := if m.msgPass == 3 then m.kp
               else HashToScalar(E, Dom(E.kind, 1, m.f.ctx[..m.ctxLen]) + m.f.sig[..w] + m.f.second + m.f.hash);
      m.(kp := 0, progress := false, st := if Verifies(E, m.f.second, m.f.sig, k) then SUCCESS else FAILURE)
  }

  function DoExecD(E: Curve, m: Ed, halt: bool): Ed
    requires CurveOk(E) && Ok(E.kind, m)
  {
    if m.st == PMUL then DoMultiply(E, m, halt)
    else if m.st == SGN then DoSign(E, m, halt)
    else if m.st == SVER then DoVerify(E, m, halt)
    else Fail(m)
  }

  function OutBytes(m: Ed): Bytes {
    if m.outType == 1 then m.f.sig else m.f.second
  }

  function DoExecOut(m: Ed, n: nat): Outcome {
    var o := OutBytes(m);
    if m.st != OUT || m.base + n > |o| then Outcome(Fail(m), [])
    else Outcome(m.(base := m.base + n, st := if m.base + n == |o| then SUCCESS else OUT), o[m.base..m.base + n])
  }

  /** Narrowing MachinePolicy; it never becomes zero. */
  function DoRestrict(m: Ed, policy: nat): Ed {
    if policy == 0 || (BitOf(policy, 0) && !BitOf(m.policy, 0)) || (BitOf(policy, 1) && !BitOf(m.policy, 1)) ||
        policy >= 4 then Fail(m)
    else if BitOf(policy, 0) then m.(policy := policy)
    else m.(policy := policy, progress := false, has := if m.st == MABS then m.has else m.has.(rnd := false))
  }

  function DoImportGenerator(E: Curve, m: Ed, g: Bytes): Ed {
    if (m.ext && g != E.enc(E.base)) || |g| != Width(E.kind) then Fail(m) else m.(f := m.f.(gen := g))
  }

  /** A shared secret leaves before any of it was handed out, or not at all. */
  function DoDerive(m: Ed): Outcome {
    if m.st == OUT && m.outType == 2 && m.base == 0 then Outcome(m.(st := SUCCESS), m.f.second)
        else Outcome(Fail(m), [])
  }

  function Step(E: Curve, m: Ed, i: Instr): Outcome
    requires CurveOk(E) && Ok(E.kind, m)
  {
    if m.st == INVALID then Outcome(m, [])
    else
      match i
      case SetSt(target, form, xs, random) => Outcome(DoSetSt(E, m, target, form, xs, random), [])
      case ExecIn(data) => Outcome(DoExecIn(E.kind, m, data), [])
      case ExecD(halt) => Outcome(DoExecD(E, m, halt), [])
      case ExecOut(n) => DoExecOut(m, n)
      case Restrict(policy) => Outcome(DoRestrict(m, policy), [])
      case ClearAds => Outcome(m.(progress := false), [])
      case Clone => Outcome(m.(progress := false), [])
      case ImportGenerator(g) => Outcome(DoImportGenerator(E, m, g), [])
      case Derive => DoDerive(m)
  }

  /** A provisioned locker: the default generator, nothing loaded. */
  function Create(E: Curve, policy: nat, aux: bool, ext: bool): (m: Ed)
    requires CurveOk(E) && 0 < policy < 4
    ensures Ok(E.kind, m)
  {
    var w := Width(E.kind);
    Ed(RDY, policy, aux, ext, Store(Zeros(w), Zeros(w), Zeros(64), Zeros(2 * w), E.enc(E.base), Zeros(255)),
       Flags(false, false, false, false), 0, false, 0, 0, 0, 0, 0, [], 0, true)
  }

  // ---------------------------------------------------------------- bounds

  lemma FailOk(k: Kind, m: Ed)
    requires StoreOk(k, m.f) && m.ctxLen <= 255
    ensures Ok(k, Fail(m))
  {
  }

  lemma LoadOk(k: Kind, m: Ed, data: Bytes)
    requires Ok(k, m) && IsSet(m.st) && !m.complete
    ensures Ok(k, Load(m, data)) && Load(m, data).st == m.st
    ensures var m' := Load(m, data); m'.msgPass == m.msgPass && m'.policy == m.policy && m'.st == m.st
  {
    hide Written;
  }

  lemma ReadyOk(k: Kind, m: Ed, form: Form, xs: nat, gen0: Bytes)
    requires StoreOk(k, m.f) && m.ctxLen <= 255 && |gen0| == Width(k)
    ensures var m' := ToReady(m, form, xs, gen0);
            Ok(k, m') && m'.policy == m.policy && (m'.st == INVALID || (m'.st == RDY && m'.msgPass == 0))
  {
    hide BitOf;
  }

  lemma PassOk(k: Kind, m: Ed, xs: nat)
    requires StoreOk(k, m.f) && m.ctxLen <= 255
    ensures Ok(k, EnterPass(m, xs))
  {
    hide BitOf, Le;
  }

  lemma EnterKeyOk(k: Kind, m: Ed, target: int, form: Form, xs: nat, random: Option<nat>, gen0: Bytes)
    requires StoreOk(k, m.f) && m.ctxLen <= 255 && m.complete && |gen0| == Width(k) && m.base == 0
    requires target == SGEN || target == SSCAL
    ensures Ok(k, Enter(m, target, form, xs, random, gen0))
  {
    hide EnterPass, ToLe, Le;
  }

  lemma EnterOk(k: Kind, m: Ed, target: int, form: Form, xs: nat, random: Option<nat>, gen0: Bytes)
    requires StoreOk(k, m.f) && m.ctxLen <= 255 && m.complete && |gen0| == Width(k) && m.base == 0
    requires RDY < target <= SCTX && target != OUT
    ensures Ok(k, Enter(m, target, form, xs, random, gen0))
  {
    hide EnterPass, RandomKey;
    if target == SGEN || target == SSCAL {
      EnterKeyOk(k, m, target, form, xs, random, gen0);
    } else if target == MABS {
      PassOk(k, m, xs);
    }
  }

  lemma LeaveOk(E: Curve, m: Ed, target: int)
    requires CurveOk(E) && Ok(E.kind, m) && Leave(E, m, target).Some?
    ensures var m1 := Leave(E, m, target).value;
            StoreOk(E.kind, m1.f) && m1.ctxLen <= 255 && m1.complete && m1.base == 0 && m1.policy == m.policy &&
            m1.aux == m.aux && m1.ext == m.ext
  {
    hide HashToScalar, Expand, Dom, PublicKey, FinalizePass;
    FinalizeOk(E, m);
  }

  lemma FinalizeOk(E: Curve, m: Ed)
    requires CurveOk(E) && Ok(E.kind, m)
    ensures var l := FinalizePass(E, m);
            l.Some? ==> StoreOk(E.kind, l.value.f) && l.value.ctxLen == m.ctxLen && l.value.complete == m.complete &&
                        l.value.policy == m.policy && l.value.aux == m.aux && l.value.ext == m.ext && l.value.st == m.st
  {
    hide HashToScalar, Expand, Dom, PublicKey;
  }

  lemma ArriveOk(k: Kind, m: Ed, target: int, form: Form, xs: nat, random: Option<nat>, gen0: Bytes)
    requires StoreOk(k, m.f) && m.ctxLen <= 255 && m.complete && |gen0| == Width(k) && m.base == 0
    requires RDY <= target <= SCTX && target != OUT
    ensures Ok(k, Arrive(m, target, form, xs, random, gen0))
  {
    hide Ok, ToReady, Enter, GateOk, BitOf;
    FailOk(k, m);
    ReadyOk(k, m, form, xs, gen0);
    if target != RDY {
      EnterOk(k, m, target, form, if form == FormA then 0 else xs, random, gen0);
    }
  }

  lemma SetStOk(E: Curve, m: Ed, target: int, form: Form, xs: nat, random: Option<nat>)
    requires CurveOk(E) && Ok(E.kind, m)
    ensures Ok(E.kind, DoSetSt(E, m, target, form, xs, random))
  {
    hide Leave, Arrive, FormOk, SourceOk;
    FailOk(E.kind, m);
    if Leave(E, m, target).Some? && RDY <= target <= SCTX && target != OUT {
      LeaveOk(E, m, target);
      ArriveOk(E.kind, Leave(E, m, target).value, target, form, xs, random, E.enc(E.base));
    }
  }

  lemma StepOk(E: Curve, m: Ed, i: Instr)
    requires CurveOk(E) && Ok(E.kind, m)
    ensures Ok(E.kind, Step(E, m, i).m)
  {
    hide DoSetSt, DoExecD, DoExecIn, DoExecOut, DoRestrict, DoImportGenerator, DoDerive;
    match i
    case SetSt(target, form, xs, random) => SetStOk(E, m, target, form, xs, random);
    case ExecIn(data) => ExecInOk(E.kind, m, data);
    case ExecD(halt) => ExecDOk(E, m, halt);
    case ExecOut(n) => ExecOutOk(E.kind, m, n);
    case Restrict(policy) => RestrictOk(E.kind, m, policy);
    case ClearAds => ClearAdsOk(E.kind, m);
    case Clone => ClearAdsOk(E.kind, m);
    case ImportGenerator(g) => GeneratorOk(E, m, g);
    case Derive => ExecOutOk(E.kind, m, 0);
  }

  lemma ExecOutOk(k: Kind, m: Ed, n: nat)
    requires Ok(k, m)
    ensures Ok(k, DoExecOut(m, n).m) && Ok(k, DoDerive(m).m)
  {
  }

  lemma RestrictOk(k: Kind, m: Ed, policy: nat)
    requires Ok(k, m)
    ensures Ok(k, DoRestrict(m, policy))
  {
    hide BitOf;
  }

  lemma ClearAdsOk(k: Kind, m: Ed)
    requires Ok(k, m)
    ensures Ok(k, m.(progress := false))
  {
  }

  lemma GeneratorOk(E: Curve, m: Ed, g: Bytes)
    requires Ok(E.kind, m)
    ensures Ok(E.kind, DoImportGenerator(E, m, g))
  {
  }

  lemma ExecInOk(k: Kind, m: Ed, data: Bytes)
    requires Ok(k, m)
    ensures Ok(k, DoExecIn(k, m, data))
  {
    hide Load;
    if IsSet(m.st) && !m.complete {
      LoadOk(k, m, data);
    }
  }

  lemma ExecDOk(E: Curve, m: Ed, halt: bool)
    requires CurveOk(E) && Ok(E.kind, m)
    ensures Ok(E.kind, DoExecD(E, m, halt))
  {
    hide DoMultiply, DoSign, DoVerify;
    if m.st == PMUL {
      MultiplyOk(E, m, halt);
    } else if m.st == SGN {
      SignOk(E, m, halt);
    } else if m.st == SVER {
      VerifyOk(E, m, halt);
    }
  }

  lemma MultiplyOk(E: Curve, m: Ed, halt: bool)
    requires CurveOk(E) && Ok(E.kind, m) && m.st == PMUL
    ensures Ok(E.kind, DoMultiply(E, m, halt))
  {
    hide Expand;
  }

  lemma SignOk(E: Curve, m: Ed, halt: bool)
    requires CurveOk(E) && Ok(E.kind, m) && m.st == SGN
    ensures Ok(E.kind, DoSign(E, m, halt))
  {
    hide SignatureOf;
    SignatureSize(E, m);
  }

  lemma SignatureSize(E: Curve, m: Ed)
    requires CurveOk(E) && Ok(E.kind, m)
    ensures |SignatureOf(E, m)| == 2 * Width(E.kind)
  {
    hide Expand, ToLe, Sign;
  }

  lemma VerifyOk(E: Curve, m: Ed, halt: bool)
    requires CurveOk(E) && Ok(E.kind, m) && m.st == SVER
    ensures Ok(E.kind, DoVerify(E, m, halt))
  {
    hide Verifies, HashToScalar, Dom;
  }
}
