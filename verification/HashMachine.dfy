/**
 The hash Machines: SHA-2 and SM3 (iterated compression), BLAKE2 (the last block is held back), SHA-3 and SHAKE
 (sponge), and HMAC over the first and the last.  A message is absorbed in transfers that may be interrupted, ended by
 a final piece, finalized, and read out.  Compression functions and permutations are arbitrary functions.
 */
module HashMachine {
  import opened Wrappers
  import opened Modular
  import opened BitStrings

  /** w: word size in bits; t: bits of one read from the state; D: the domain separation bits of a sponge. */
  datatype Fn =
    | Md(C: (Bits, Bits) -> Bits, iv: Bits, w: nat, t: nat)
    | Blake(F: (Bits, Bits, nat, bool) -> Bits, ivOf: (nat, nat) -> Bits, w: nat)
    | Sponge(P: Bits -> Bits, rate: nat, D: Bits, t: nat, xof: bool)

  predicate FnOk(f: Fn) {
    match f
    case Md(_, iv, w, t) => (w == 32 || w == 64) && |iv| == 8 * w && t % 8 == 0 && 64 <= t <= 8 * w
    case Blake(_, _, w) => w == 32 || w == 64
    case Sponge(_, rate, D, t, xof) =>
      rate % 8 == 0 && 64 <= rate <= 1600 && 2 <= |D| <= 4 && t % 8 == 0 && 64 <= t <= rate && (xof ==> t == rate)
  }

  /** Bits of a block. */
  function B(f: Fn): (b: nat)
    requires FnOk(f)
    ensures b % 8 == 0 && b >= 64
  {
    if f.Sponge? then f.rate else 16 * f.w
  }

  function StateLen(f: Fn): (n: nat) {
    if f.Sponge? then 1600 else 8 * f.w
  }

  /** Bits that can be read before the state changes. */
  function T(f: Fn): (t: nat)
    requires FnOk(f)
    ensures t % 8 == 0 && 64 <= t <= StateLen(f)
  {
    if f.Blake? then 8 * f.w else f.t
  }

  function IsXof(f: Fn): bool {
    f.Sponge? && f.xof
  }

  function Iv(f: Fn, kk: nat, nn: nat): (s: Bits)
    requires FnOk(f)
    ensures |s| == StateLen(f)
  {
    match f
    case Md(_, iv, _, _) => iv
    case Blake(_, ivOf, w) => Slice(ivOf(kk, nn), 0, 8 * w)
    case Sponge(_, _, _, _, _) => Zeros(1600)
  }

  // ---------------------------------------------------------------- absorbing

  /** The state, the block being filled, how far it is filled, and the bits counted. */
  datatype Core = Core(S: Bits, blk: Bits, bb: nat, cum: nat)

  ghost predicate CoreOk(f: Fn, c: Core) {
    FnOk(f) && |c.S| == StateLen(f) && |c.blk| == B(f) && c.bb <= B(f) && (!f.Blake? ==> c.bb < B(f))
  }

  /** _comp on the block in place. */
  function Compressed(f: Fn, c: Core, final: bool): (s: Bits)
    requires FnOk(f)
    ensures |s| == StateLen(f)
  {
    match f
    case Md(C, _, w, _) => Slice(C(c.S, c.blk), 0, 8 * w)
    case Blake(F, _, w) => Slice(F(c.S, c.blk, c.cum / 8, final), 0, 8 * w)
    case Sponge(P, _, _, _, _) => Slice(P(c.S), 0, 1600)
  }

  /** x at position at of a value of n bits. */
  function PlacedIn(n: nat, x: Bits, at: nat): (r: Bits)
    requires at + |x| <= n
    ensures |r| == n
  {
    Zeros(at) + x + Zeros(n - at - |x|)
  }

  /** A held block is compressed once more data follows. */
  function Released(f: Fn, c: Core): (r: Core)
    requires CoreOk(f, c)
    ensures CoreOk(f, r) && r.bb < B(f)
  {
    if f.Blake? && c.bb == B(f) then c.(S := Compressed(f, c, false), bb := 0) else c
  }

  /** A piece that fits the block. */
  function Put(f: Fn, c: Core, x: Bits, count: bool): (r: Core)
    requires CoreOk(f, c) && c.bb + |x| <= B(f)
    ensures CoreOk(f, r)
  {
    var c1 := if f.Sponge? then c.(S := Xor(c.S, PlacedIn(1600, x, c.bb)))
              else c.(blk := c.blk[..c.bb] + x + c.blk[c.bb + |x|..]);
    var c2 := c1.(bb := c.bb + |x|, cum := if count then c.cum + |x| else c.cum);
    if c2.bb == B(f) && !f.Blake? then c2.(S := Compressed(f, c2, false), bb := 0) else c2
  }

  /** The loop from bit ib on: the new core, and where it stopped, short of kl when it was interrupted. */
  function Vli(f: Fn, c: Core, X: Bits, ib: nat, kl: nat, count: bool, halt: bool): (r: (Core, nat))
    requires CoreOk(f, c)
    ensures CoreOk(f, r.0)
    decreases kl - ib
  {
    if ib >= kl then (c, ib)
    else
      var c1 := Released(f, c);
      var a := Min(kl - ib, B(f) - c1.bb);
      var c2 := Put(f, c1, Slice(X, ib, a), count);
      if halt && ib + a < kl then (c2, ib + a) else Vli(f, c2, X, ib + a, kl, count, halt)
  }

  /** The key block of a keyed BLAKE2 goes first. */
  function Keyed(f: Fn, sk: Option<Bits>, c: Core): (r: Core)
    requires CoreOk(f, c) && (sk.Some? ==> f.Blake? && |sk.value| == B(f))
    ensures CoreOk(f, r)
  {
    if sk.Some? && c.cum == 0 then
      var c1 := c.(blk := sk.value, cum := B(f));
      c1.(S := Compressed(f, c1, false), blk := Zeros(B(f)))
    else c
  }

  // ---------------------------------------------------------------- finalizing

  /** data is absorbed without being counted. */
  function PutAll(f: Fn, c: Core, data: Bits): (r: Core)
    requires CoreOk(f, c)
    ensures CoreOk(f, r)
  {
    Vli(f, c, data, 0, |data|, false, false).0
  }

  function ZeroByte(): (z: Bits)
    ensures |z| == 8
  {
    Zeros(8)
  }

  function Byte80(): (z: Bits)
    ensures |z| == 8
  {
    Zeros(7) + [true]
  }

  /** Zero bytes up to the place of the length. */
  function Filled(f: Fn, c: Core): (r: Core)
    requires CoreOk(f, c) && f.Md? && c.bb % 8 == 0
    ensures CoreOk(f, r) && r.bb == B(f) - 2 * f.w
    decreases if c.bb <= B(f) - 2 * f.w then B(f) - 2 * f.w - c.bb else 2 * B(f) - 2 * f.w - c.bb
  {
    if c.bb == B(f) - 2 * f.w then c
    else
      ZeroStep(f, c);
      Filled(f, PutAll(f, c, ZeroByte()))
  }

  lemma ZeroStep(f: Fn, c: Core)
    requires CoreOk(f, c) && f.Md? && c.bb % 8 == 0
    ensures PutAll(f, c, ZeroByte()).bb == if c.bb + 8 == B(f) then 0 else c.bb + 8
  {
    hide Compressed;
    var c2 := Put(f, c, Slice(ZeroByte(), 0, 8), false);
    assert Vli(f, c, ZeroByte(), 0, 8, false, false) == Vli(f, c2, ZeroByte(), 8, 8, false, false);
  }

  function FinalMd(f: Fn, c: Core, ell: nat): (r: Core)
    requires CoreOk(f, c) && f.Md? && c.bb % 8 == 0
    ensures CoreOk(f, r)
  {
    var c1 := if c.cum % 8 == 0 then PutAll(f, c, Byte80()) else c;
    BytesPut(f, c);
    PutAll(f, Filled(f, c1), ByteSwap(FromNat(ell, 2 * f.w)))
  }

  lemma BytesPut(f: Fn, c: Core)
    requires CoreOk(f, c) && f.Md? && c.bb % 8 == 0
    ensures PutAll(f, c, Byte80()).bb % 8 == 0
  {
    hide Compressed;
    var c2 := Put(f, c, Slice(Byte80(), 0, 8), false);
    assert Vli(f, c, Byte80(), 0, 8, false, false) == Vli(f, c2, Byte80(), 8, 8, false, false);
  }

  /** None when there is nothing to finalize: a key was announced but never absorbed. */
  function FinalBlake(f: Fn, sk: Option<Bits>, kk: nat, c: Core): (r: Option<Core>)
    requires CoreOk(f, c) && f.Blake? && (sk.Some? ==> |sk.value| == B(f))
    ensures r.Some? ==> CoreOk(f, r.value)
  {
    if c.bb > 0 then
      var c1 := c.(blk := c.blk[..c.bb] + Zeros(B(f) - c.bb));
      Some(c1.(S := Compressed(f, c1, true), bb := 0))
    else if sk.Some? then
      var c1 := c.(blk := sk.value, cum := B(f));
      Some(c1.(S := Compressed(f, c1, true), blk := Zeros(B(f)), bb := 0))
    else if kk == 0 then
      var c1 := c.(blk := Zeros(B(f)));
      Some(c1.(S := Compressed(f, c1, true), bb := 0))
    else None
  }

  /** Length of the domain bits and pad10*1 that complete the current block, or the next one. */
  function PadLen(f: Fn, bb: nat): (n: nat)
    requires FnOk(f) && f.Sponge? && bb < f.rate
    ensures n == if bb + |f.D| + 2 <= f.rate then f.rate - bb else 2 * f.rate - bb
  {
    PadFrom(f, bb, |f.D| + 2)
  }

  function PadFrom(f: Fn, bb: nat, n: nat): (r: nat)
    requires FnOk(f) && f.Sponge? && bb < f.rate && |f.D| + 2 <= n
    requires n <= if bb + |f.D| + 2 <= f.rate then f.rate - bb else 2 * f.rate - bb
    ensures r == if bb + |f.D| + 2 <= f.rate then f.rate - bb else 2 * f.rate - bb
    decreases 2 * f.rate - n
  {
    if (bb + n) % f.rate == 0 then MultipleBelow(bb + n, f.rate); n else Multiples(f.rate); PadFrom(f, bb, n + 1)
  }

  lemma MultipleBelow(x: nat, r: nat)
    requires r > 0 && x % r == 0 && 0 < x <= 2 * r
    ensures x == r || x == 2 * r
  {
    var k := x / r;
    assert x == k * r;
    if k == 0 {
      assert false;
    } else if k >= 3 {
      MulMono(3, k, r);
      assert false;
    }
  }

  lemma Multiples(r: nat)
    requires r > 0
    ensures r % r == 0 && (2 * r) % r == 0
  {
    DivModUnique(r, r, 1, 0);
    DivModUnique(2 * r, r, 2, 0);
  }

  /** The domain bits, a one, zeros and a last one. */
  function Padding(f: Fn, bb: nat): (p: Bits)
    requires FnOk(f) && f.Sponge? && bb < f.rate
    ensures |p| == PadLen(f, bb)
  {
    f.D + [true] + Zeros(PadLen(f, bb) - |f.D| - 2) + [true]
  }

  function FinalSponge(f: Fn, c: Core): (r: Core)
    requires CoreOk(f, c) && f.Sponge?
    ensures CoreOk(f, r)
  {
    var p, room := Padding(f, c.bb), f.rate - c.bb;
    var c1 := c.(S := Xor(c.S, PlacedIn(1600, p[..room], c.bb)));
    var c2 := c1.(S := Compressed(f, c1, false), bb := 0);
    if |p| > room then
      var c3 := c2.(S := Xor(c2.S, PlacedIn(1600, p[room..], 0)));
      c3.(S := Compressed(f, c3, false))
    else c2
  }

  // ---------------------------------------------------------------- the locker

  datatype St = Ready | Absorb | Last | Output | OutBits | Verify | Success | Failure | Invalid

  datatype Form = FormA | FormB | FormC

  /** Provisioned: the function, the HMAC key block, and the key of a keyed BLAKE2. */
  datatype Config = Config(f: Fn, key: Option<Bits>, sk: Option<Bits>, kk: nat, tagLenP: nat)

  predicate ConfigOk(g: Config) {
    && FnOk(g.f)
    && (g.key.Some? ==> |g.key.value| == B(g.f) && !g.f.Blake? && !IsXof(g.f))
    && (g.sk.Some? ==> g.f.Blake? && |g.sk.value| == B(g.f) && 1 <= g.kk <= g.f.w)
  }

  datatype Hash = Hash(st: St, policy: nat, c: Core, lbl: nat, outl: nat, tagLen: nat, nn: nat, kk: nat)

  datatype Instr =
    | SetSt(target: St, form: Form, xs: nat)
    | SetAux(form: Form, xs: nat)
    | Exec(form: Form, data: Bits, kllen: nat, klstart: nat, halt: bool)
    | Restrict(mask: nat)

  /** The locker, the value of OUTPUT, how many bits it consumed or emitted, and where it was interrupted. */
  datatype Outcome = Outcome(m: Hash, out: Bits, moved: nat, halted: Option<nat>)

  ghost predicate Ok(g: Config, m: Hash) {
    ConfigOk(g) && (m.st != Success && m.st != Invalid ==> CoreOk(g.f, m.c)) && (g.sk.Some? ==> m.kk == g.kk)
  }

  function Fail(m: Hash): Hash {
    m.(st := Invalid)
  }

  function EnterReady(g: Config, m: Hash): (r: Hash)
    requires Ok(g, m)
    ensures Ok(g, r)
  {
    m.(st := Ready, c := Core(Iv(g.f, m.kk, m.nn), Zeros(B(g.f)), 0, 0), lbl := 0, outl := 0, tagLen := 0)
  }

  predicate AdmitsTagLen(g: Config) {
    FnOk(g.f) && g.tagLenP % 8 == 0 && 64 <= g.tagLenP <= T(g.f)
  }

  function Create(g: Config, policy: nat): (m: Hash)
    requires ConfigOk(g)
    ensures Ok(g, m)
  {
    var nn := if g.f.Blake? then g.f.w else 0;
    var kk := if g.sk.Some? then g.kk else 0;
    var m := Hash(Ready, policy, Core(Iv(g.f, kk, nn), Zeros(B(g.f)), 0, 0), 0, 0, 0, nn, kk);
    if g.key.Some? && !AdmitsTagLen(g) then Fail(m) else m
  }

  /** n bytes of the given value, added to the key block. */
  function KeyPad(key: Bits, x: Bits): (r: Bits)
    requires |key| % 8 == 0 && |x| == 8
    ensures |r| == |key|
  {
    seq(|key|, i requires 0 <= i < |key| => key[i] != x[i % 8])
  }

  /** The bytes 0x36 and 0x5c, bit 0 first. */
  const IPAD: Bits := [false, true, true, false, true, true, false, false]
  const OPAD: Bits := [false, false, true, true, true, false, true, false]

  function EnterAbsorb(g: Config, m: Hash): (r: Hash)
    requires Ok(g, m)
    ensures Ok(g, r)
  {
    var c := Core(Iv(g.f, m.kk, m.nn), Zeros(B(g.f)), 0, 0);
    m.(st := Absorb, lbl := B(g.f), c := if g.key.Some? then PutAll(g.f, c, KeyPad(g.key.value, IPAD)) else c)
  }

  /** _finalize; extra is what was absorbed before the counted bits. */
  function Finalized(g: Config, c: Core, kk: nat, extra: nat): (r: Option<Core>)
    requires ConfigOk(g) && CoreOk(g.f, c)
    ensures r.Some? ==> CoreOk(g.f, r.value)
  {
    if g.f.Md? then (if c.bb % 8 == 0 then Some(FinalMd(g.f, c, extra + c.cum)) else None)
    else if g.f.Blake? then FinalBlake(g.f, g.sk, kk, c)
    else Some(FinalSponge(g.f, c))
  }

  /** The inner hash is done, and the outer one is computed over the second key block and the inner digest. */
  function HmacOuter(g: Config, c: Core, kk: nat, nn: nat): (r: Option<Core>)
    requires ConfigOk(g) && CoreOk(g.f, c) && g.key.Some?
    ensures r.Some? ==> CoreOk(g.f, r.value)
  {
    match Finalized(g, c, kk, B(g.f))
    case None => None
    case Some(c1) =>
      var inner := c1.S[..T(g.f)];
      var c2 := PutAll(g.f, Core(Iv(g.f, kk, nn), Zeros(B(g.f)), 0, 0), KeyPad(g.key.value, OPAD));
      var c3 := Vli(g.f, c2, inner, 0, |inner|, true, false).0;
      Finalized(g, c3, kk, B(g.f))
  }

  function Closed(g: Config, m: Hash): (r: Option<Hash>)
    requires Ok(g, m) && CoreOk(g.f, m.c)
    ensures r.Some? ==> Ok(g, r.value)
  {
    match if g.key.Some? then HmacOuter(g, m.c, m.kk, m.nn) else Finalized(g, m.c, m.kk, 0)
    case None => None
    case Some(c) => Some(m.(c := c.(bb := 0), lbl := 0))
  }

  /** Bits of a full digest. */
  function FullOut(g: Config, m: Hash): nat
    requires ConfigOk(g)
  {
    if g.f.Blake? then 8 * m.nn else if IsXof(g.f) then 0 else T(g.f)
  }

  predicate OutputAdmitted(g: Config, m: Hash, form: Form, xs: nat)
    requires ConfigOk(g)
  {
    && (m.st == Absorb || (m.st == Last && m.lbl == 0)) && (form == FormA || form == FormB)
    && (m.policy % 2 == 1 || (g.key.None? && g.sk.None?))
    && (xs != 0 ==> xs % 8 == 0 && (if IsXof(g.f) then xs < 0x1_0000_0000 else xs <= FullOut(g, m)))
    && (xs != 0 && g.key.Some? ==> xs >= 64)
  }

  function SetOutput(g: Config, m: Hash, form: Form, xs: nat): (r: Hash)
    requires Ok(g, m)
    ensures Ok(g, r)
  {
    if !OutputAdmitted(g, m, form, xs) then Fail(m)
    else
      match Closed(g, m)
      case None => Fail(m)
      case Some(m1) => m1.(outl := if xs != 0 then xs else FullOut(g, m), st := Output)
  }

  function SetVerify(g: Config, m: Hash, form: Form, xs: nat): (r: Hash)
    requires Ok(g, m)
    ensures Ok(g, r)
  {
    if !(m.st == Absorb || (m.st == Last && m.lbl == 0)) || g.key.None? || form != FormB || m.policy / 2 % 2 != 1 ||
       xs % 8 != 0 || xs < 64 || Min(xs, T(g.f)) != g.tagLenP
    then Fail(m)
    else
      match Closed(g, m)
      case None => Fail(m)
      case Some(m1) => m1.(tagLen := Min(xs, T(g.f)), st := Verify)
  }

  function SetBits(g: Config, m: Hash, form: Form, xs: nat): (r: Hash)
    requires Ok(g, m)
    ensures Ok(g, r)
  {
    var m1 := if m.st == Absorb || m.st == Last then SetOutput(g, m, FormA, 0) else m;
    if (m1.st == Output || m1.st == OutBits) && form == FormB && 0 < xs < 65536 then m1.(lbl := xs, st := OutBits)
        else Fail(m1)
  }

  function DoSetSt(g: Config, m: Hash, target: St, form: Form, xs: nat): (r: Hash)
    requires Ok(g, m)
    ensures Ok(g, r)
  {
    if m.st == Invalid then m
    else if target == Ready then (if form == FormA then EnterReady(g, m) else Fail(m))
    else if m.st == Success || m.st == Failure then Fail(m)
    else if target == OutBits then SetBits(g, m, form, xs)
    else if target == Absorb then (if form == FormA && m.st == Ready then EnterAbsorb(g, m) else Fail(m))
    else if target == Last then
      if m.st == Absorb && (form == FormA || form == FormB) && xs <= B(g.f) && (xs % 8 == 0 || !g.f.Blake?)
      then m.(lbl := xs, st := Last) else Fail(m)
    else if target == Output then SetOutput(g, m, form, xs)
    else if target == Verify then SetVerify(g, m, form, xs)
    else Fail(m)
  }

  /** The digest and key lengths of BLAKE2. */
  function DoSetAux(g: Config, m: Hash, form: Form, xs: nat): (r: Hash)
    requires Ok(g, m)
    ensures Ok(g, r)
  {
    if m.st == Invalid then m
    else if m.st == Ready && g.f.Blake? && form == FormB && AuxOk(g, xs) then
      var kk := if g.sk.Some? then m.kk else xs / 256;
      m.(nn := xs % 256, kk := kk, c := m.c.(S := Iv(g.f, kk, xs % 256)))
    else Fail(m)
  }

  predicate AuxOk(g: Config, xs: nat)
    requires g.f.Blake?
  {
    1 <= xs % 256 <= g.f.w && xs / 256 <= g.f.w && (g.sk.Some? ==> xs / 256 == 0)
  }

  // ---------------------------------------------------------------- kl.exec

  /** The bytes of a final piece of L bits in the order of SHA-2: a one is set behind them in the last byte. */
  function LastBytes(data: Bits, L: nat): (r: Bits)
    requires L <= |data| && |data| % 8 == 0
    ensures |r| == (L + 7) / 8 * 8
  {
    seq((L + 7) / 8 * 8, i requires 0 <= i < (L + 7) / 8 * 8 =>
      if i / 8 < L / 8 || i % 8 > 7 - L % 8 then data[i] else i % 8 == 7 - L % 8)
  }

  function DoLast(g: Config, m: Hash, data: Bits): (r: Hash)
    requires Ok(g, m) && m.st == Last && m.lbl <= |data| && |data| % 8 == 0
    ensures Ok(g, r)
  {
    if g.f.Md? then
      var c := PutAll(g.f, m.c, LastBytes(data, m.lbl));
      m.(c := c.(cum := c.cum + m.lbl), lbl := 0)
    else
      var c := Vli(g.f, Keyed(g.f, g.sk, m.c), data[..m.lbl], 0, m.lbl, true, false).0;
      m.(c := c, lbl := 0)
  }

  predicate AtBoundary(f: Fn, c: Core)
    requires FnOk(f)
  {
    c.bb == 0 || (f.Blake? && c.bb == B(f))
  }

  /** The window of kl.exec is empty. */
  predicate Empty(kl: nat, klstart: nat) {
    klstart * 8 >= kl
  }

  function DoAbsorb(g: Config, m: Hash, data: Bits, klstart: nat, halt: bool): (o: Outcome)
    requires Ok(g, m) && m.st == Absorb && |data| % 8 == 0
    ensures Ok(g, o.m)
  {
    if Empty(|data|, klstart) then Outcome(m, [], 0, None)
    else if klstart != 0 && !AtBoundary(g.f, m.c) then Outcome(Fail(m), [], 0, None)
    else
      var (c, e) := Vli(g.f, Keyed(g.f, g.sk, m.c), data, 8 * klstart, |data|, true, halt);
      Outcome(m.(c := c), [], if e > 8 * klstart then e - 8 * klstart else 0, if e < |data| then Some(e / 8) else None)
  }

  /** The next part of the output: at most what is left of the state, of the output and of the read. */
  function Amount(g: Config, m: Hash, room: nat, ob: nat, halt: bool): (a: nat)
    requires Ok(g, m)
  {
    var a1 := if m.c.bb < T(g.f) then Min(room, T(g.f) - m.c.bb) else 0;
    var a2 := if m.outl != 0 then Min(a1, m.outl) else a1;
    if m.st == OutBits then Min(a2, Min(m.lbl, if halt then 8 - ob % 8 else a2)) else a2
  }

  lemma TBelowB(f: Fn)
    requires FnOk(f)
    ensures T(f) <= B(f)
  {
  }

  /** The state moves on when it has been read completely. */
  function Squeezed(g: Config, c: Core): (r: Core)
    requires ConfigOk(g) && |c.S| == StateLen(g.f) && |c.blk| == B(g.f) && c.bb <= T(g.f)
    ensures CoreOk(g.f, r) && r.bb < T(g.f)
  {
    TBelowB(g.f);
    if c.bb == T(g.f) then (if g.f.Sponge? then c.(S := Compressed(g.f, c, false), bb := 0) else c.(bb := 0)) else c
  }

  /** The locker can go on emitting. */
  ghost predicate Emits(g: Config, m: Hash) {
    Ok(g, m) && (m.st == Output || m.st == OutBits) && m.c.bb < T(g.f) && (m.st == OutBits ==> m.lbl > 0)
  }

  /** The locker once a bits of the state have been handed out. */
  function Taken(g: Config, m: Hash, a: nat): (r: Hash)
    requires FnOk(g.f) && m.c.bb + a <= T(g.f) && (m.outl != 0 ==> a <= m.outl) && (m.st == OutBits ==> a <= m.lbl)
  {
    m.(c := m.c.(bb := m.c.bb + a), lbl := if m.st == OutBits then m.lbl - a else m.lbl,
       outl := if m.outl != 0 then m.outl - a else 0)
  }

  /** The loop of kl.exec in the output States, with ob bits of OUTPUT filled. */
  function OutFrom(g: Config, m: Hash, ob: nat, kl: nat, halt: bool, out: Bits): (o: Outcome)
    requires Emits(g, m) && ob < kl
    ensures Ok(g, o.m) && o.m.nn == m.nn && o.m.kk == m.kk
    decreases kl - ob
  {
    var a := Amount(g, m, kl - ob, ob, halt);
    AmountFits(g, m, kl - ob, ob, halt);
    var m1, out1, e := Taken(g, m, a), out + m.c.S[m.c.bb..m.c.bb + a], ob + a;
    if m.outl != 0 && m1.outl == 0 then Outcome(m1.(st := Success), out1, |out1|, None)
    else
      var m2 := m1.(c := Squeezed(g, m1.c));
      if halt && e < kl && (if m.st == OutBits then m2.lbl != 0 && e % 8 == 0 else m1.c.bb == T(g.f)) then
        Outcome(m2, out1, |out1|, Some(e / 8))
      else if e >= kl || (m.st == OutBits && m2.lbl == 0) then Outcome(m2, out1, |out1|, None)
      else OutFrom(g, m2, e, kl, halt, out1)
  }

  lemma AmountFits(g: Config, m: Hash, room: nat, ob: nat, halt: bool)
    requires Emits(g, m) && room > 0
    ensures var a := Amount(g, m, room, ob, halt);
            0 < a <= room && m.c.bb + a <= T(g.f) && (m.outl != 0 ==> a <= m.outl) && (m.st == OutBits ==> a <= m.lbl)
  {
  }

  /** Whether the loop is interrupted with e bits of OUTPUT filled; full: the state has been read completely. */
  predicate StopsHere(m: Hash, full: bool, e: nat, kl: nat, halt: bool) {
    halt && e < kl && (if m.st == OutBits then m.lbl != 0 && e % 8 == 0 else full)
  }

  /** The locker after the next a bits, when more are left. */
  function Moved(g: Config, m: Hash, a: nat): (r: Hash)
    requires Emits(g, m) && m.c.bb + a <= T(g.f) && (m.outl != 0 ==> a <= m.outl) && (m.st == OutBits ==> a <= m.lbl)
    ensures Ok(g, r) && r.c.bb < T(g.f) && r.st == m.st && r.policy == m.policy
    ensures r.lbl == (if m.st == OutBits then m.lbl - a else m.lbl) && r.outl == if m.outl != 0 then m.outl - a else 0
  {
    var m1 := Taken(g, m, a);
    m1.(c := Squeezed(g, m1.c))
  }

  /** One turn of the output loop. */
  lemma OutTurn(g: Config, m: Hash, ob: nat, kl: nat, halt: bool, out: Bits) returns (a: nat)
    requires Emits(g, m) && ob < kl
    ensures a == Amount(g, m, kl - ob, ob, halt)
    ensures 0 < a <= kl - ob && m.c.bb + a <= T(g.f) && (m.outl != 0 ==> a <= m.outl) && (m.st == OutBits ==>
            a <= m.lbl)
    ensures var o, out1, e, m2 := OutFrom(g, m, ob, kl, halt, out), out + m.c.S[m.c.bb..m.c.bb + a], ob + a, Moved(g, m,
            a);
            if m.outl == a then o == Outcome(Taken(g, m, a).(st := Success), out1, |out1|, None)
            else if StopsHere(m2, m.c.bb + a == T(g.f), e, kl, halt) then o == Outcome(m2, out1, |out1|, Some(e / 8))
            else if e >= kl || (m.st == OutBits && m2.lbl == 0) then o == Outcome(m2, out1, |out1|, None)
            else Emits(g, m2) && o == OutFrom(g, m2, e, kl, halt, out1)
  {
    hide Squeezed, Amount, T, CoreOk, ConfigOk;
    a := Amount(g, m, kl - ob, ob, halt);
    AmountFits(g, m, kl - ob, ob, halt);
  }

  function DoOutput(g: Config, m: Hash, kl: nat, klstart: nat, halt: bool): (o: Outcome)
    requires Ok(g, m) && (m.st == Output || m.st == OutBits) && m.c.bb < T(g.f) && (m.st == OutBits ==> m.lbl > 0)
    ensures Ok(g, o.m) && o.m.nn == m.nn && o.m.kk == m.kk
  {
    if Empty(kl, klstart) then Outcome(m, [], 0, None)
    else if klstart != 0 && m.c.bb != 0 && m.st == Output then Outcome(Fail(m), [], 0, None)
    else OutFrom(g, m, 8 * klstart, kl, halt, [])
  }

  function DoVerify(g: Config, m: Hash, data: Bits, klstart: nat): (r: Hash)
    requires Ok(g, m) && m.st == Verify
    ensures Ok(g, r)
  {
    if Empty(|data|, klstart) then m
    else if |data| < m.tagLen then Fail(m)
    else m.(st := if Slice(data, 0, m.tagLen) == Slice(m.c.S, 0, m.tagLen) then Success else Failure)
  }

  /** Whether MachinePolicy, checked for HMAC, lets the locker be read or verify. */
  predicate Permitted(g: Config, m: Hash) {
    g.key.Some? ==> ((m.st == Output || m.st == OutBits) ==> m.policy % 2 == 1) && (m.st == Verify ==>
        m.policy / 2 % 2 == 1)
  }

  /** The place in the state is inside what can be read from it. */
  ghost predicate Readable(g: Config, m: Hash) {
    Ok(g, m) && (m.st == Output || m.st == OutBits ==> m.c.bb < T(g.f))
  }

  function DoExec(g: Config, m: Hash, form: Form, data: Bits, kllen: nat, klstart: nat, halt: bool): (o: Outcome)
    requires Readable(g, m) && |data| % 8 == 0
    ensures Ok(g, o.m)
  {
    if m.st == Invalid then Outcome(m, [], 0, None)
    else if !Permitted(g, m) then Outcome(Fail(m), [], 0, None)
    else if m.st == Output || m.st == OutBits then
      if form != FormC || (m.st == OutBits && m.lbl == 0) then Outcome(Fail(m), [], 0, None)
      else DoOutput(g, m, kllen, klstart, halt)
    else if form != FormB then Outcome(Fail(m), [], 0, None)
    else if m.st == Verify then Outcome(DoVerify(g, m, data, klstart), [], 0, None)
    else if m.st == Last then
      if m.lbl == 0 then Outcome(Fail(m), [], 0, None)
      else if Empty(|data|, klstart) then Outcome(m, [], 0, None)
      else if |data| < m.lbl || klstart != 0 then Outcome(Fail(m), [], 0, None)
      else Outcome(DoLast(g, m, data), [], m.lbl, None)
    else if m.st == Absorb then DoAbsorb(g, m, data, klstart, halt)
    else Outcome(Fail(m), [], 0, None)
  }

  function DoRestrict(g: Config, m: Hash, mask: nat): (r: Hash)
    requires Ok(g, m)
    ensures Ok(g, r)
  {
    var p := And2(m.policy, mask);
    if m.st == Invalid then m else if g.key.Some? && p == 0 then Fail(m.(policy := p)) else m.(policy := p)
  }

  function Step(g: Config, m: Hash, i: Instr): (o: Outcome)
    requires Readable(g, m) && (i.Exec? ==> |i.data| % 8 == 0)
    ensures Ok(g, o.m)
  {
    match i
    case SetSt(target, form, xs) => Outcome(DoSetSt(g, m, target, form, xs), [], 0, None)
    case SetAux(form, xs) => Outcome(DoSetAux(g, m, form, xs), [], 0, None)
    case Exec(form, data, kllen, klstart, halt) => DoExec(g, m, form, data, kllen, klstart, halt)
    case Restrict(mask) => Outcome(DoRestrict(g, m, mask), [], 0, None)
  }
}
