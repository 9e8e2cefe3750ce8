/**
 The GCM and GCM_IV Machines: a locker driven by kl.setst and kl.exec that hashes and encrypts block by block, may be
 interrupted between blocks, and moves to Error State Invalid on any violation.  `Step` is the transition function; the
 class in GcmLocker changes its fields as the model's methods do and is proved to follow it.
 */
module GcmMachine {
  import opened Wrappers
  import opened Modular
  import opened BitStrings
  import opened Gf128
  import opened AeadBase

  /** The fields of the locker; with iv, the IV is preset (GCM_IV). */
  datatype Gcm = Gcm(E: Cipher, iv: bool, st: int, policy: nat, klstart: nat, partial: Bits, tagLenP: nat, auth: Block,
                     tag: Block, tagLen: nat, lbl: nat, J0: Block, startCtr: nat, len: nat, blockBase: nat, cumul: nat)

  datatype Instr =
    | SetSt(target: int, form: Form, xs: nat, inp: Bits)
    | Exec(form: Form, inp: Bits, kllen: Option<nat>, klstart: nat, haltAt: Option<nat>)
    | Restrict(mask: nat)

  /** The new state, the value of OUTPUT, and how far the input was consumed: in blocks, or in bits for the IV. */
  datatype Outcome = Outcome(m: Gcm, out: Bits, reached: nat)

  // ---------------------------------------------------------------- counters

  /** The last four bytes as a big-endian number. */
  function Ctr32(b: Block): (c: nat)
    ensures c < Pow2(32)
  {
    ToNat(ByteSwap(b[96..]))
  }

  /** The block with the last four bytes replaced by the big-endian number c. */
  function WithCtr(b: Block, c: nat): (r: Block) {
    b[..96] + ByteSwap(FromNat(c, 32))
  }

  lemma CtrRoundTrip(b: Block, c: nat)
    requires c < Pow2(32)
    ensures Ctr32(WithCtr(b, c)) == c && WithCtr(b, c)[..96] == b[..96]
  {
    var x := FromNat(c, 32);
    assert WithCtr(b, c)[96..] == ByteSwap(x);
    SwapTwice(x);
    NatRoundTrip(c, 32);
    SmallMod(c, Pow2(32));
  }

  lemma WithOwnCtr(b: Block)
    ensures WithCtr(b, Ctr32(b)) == b
  {
    BitsRoundTrip(ByteSwap(b[96..]));
    SwapTwice(b[96..]);
  }

  function Succ32(c: nat): (r: nat)
    ensures r < Pow2(32)
  {
    (c + 1) % Pow2(32)
  }

  function Pred32(c: nat): (r: nat)
    ensures r < Pow2(32)
  {
    (c + Pow2(32) - 1) % Pow2(32)
  }

  // ---------------------------------------------------------------- tables

  predicate AdmitsTagLen(t: nat) {
    t == 128 || t == 120 || t == 112 || t == 104 || t == 96 || t == 64
  }

  /** Whether the Machine admits the explicit transition from cur to st. */
  predicate Admits(iv: bool, cur: int, st: int) {
    || (cur == READY && st == (if iv then ABSORB else SAV))
    || (!iv && cur == SAV && (st == ABSORB || st == SAV))
    || (cur == ABSORB && (st == ENC || st == DEC))
    || (cur == ENC && (st == ELB || st == ETF)) || (cur == ELB && st == ETF)
    || (cur == DEC && (st == DLB || st == DTF)) || (cur == DLB && st == DTF)
    || (cur == DTF && st == VERIFY)
  }

  function SetForm(st: int): Option<Form> {
    if st == SAV || st == ELB || st == DLB || st == VERIFY then Some(FormB)
    else if st == ABSORB || st == ENC || st == DEC then Some(FormA)
    else if st == ETF || st == DTF then Some(FormC)
    else None
  }

  function ExecForm(st: int): Option<Form> {
    if st == SAV || st == ABSORB || st == VERIFY then Some(FormB)
    else if st == ENC || st == DEC || st == ELB || st == DLB then Some(FormA)
    else if st == ETF then Some(FormC)
    else None
  }

  // ---------------------------------------------------------------- state changes

  function Fail(m: Gcm): Gcm {
    m.(st := INVALID)
  }

  /** Entering Ready: J0, start_ctr and last_block_len are left, except that a preset IV starts at counter 1. */
  function Ready(m: Gcm): Gcm {
    m.(auth := m.E(Zeros(128)), tag := Zeros(128), tagLen := 0, len := 0, blockBase := 0, cumul := 0, klstart := 0,
       J0 := if m.iv then WithCtr(m.J0, 1) else m.J0, startCtr := if m.iv then 1 else m.startCtr)
  }

  /** A provisioned locker; preset is the IV of GCM_IV. */
  function Create(E: Cipher, preset: Option<Bits>, policy: nat, tagLenP: nat): Gcm
    requires 0 < policy < 4 && (preset.Some? ==> policy == 2)
  {
    var J0 := if preset.Some? then Slice(preset.value, 0, 96) + Zeros(32) else Zeros(128);
    var m := Ready(Gcm(E, preset.Some?, READY, policy, 0, [], tagLenP, Zeros(128), Zeros(128), 0, 0, J0, 0, 0, 0, 0));
    if AdmitsTagLen(tagLenP) then m else Fail(m)
  }

  function AbsorbBlock(m: Gcm, d: Block): Gcm {
    m.(tag := GhashMul(Xor(m.tag, d), m.auth))
  }

  /** The next counter, unless every counter but the one before start_ctr has been used. */
  function NextCtr(m: Gcm): Option<Gcm> {
    var c := Succ32(Ctr32(m.J0));
    if c == Pred32(m.startCtr) then None else Some(m.(J0 := WithCtr(m.J0, c)))
  }

  function Enter(m: Gcm, st: int, xs: nat, inp: Bits): Option<Gcm> {
    if st == SAV then
      if xs % 8 == 0 && 8 <= xs <= 8192 then Some(m.(tag := Zeros(128), blockBase := 0, cumul := 0, len := xs))
          else None
    else if st == ELB || st == DLB then
      if xs % 8 == 0 && 8 <= xs <= 120 then Some(m.(lbl := xs)) else None
    else if st == ETF || st == DTF then
      var m1 := AbsorbBlock(m, Slice(inp, 0, 128));
      Some(m1.(tag := Xor(m1.tag, m.E(WithCtr(m.J0, m.startCtr)))))
    else if st == VERIFY then
      if xs == m.tagLenP then Some(m.(tagLen := xs)) else None
    else Some(m)
  }

  predicate LeaveOk(m: Gcm, st: int) {
    st == m.st || (m.st != SAV && ((m.st == ELB || m.st == DLB) ==> m.lbl == 0))
  }

  function DoSetSt(m: Gcm, st: int, form: Form, xs: nat, inp: Bits): Gcm {
    if m.st == INVALID then m
    else if st == READY then (if form == FormA then Ready(m.(st := READY)) else Fail(m))
    else if Admits(m.iv, m.st, st) && FormOk(SetForm(st), form, xs, inp) && Allowed(m.policy, st) && LeaveOk(m, st) then
      match Enter(m.(st := st), st, xs, if form == FormA then [] else inp)
      case None => Fail(m)
      case Some(m') => m'
    else Fail(m)
  }

  // ---------------------------------------------------------------- kl.exec

  /** One block in Absorb, Encrypt or Decrypt: none when the counter is exhausted. */
  function BlockStep(m: Gcm, x: Block): Option<(Gcm, Block)> {
    if m.st == ABSORB then Some((AbsorbBlock(m, x), Zeros(128)))
    else
      match NextCtr(m)
      case None => None
      case Some(m1) =>
        var t := Xor(x, m.E(m1.J0));
        Some((AbsorbBlock(m1, if m.st == ENC then t else x), t))
  }

  /** A failed instruction hands out what the interrupted or failed transfer had produced so far. */
  function FailOut(m: Gcm, reached: nat): Outcome {
    Outcome(m.(st := INVALID, partial := []), m.partial, reached)
  }

  /** Blocks i.. of the input up to block n; k is where this instruction started. */
  function MultiFrom(m: Gcm, inp: Bits, i: nat, n: nat, k: nat, haltAt: Option<nat>, out: Bits): Outcome
    requires i <= n
    decreases n - i
  {
    if i == n then Outcome(m.(partial := []), out, i)
    else if HaltsAt(haltAt, 128 * i) && i > k then Outcome(m.(klstart := haltAt.value, partial := out), out, i)
    else
      match BlockStep(m, Slice(inp, 128 * i, 128))
      case None => FailOut(m.(partial := out), i)
      case Some((m1, o)) => MultiFrom(m1, inp, i + 1, n, k, haltAt, out + o)
  }

  function Multi(m: Gcm, inp: Bits, kllen: Option<nat>, klstart: nat, haltAt: Option<nat>): Outcome {
    if kllen.None? || kllen.value % 128 != 0 || klstart * 8 % 128 != 0 then FailOut(m, 0)
    else
      var k, n := klstart * 8 / 128, kllen.value / 128;
      if k >= n then Outcome(m.(partial := []), Zeros(128 * k), k)
      else MultiFrom(m.(partial := []), inp, k, n, k, haltAt, Zeros(128 * k))
  }

  /** The IV is complete: J0 and the start counter. */
  function Finalize(m: Gcm): Gcm {
    var tag0 := if m.blockBase != 0 then GhashMul(m.tag, m.auth) else m.tag;
    var J0 := if m.len == 96 then WithCtr(m.tag, 1)
              else GhashMul(Xor(tag0, Zeros(64) + ByteSwap(FromNat(m.len, 64))), m.auth);
    m.(J0 := J0, startCtr := Ctr32(J0), tag := Zeros(128), len := 0, blockBase := 0, cumul := 0, st := ABSORB)
  }

  ghost predicate VliOk(m: Gcm) {
    m.blockBase < 128 && m.cumul < m.len
  }

  /** The next piece of the IV is hashed in. */
  function VliPiece(m: Gcm, inp: Bits, ib: nat, amt: nat): Gcm
    requires m.blockBase + amt <= 128
  {
    var tag := Xor(m.tag, Placed(Slice(inp, ib, amt), m.blockBase));
    if m.blockBase + amt == 128 then m.(tag := GhashMul(tag, m.auth), blockBase := 0, cumul := m.cumul + amt)
    else m.(tag := tag, blockBase := m.blockBase + amt, cumul := m.cumul + amt)
  }

  function VliFrom(m: Gcm, inp: Bits, ib: nat, kllen: nat, haltAt: Option<nat>): Outcome
    requires VliOk(m)
    decreases kllen - ib
  {
    if ib >= kllen then Outcome(m, [], ib)
    else
      var amt := Min(Min(kllen - ib, 128 - m.blockBase), m.len - m.cumul);
      var m1 := VliPiece(m, inp, ib, amt);
      if m1.cumul == m1.len then Outcome(Finalize(m1), [], ib + amt)
      else if ib + amt < kllen && (ib + amt) % 128 == 0 && HaltsAt(haltAt, ib + amt) then
        Outcome(m1.(klstart := (ib + amt) / 8), [], ib + amt)
      else VliFrom(m1, inp, ib + amt, kllen, haltAt)
  }

  /** PROCESS_VLI on the IV.  A State with blockBase 128 or more is never reached; it would be refused. */
  function Vli(m: Gcm, inp: Bits, kllen: Option<nat>, klstart: nat, haltAt: Option<nat>): Outcome {
    if kllen.None? || m.cumul >= m.len || (kllen.value % 128 != 0 && m.cumul + kllen.value < m.len)
       || !(klstart == 0 || (m.blockBase == 0 && klstart * 8 % 128 == 0)) || m.blockBase >= 128
    then FailOut(m, 8 * klstart)
    else VliFrom(m, inp, 8 * klstart, kllen.value, haltAt)
  }

  /** The last, partial block. */
  function LastBlock(m: Gcm, inp: Bits, kllen: Option<nat>): Outcome {
    if kllen.None? || kllen.value < m.lbl || m.lbl == 0 || m.lbl > 128 then FailOut(m, 0)
    else
      match NextCtr(m)
      case None => FailOut(m, 0)
      case Some(m1) =>
        var n := m.lbl;
        var x := Slice(inp, 0, n);
        var t := Xor(x, m.E(m1.J0)[..n]);
        var m2 := AbsorbBlock(m1, Placed(if m.st == ELB then t else x, 0));
        Outcome(m2.(lbl := 0), t, 1)
  }

  function EmitTag(m: Gcm, kllen: Option<nat>): Outcome {
    if kllen.None? || kllen.value < m.tagLenP then FailOut(m, 0)
    else Outcome(m.(st := SUCCESS), Slice(m.tag, 0, m.tagLenP), 0)
  }

  function CheckTag(m: Gcm, inp: Bits, kllen: Option<nat>): Outcome {
    if kllen.None? || kllen.value < m.tagLen then FailOut(m, 0)
    else
      var ok := Slice(inp, 0, m.tagLen) == Slice(m.tag, 0, m.tagLen);
      Outcome(m.(st := if ok then SUCCESS else FAILURE, tagLen := 0), [], 0)
  }

  /** The work of a kl.exec that its State admits. */
  function Work(m: Gcm, inp: Bits, kllen: Option<nat>, klstart: nat, haltAt: Option<nat>): Outcome {
    if m.st == SAV then Vli(m, inp, kllen, klstart, haltAt)
    else if m.st == ABSORB || m.st == ENC || m.st == DEC then Multi(m, inp, kllen, klstart, haltAt)
    else if m.st == ELB || m.st == DLB then LastBlock(m, inp, kllen)
    else if m.st == ETF then EmitTag(m, kllen)
    else CheckTag(m, inp, kllen)
  }

  function DoExec(m0: Gcm, form: Form, inp: Bits, kllen: Option<nat>, klstart: nat, haltAt: Option<nat>): Outcome {
    if m0.st == INVALID then Outcome(m0, [], 0)
    else
      var m := m0.(klstart := 0);
      if !Allowed(m.policy, m.st) || ExecForm(m.st) != Some(form) then FailOut(m, 0)
      else if kllen.Some? && klstart * 8 >= kllen.value && !((m.st == ELB || m.st == DLB) &&
          m.lbl == 0) then Outcome(m, [], 0)
      else Work(m, inp, kllen, klstart, haltAt)
  }

  function DoRestrict(m: Gcm, mask: nat): Gcm {
    if m.st == INVALID then m
    else
      var p := And2(m.policy, mask);
      if p == 0 then Fail(m.(policy := p)) else m.(policy := p)
  }

  function Step(m: Gcm, i: Instr): Outcome {
    match i
    case SetSt(st, form, xs, inp) => Outcome(DoSetSt(m, st, form, xs, inp), [], 0)
    case Exec(form, inp, kllen, klstart, haltAt) => DoExec(m, form, inp, kllen, klstart, haltAt)
    case Restrict(mask) => Outcome(DoRestrict(m, mask), [], 0)
  }

  // ---------------------------------------------------------------- which fields change

  lemma NextOnlyJ0(m: Gcm)
    ensures NextCtr(m).Some? ==> NextCtr(m).value == m.(J0 := NextCtr(m).value.J0)
  {
    hide Ctr32, WithCtr;
  }

  lemma PieceFields(m: Gcm, inp: Bits, ib: nat, amt: nat)
    requires m.blockBase + amt <= 128
    ensures var m1 := VliPiece(m, inp, ib, amt);
            m1 == m.(tag := m1.tag, cumul := m.cumul + amt, blockBase := if m.blockBase + amt == 128 then 0
                else m.blockBase + amt)
  {
    hide GhashMul, Xor;
  }

  function Amount(m: Gcm, ib: nat, kllen: nat): (amt: nat)
    requires VliOk(m) && ib < kllen
    ensures amt > 0 && m.blockBase + amt <= 128
  {
    Min(Min(kllen - ib, 128 - m.blockBase), m.len - m.cumul)
  }

  /** The IV loop is interrupted at bit position p. */
  predicate StopsAt(haltAt: Option<nat>, p: nat, kllen: nat) {
    p < kllen && p % 128 == 0 && HaltsAt(haltAt, p)
  }

  /** One piece of an IV: it is the last one, or the loop goes on behind it, or the instruction halts there. */
  lemma VliUnfold(m: Gcm, inp: Bits, ib: nat, kllen: nat, haltAt: Option<nat>)
    requires VliOk(m) && ib < kllen
    ensures var amt := Amount(m, ib, kllen);
            var m1, o := VliPiece(m, inp, ib, amt), VliFrom(m, inp, ib, kllen, haltAt);
            0 < amt && m1.st == m.st && m1.klstart == m.klstart && m1.policy == m.policy && m1.len == m.len &&
            m1.cumul == m.cumul + amt && (m1.cumul < m1.len && ib + amt < kllen ==> m1.blockBase == 0) &&
            (m1.cumul == m1.len ==> o.m.klstart == m.klstart && o == Outcome(Finalize(m1), [], ib + amt)) &&
            (m1.cumul != m1.len ==>
              VliOk(m1) &&
              o == if StopsAt(haltAt, ib + amt, kllen)
                   then Outcome(m1.(klstart := (ib + amt) / 8), [], ib + amt)
                   else VliFrom(m1, inp, ib + amt, kllen, haltAt))
  {
    hide VliPiece, Finalize;
    var amt := Amount(m, ib, kllen);
    PieceFields(m, inp, ib, amt);
    FinalizePosition(VliPiece(m, inp, ib, amt));
  }

  lemma VliEnd(m: Gcm, inp: Bits, ib: nat, kllen: nat, haltAt: Option<nat>)
    requires VliOk(m) && ib >= kllen
    ensures VliFrom(m, inp, ib, kllen, haltAt) == Outcome(m, [], ib)
  {
  }

  lemma FinalizePosition(m: Gcm)
    ensures Finalize(m).klstart == m.klstart
  {
    hide GhashMul, Ctr32, WithCtr, Xor;
  }
}
