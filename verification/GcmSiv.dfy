/**
 The GCM-SIV Machine with its Serialized Content.
 */
module SivMachine {
  import opened Wrappers
  import opened Modular
  import opened BitStrings
  import opened BitFields
  import opened Gf128
  import opened AeadBase
  import opened Transfers
  import opened Rfc8452

  // ---------------------------------------------------------------- keys, tag and counter blocks of the Machine

  /** The first half of the i-th block of derived key material. */
  function KeyHalf(aes: Keyed, key: Bits, nonce: Bits, i: nat): (r: Bits)
    requires |nonce| == 96
    ensures |r| == 64
  {
    aes(key, FromNat(i, 32) + nonce)[..64]
  }

  function KeyHalves(aes: Keyed, key: Bits, nonce: Bits, i: nat, n: nat): Bits
    requires |nonce| == 96 && i <= n
    decreases n - i
  {
    if i == n then [] else KeyHalf(aes, key, nonce, i) + KeyHalves(aes, key, nonce, i + 1, n)
  }

  /** The message encryption key: as long as the key. */
  function EncKey(aes: Keyed, key: Bits, nonce: Bits): Bits
    requires |nonce| == 96
  {
    KeyHalves(aes, key, nonce, 2, |key| / 64 + 2)
  }

  function AuthKey(aes: Keyed, key: Bits, nonce: Bits): (r: Block)
    requires |nonce| == 96
  {
    KeyHalf(aes, key, nonce, 0) + KeyHalf(aes, key, nonce, 1)
  }

  /** The nonce is added and the top bit is cleared before the hash is encrypted. */
  function TagOf(aes: Keyed, ek: Bits, nonce: Bits, S: Block): (r: Block)
    requires |nonce| == 96
  {
    aes(ek, Xor(S[..96], nonce) + S[96..127] + [false])
  }

  /** The i-th counter block: the first four bytes count, the top bit is set. */
  function CounterBlock(siv: Block, i: nat): (r: Block) {
    hide ToNat, Pow2;
    FromNat((ToNat(siv[..32]) + i) % Pow2(32), 32) + siv[32..127] + [true]
  }

  // ---------------------------------------------------------------- the locker

  /** The counter that is used up. */
  const CTR_END: nat := 0x1_0000_0000

  /** The fields of the locker; ek and ak are the keys of the message. */
  datatype Fields = Siv(aes: Keyed, key: Bits, st: int, policy: nat, klstart: nat, partial: Bits, nonce: Bits, ctr: nat,
                        tmp: Block, siv: Block, lbl: nat, ek: Bits, ak: Block)

  type Siv = m: Fields | |m.nonce| == 96 && m.lbl <= 120 witness
    Fields.Siv((k, b) => b, [], INVALID, 0, 0, [], Zeros(96), 0, Zeros(128), Zeros(128), 0, [], Zeros(128))

  datatype Instr =
    | SetSt(target: int, form: Form, xs: nat, inp: Bits)
    | Exec(form: Form, inp: Bits, kllen: Option<nat>, klstart: nat, haltAt: Option<nat>)
    | Restrict(mask: nat)

  datatype Outcome = Outcome(m: Siv, out: Bits, reached: nat)

  predicate Admits(cur: int, st: int) {
    || (cur == READY && st == SAV) || (cur == SAV && (st == SAV2 || st == ABSORB)) || (cur == SAV2 && st == ABSORB)
    || (cur == ABSORB && (st == ETF || st == DEC)) || (cur == ENC && st == ELB) || (cur == DEC && (st == DLB ||
        st == DTF))
  }

  function SetForm(st: int): Option<Form> {
    if st == SAV || st == SAV2 then Some(FormC)
    else if st == ABSORB || st == ETF || st == ENC || st == DEC || st == DTF then Some(FormA)
    else if st == ELB || st == DLB then Some(FormB)
    else None
  }

  function ExecForm(st: int): Option<Form> {
    if st == ABSORB || st == DTF then Some(FormB)
    else if st == ETF || st == ENC || st == ELB || st == DEC || st == DLB then Some(FormA)
    else None
  }

  function Fail(m: Siv): Siv {
    m.(st := INVALID)
  }

  /** Entering Ready: last_block_len is left, the message keys are forgotten. */
  function Ready(m: Siv): Siv {
    m.(st := READY, nonce := Zeros(96), ctr := 0, tmp := Zeros(128), siv := Zeros(128), ek := [], ak := Zeros(128))
  }

  function Create(aes: Keyed, key: Bits, policy: nat): Siv
    requires 0 < policy < 4
  {
    Fields.Siv(aes, key, READY, policy, 0, [], Zeros(96), 0, Zeros(128), Zeros(128), 0, [], Zeros(128))
  }

  /** The message keys for a nonce. */
  function WithNonce(m: Siv, nonce: Bits): Siv
    requires |nonce| == 96
  {
    m.(nonce := nonce, ek := EncKey(m.aes, m.key, nonce), ak := AuthKey(m.aes, m.key, nonce))
  }

  function Enter(m: Siv, st: int, xs: nat, inp: Bits): Option<Siv> {
    if st == SAV then Some(WithNonce(m.(st := st), Slice(inp, 0, 96)))
    else if st == SAV2 then Some(m.(st := st, siv := Slice(inp, 0, 128)))
    else if st == ELB || st == DLB then (if xs % 8 == 0 && 8 <= xs <= 120 then Some(m.(st := st, lbl := xs)) else None)
    else Some(m.(st := st))
  }

  function DoSetSt(m: Siv, st: int, form: Form, xs: nat, inp: Bits): Siv {
    if m.st == INVALID then m
    else if st == READY then (if form == FormA then Ready(m) else Fail(m))
    else if Admits(m.st, st) && FormOk(SetForm(st), form, xs, inp) && Allowed(m.policy, st) then
      match Enter(m, st, xs, if form == FormA then [] else inp)
      case None => Fail(m)
      case Some(m') => m'
    else Fail(m)
  }

  function AbsorbBlock(m: Siv, d: Block): Siv {
    m.(tmp := Montmul(Xor(m.tmp, d), m.ak))
  }

  function Keystream(m: Siv): Block {
    m.aes(m.ek, CounterBlock(m.siv, m.ctr))
  }

  function BlockStep(m: Siv, x: Block): Option<(Siv, Block)> {
    if m.st == ABSORB then Some((AbsorbBlock(m, x), Zeros(128)))
    else if m.ctr == CTR_END then None
    else
      var o := Xor(x, Keystream(m));
      var m1 := m.(ctr := m.ctr + 1);
      Some((if m.st == DEC then AbsorbBlock(m1, o) else m1, o))
  }

  function FailOut(m: Siv, reached: nat): Outcome {
    Outcome(m.(st := INVALID, partial := []), m.partial, reached)
  }

  function Concluded(t: Transfer<Siv>): Outcome {
    match t.end
    case Done => Outcome(t.s, t.out, t.reached)
    case Halted => Outcome(t.s.(klstart := 16 * t.reached, partial := t.out), t.out, t.reached)
    case Failed => FailOut(t.s.(partial := t.out), t.reached)
  }

  function Multi(m: Siv, inp: Bits, kllen: Option<nat>, klstart: nat, haltAt: Option<nat>): Outcome {
    if kllen.None? || kllen.value % 128 != 0 || klstart * 8 % 128 != 0 then FailOut(m, 0)
    else
      var k, n := klstart * 8 / 128, kllen.value / 128;
      if k >= n then Outcome(m.(partial := []), Zeros(128 * k), k)
      else Concluded(TransferFrom<Siv>(BlockStep, m.(partial := []), inp, k, n, k, haltAt, Zeros(128 * k)))
  }

  function Final(m: Siv): Block {
    TagOf(m.aes, m.ek, m.nonce, m.tmp)
  }

  /** The length block closes the hash; the tag becomes the synthetic IV, and is handed out. */
  function MakeTag(m: Siv, inp: Bits, kllen: Option<nat>): Outcome {
    if kllen.None? || kllen.value < 128 then FailOut(m, 0)
    else
      var m1 := AbsorbBlock(m, Slice(inp, 0, 128));
      var tag := Final(m1);
      Outcome(m1.(tmp := tag, siv := tag, st := ENC), tag, 1)
  }

  /** The last, partial block; decryption goes on to the tag. */
  function LastBlock(m: Siv, inp: Bits, kllen: Option<nat>): Outcome {
    if kllen.None? || kllen.value < m.lbl || m.lbl == 0 || m.ctr == CTR_END then FailOut(m, 0)
    else
      var o := Xor(Slice(inp, 0, m.lbl), Keystream(m)[..m.lbl]);
      var m1 := m.(ctr := m.ctr + 1, lbl := 0);
      Outcome(if m.st == DLB then AbsorbBlock(m1, Placed(o, 0)).(st := DTF) else m1, o, 1)
  }

  function CheckTag(m: Siv, inp: Bits, kllen: Option<nat>): Outcome {
    if kllen.None? || kllen.value < 128 then FailOut(m, 0)
    else
      var m1 := AbsorbBlock(m, Slice(inp, 0, 128));
      var tag := Final(m1);
      Outcome(m1.(tmp := tag, st := if tag == m.siv then SUCCESS else FAILURE), [], 1)
  }

  function Work(m: Siv, inp: Bits, kllen: Option<nat>, klstart: nat, haltAt: Option<nat>): Outcome {
    if m.st == ABSORB || m.st == ENC || m.st == DEC then Multi(m, inp, kllen, klstart, haltAt)
    else if m.st == ETF then MakeTag(m, inp, kllen)
    else if m.st == ELB || m.st == DLB then LastBlock(m, inp, kllen)
    else CheckTag(m, inp, kllen)
  }

  function DoExec(m0: Siv, form: Form, inp: Bits, kllen: Option<nat>, klstart: nat, haltAt: Option<nat>): Outcome {
    if m0.st == INVALID then Outcome(m0, [], 0)
    else
      var m := m0.(klstart := 0);
      if !Allowed(m.policy, m.st) || ExecForm(m.st) != Some(form) then FailOut(m, 0)
      else if kllen.Some? && klstart * 8 >= kllen.value && !((m.st == ELB || m.st == DLB) &&
          m.lbl == 0) then Outcome(m, [], 0)
      else Work(m, inp, kllen, klstart, haltAt)
  }

  function DoRestrict(m: Siv, mask: nat): Siv {
    if m.st == INVALID then m
    else
      var p := And2(m.policy, mask);
      if p == 0 then Fail(m.(policy := p)) else m.(policy := p)
  }

  function Step(m: Siv, i: Instr): Outcome {
    match i
    case SetSt(st, form, xs, inp) => Outcome(DoSetSt(m, st, form, xs, inp), [], 0)
    case Exec(form, inp, kllen, klstart, haltAt) => DoExec(m, form, inp, kllen, klstart, haltAt)
    case Restrict(mask) => Outcome(DoRestrict(m, mask), [], 0)
  }

  // ---------------------------------------------------------------- Serialized Content

  /** The counter that is used up takes the top bit of the last field. */
  function Parts(m: Siv): seq<Bits> {
    [m.key, m.nonce, FromNat(m.ctr, 32), m.siv, m.tmp, FromNat(m.lbl, 15) + [m.ctr >= CTR_END]]
  }

  function Export(m: Siv): Bits {
    BitFields.Fields(Parts(m))
  }

  function Import(aes: Keyed, keyLen: nat, policy: nat, st: int, sc: Bits): Siv {
    var f := Cut(sc, [keyLen, 96, 32, 128, 128, 16]);
    var ctr := ToNat(f[2]) + if f[5][15] then CTR_END else 0;
    assert Pow2(7) == 128;
    var lbl := ToNat(f[5][..7]);
    var m := Fields.Siv(aes, f[0], st, policy, 0, [], f[1], ctr, f[4], f[3], if lbl <= 120 then lbl
        else 0, [], Zeros(128));
    if st != READY then WithNonce(m, f[1]) else m
  }
}
