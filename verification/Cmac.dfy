/**
 The CMAC Machine with its Serialized Content, and CMAC of a whole message (SP 800-38B section 6.2) beside it.
 */
module CmacMachine {
  import opened Wrappers
  import opened Modular
  import opened BitStrings
  import opened BitFields
  import opened Gf128
  import opened AeadBase
  import opened BlockNumbers
  import opened Transfers

  /** The cipher for each key. */
  type Family = Bits -> Cipher

  datatype Cmac = Cmac(E: Cipher, st: int, policy: nat, klstart: nat, partial: Bits, tagLenP: nat, hash: Block,
      lbl: nat,
                       tagLen: nat, any: bool, all: bool)

  datatype Instr =
    | SetSt(target: int, form: Form, xs: nat, inp: Bits)
    | Exec(form: Form, inp: Bits, kllen: Option<nat>, klstart: nat, haltAt: Option<nat>)
    | Restrict(mask: nat)

  /** The new state, the value of OUTPUT, and how many blocks or pieces of the input were consumed. */
  datatype Outcome = Outcome(m: Cmac, out: Bits, reached: nat)

  // ---------------------------------------------------------------- the reference

  function RefSubkey1(E: Cipher): Block {
    RefDouble(E(Zeros(128)))
  }

  function RefSubkey2(E: Cipher): Block {
    RefDouble(RefSubkey1(E))
  }

  /** The chaining value after i blocks. */
  function ChainLoop(E: Cipher, msg: Bits, i: nat): Block
    requires 128 * i <= |msg|
  {
    if i == 0 then Zeros(128) else E(Xor(ChainLoop(E, msg, i - 1), BlockAt(msg, i - 1)))
  }

  /** The number of blocks before the last one; the empty message has an empty last block. */
  function Before(n: nat): (k: nat)
    ensures n > 0 ==> 128 * k < n <= 128 * k + 128
    ensures n == 0 ==> k == 0
  {
    if n == 0 then 0 else (n - 1) / 128
  }

  function MacOf(E: Cipher, msg: Bits): Block
    requires |msg| % 8 == 0
  {
    var k := Before(|msg|);
    var last := msg[128 * k..];
    assert |last| <= 128 && (|last| < 128 ==> |last| <= 120);
    E(Xor(ChainLoop(E, msg, k), if |last| == 128 then Xor(last, RefSubkey1(E)) else Xor(RefPad(last), RefSubkey2(E))))
  }

  // ---------------------------------------------------------------- tables

  predicate AdmitsTagLen(t: nat) {
    64 <= t <= 128 && t % 8 == 0
  }

  predicate Admits(cur: int, st: int) {
    (cur == READY && st == ABSORB) || (cur == ABSORB && st == HABL) || (cur == HABL && (st == HOUT || st == VERIFY))
  }

  function SetForm(st: int): Option<Form> {
    if st == ABSORB || st == HOUT then Some(FormA) else if st == HABL || st == VERIFY then Some(FormB) else None
  }

  function ExecForm(st: int): Option<Form> {
    if st == ABSORB || st == HABL || st == VERIFY then Some(FormB) else if st == HOUT then Some(FormC) else None
  }

  predicate Permits(policy: nat, st: int) {
    if st == HOUT then policy % 2 == 1 else if st == VERIFY then policy / 2 % 2 == 1 else true
  }

  // ---------------------------------------------------------------- state changes

  function Subkey1(E: Cipher): Block {
    Double(E(Zeros(128)))
  }

  function Subkey2(E: Cipher): Block {
    Double(Subkey1(E))
  }

  function Fail(m: Cmac): Cmac {
    m.(st := INVALID)
  }

  function Ready(m: Cmac): Cmac {
    m.(st := READY, hash := Zeros(128), lbl := 0, tagLen := 0, any := false, all := false)
  }

  function Create(E: Cipher, policy: nat, tagLenP: nat): Cmac
    requires 0 < policy < 4
  {
    Cmac(E, if AdmitsTagLen(tagLenP) then READY else INVALID, policy, 0, [], tagLenP, Zeros(128), 0, 0, false, false)
  }

  function Enter(m: Cmac, st: int, xs: nat): Option<Cmac> {
    if st == HABL then
      if xs % 8 != 0 || xs > 128 || (xs == 0 && m.any) then None
      else if xs == 0 then
        Some(m.(st := st, lbl := 0, all := true, hash := m.E(Xor(Xor(m.hash, PadOne([])), Subkey2(m.E)))))
      else Some(m.(st := st, lbl := xs))
    else if st == HOUT then (if m.all then Some(m.(st := st)) else None)
    else if st == VERIFY then
      if xs % 8 == 0 && xs >= 64 && m.all && Min(xs, 128) == m.tagLenP then Some(m.(st := st, tagLen := Min(xs, 128)))
      else None
    else Some(m.(st := st))
  }

  function DoSetSt(m: Cmac, st: int, form: Form, xs: nat, inp: Bits): Cmac {
    if m.st == INVALID then m
    else if st == READY then (if form == FormA then Ready(m) else Fail(m))
    else if Admits(m.st, st) && FormOk(SetForm(st), form, xs, inp) && Permits(m.policy, st) then
      match Enter(m, st, xs)
      case None => Fail(m)
      case Some(m') => m'
    else Fail(m)
  }

  /** One whole block; nothing is handed out. */
  function BlockStep(m: Cmac, x: Block): Option<(Cmac, Block)> {
    Some((m.(hash := m.E(Xor(m.hash, x)), any := true), Zeros(128)))
  }

  function FailOut(m: Cmac, reached: nat): Outcome {
    Outcome(m.(st := INVALID, partial := []), m.partial, reached)
  }

  function Concluded(t: Transfer<Cmac>): Outcome {
    match t.end
    case Done => Outcome(t.s, t.out, t.reached)
    case Halted => Outcome(t.s.(klstart := 16 * t.reached, partial := t.out), t.out, t.reached)
    case Failed => FailOut(t.s.(partial := t.out), t.reached)
  }

  function Multi(m: Cmac, inp: Bits, kllen: Option<nat>, klstart: nat, haltAt: Option<nat>): Outcome {
    if kllen.None? || kllen.value % 128 != 0 || klstart * 8 % 128 != 0 then FailOut(m, 0)
    else
      var k, n := klstart * 8 / 128, kllen.value / 128;
      if k >= n then Outcome(m.(partial := []), Zeros(128 * k), k)
      else Concluded(TransferFrom<Cmac>(BlockStep, m.(partial := []), inp, k, n, k, haltAt, Zeros(128 * k)))
  }

  /** The last block, whole or padded. */
  function LastBlock(m: Cmac, inp: Bits, kllen: Option<nat>): Outcome {
    if kllen.None? || kllen.value < m.lbl || m.all || m.lbl == 0 || m.lbl > 128 || m.lbl % 8 != 0 then FailOut(m, 0)
    else
      var x := Slice(inp, 0, m.lbl);
      assert m.lbl < 128 ==> m.lbl <= 120;
      var t := if m.lbl == 128 then Xor(Xor(m.hash, x), Subkey1(m.E)) else Xor(Xor(m.hash, PadOne(x)), Subkey2(m.E));
      Outcome(m.(hash := m.E(t), all := true), [], 1)
  }

  function EmitTag(m: Cmac, kllen: Option<nat>): Outcome {
    if kllen.None? || kllen.value < m.tagLenP then FailOut(m, 0)
    else Outcome(m.(st := SUCCESS), Slice(m.hash, 0, m.tagLenP), 0)
  }

  function CheckTag(m: Cmac, inp: Bits, kllen: Option<nat>): Outcome {
    if kllen.None? || kllen.value < m.tagLen then FailOut(m, 0)
    else
      var ok := Slice(inp, 0, m.tagLen) == Slice(m.hash, 0, m.tagLen);
      Outcome(m.(st := if ok then SUCCESS else FAILURE), [], 0)
  }

  function Work(m: Cmac, inp: Bits, kllen: Option<nat>, klstart: nat, haltAt: Option<nat>): Outcome {
    if m.st == ABSORB then Multi(m, inp, kllen, klstart, haltAt)
    else if m.st == HABL then LastBlock(m, inp, kllen)
    else if m.st == HOUT then EmitTag(m, kllen)
    else CheckTag(m, inp, kllen)
  }

  function DoExec(m0: Cmac, form: Form, inp: Bits, kllen: Option<nat>, klstart: nat, haltAt: Option<nat>): Outcome {
    if m0.st == INVALID then Outcome(m0, [], 0)
    else
      var m := m0.(klstart := 0);
      if !Permits(m.policy, m.st) || ExecForm(m.st) != Some(form) then FailOut(m, 0)
      else if kllen.Some? && klstart * 8 >= kllen.value && !(m.st == HABL && (m.all ||
          m.lbl == 0)) then Outcome(m, [], 0)
      else Work(m, inp, kllen, klstart, haltAt)
  }

  function DoRestrict(m: Cmac, mask: nat): Cmac {
    if m.st == INVALID then m
    else
      var p := And2(m.policy, mask);
      if p == 0 then Fail(m.(policy := p)) else m.(policy := p)
  }

  function Step(m: Cmac, i: Instr): Outcome {
    match i
    case SetSt(st, form, xs, inp) => Outcome(DoSetSt(m, st, form, xs, inp), [], 0)
    case Exec(form, inp, kllen, klstart, haltAt) => DoExec(m, form, inp, kllen, klstart, haltAt)
    case Restrict(mask) => Outcome(DoRestrict(m, mask), [], 0)
  }

  // ---------------------------------------------------------------- Serialized Content

  function Parts(m: Cmac, key: Bits): seq<Bits> {
    [key, m.hash, FromNat(m.lbl, 32), FromNat(m.tagLen, 32), [m.any], [m.all]]
  }

  function Export(m: Cmac, key: Bits): Bits {
    Fields(Parts(m, key))
  }

  function Import(F: Family, keyLen: nat, policy: nat, tagLenP: nat, st: int, sc: Bits): Cmac {
    var f := Cut(sc, [keyLen, 128, 32, 32, 1, 1]);
    var m := Cmac(F(f[0]), st, policy, 0, [], tagLenP, f[1], ToNat(f[2]), ToNat(f[3]), f[4][0], f[5][0]);
    if AdmitsTagLen(tagLenP) then m else Fail(m)
  }
}
