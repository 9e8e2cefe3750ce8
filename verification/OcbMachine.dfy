/**
 The OCB and OCB_NONCE Machines: an offset and two sums that move on block by block, with a table of 49 doubled values
 that the number of trailing zeros of the block index selects from.  `Step` is the transition function; the class in
 OcbLocker changes its fields as the model's methods do and is proved to follow it.
 */
module OcbMachine {
  import opened Wrappers
  import opened Modular
  import opened BitStrings
  import opened Gf128
  import opened AeadBase
  import opened Transfers
  import opened OcbReference

  const MAX_BLOCKS: nat := 0x1_0000_0000_0000

  const TABLE_SIZE: nat := 49

  /** The fields of the locker; with preset, the nonce is part of the provisioning information (OCB_NONCE). */
  datatype Fields = Fields(k: Key, preset: bool, st: int, policy: nat, klstart: nat, partial: Bits, N: Bits, nlen: nat,
                           hasN: bool, hashA: Block, csum: Block, index: nat, offset: Block, lbl: nat, tagLen: nat,
                           Ls: Block, Ld: Block, table: seq<Block>)

  /** The States in which the table has been computed. */
  predicate InMessage(st: int) {
    st == ABSORB || st == HABL || st == ENC || st == DEC || st == ELB || st == DLB || st == ETF || st == VERIFY
  }

  /** What keeps every table look-up, every slice and every bit field inside its bounds. */
  predicate Bounded(m: Fields) {
    m.nlen <= 120 && m.lbl <= 120 && (InMessage(m.st) ==> |m.table| == TABLE_SIZE && m.index >= 1)
  }

  type Ocb = m: Fields | Bounded(m) witness
    Fields(Key(x => x, x => x), false, INVALID, 0, 0, [], [], 0, false, Zeros(128), Zeros(128), 0, Zeros(128), 0, 0,
           Zeros(128), Zeros(128), [])

  datatype Instr =
    | SetSt(target: int, form: Form, xs: nat, inp: Bits)
    | Exec(form: Form, inp: Bits, kllen: Option<nat>, klstart: nat, haltAt: Option<nat>)
    | Restrict(mask: nat)

  /** The new state, the value of OUTPUT, and how many blocks or pieces of the input were consumed. */
  datatype Outcome = Outcome(m: Ocb, out: Bits, reached: nat)

  // ---------------------------------------------------------------- tables

  lemma {:induction false} NtzBound(n: nat, k: nat)
    requires 0 < n <= Pow2(k)
    ensures Ntz(n) <= k
  {
    if n % 2 == 0 {
      NtzBound(n / 2, k - 1);
    }
  }

  /** Up to the last admitted index, the look-up stays inside the table. */
  lemma LookupInTable(index: nat)
    requires 1 <= index <= MAX_BLOCKS
    ensures Ntz(index) < TABLE_SIZE
  {
    hide Ntz;
    assert Pow2(12) == 4096;
    assert Pow2(24) == 0x100_0000;
    assert Pow2(36) == 0x10_0000_0000;
    assert Pow2(48) == MAX_BLOCKS;
    NtzBound(index, 48);
  }

  predicate Admits(preset: bool, cur: int, st: int) {
    || (cur == READY && st == (if preset then ABSORB else SAV))
    || (!preset && cur == SAV && (st == ABSORB || st == SAV))
    || (cur == ABSORB && st == HABL) || (cur == HABL && (st == ENC || st == DEC))
    || (cur == ENC && st == ELB) || (cur == ELB && st == ETF)
    || (cur == DEC && st == DLB) || (cur == DLB && st == VERIFY)
  }

  function SetForm(st: int): Option<Form> {
    if st == SAV || st == ABSORB || st == HABL || st == ELB || st == DLB then Some(FormB)
    else if st == ENC || st == DEC || st == ETF || st == VERIFY then Some(FormA)
    else None
  }

  /** An empty last block is asked for with Form D. */
  function ExecForm(st: int, lbl: nat): Option<Form> {
    if (st == ELB || st == DLB) && lbl == 0 then Some(FormD)
    else if st == SAV || st == ABSORB || st == HABL || st == VERIFY then Some(FormB)
    else if st == ENC || st == DEC || st == ELB || st == DLB then Some(FormA)
    else if st == ETF then Some(FormC)
    else None
  }

  // ---------------------------------------------------------------- the nonce

  /** The number of bytes of an n-bit nonce. */
  function NonceBytes(n: nat): nat {
    (n + 7) / 8
  }

  /** The nonce field with the pad bits of its last byte cleared. */
  function MaskNonce(x: Bits, n: nat): (r: Bits)
    ensures |r| == 8 * NonceBytes(n)
  {
    var q := NonceBytes(n);
    seq(8 * q, i requires 0 <= i < 8 * q => i < |x| && x[i] && !(8 * (q - 1) <= i < 8 * (q - 1) + (8 * q - n)))
  }

  /** The n nonce bits as a number: big-endian bytes without the pad bits of the last one. */
  function NonceBits(N: Bits, n: nat): (r: Bits)
    ensures |r| == n
  {
    var q := NonceBytes(n);
    ByteSwap(Slice(N, 0, 8 * q))[8 * q - n..]
  }

  /** The starting offset as the Machine computes it, from bit fields. */
  function StartOffset(E: Cipher, N: Bits, n: nat, tagLen: nat): (r: Block)
    requires n <= 120
  {
    var Nb := NonceBits(N, n) + [true] + Zeros(120 - n) + FromNat(tagLen % 128, 7);
    var bottom := ToNat(Nb[..6]);
    var Kb := ByteSwap(E(ByteSwap(Zeros(6) + Nb[6..])));
    var stretch := Xor(Kb[64..], Kb[56..120]) + Kb;
    assert Pow2(6) == 64;
    ByteSwap(Slice(stretch, 64 - bottom, 128))
  }

  // ---------------------------------------------------------------- state changes

  function Fail(m: Ocb): Ocb {
    m.(st := INVALID)
  }

  /** Entering Ready: the offset, L* and last_block_len are left, and so is a preset nonce. */
  function Ready(m: Ocb): Ocb {
    m.(st := READY, N := if m.preset then m.N else [], nlen := if m.preset then m.nlen else 0, hasN := false,
       hashA := Zeros(128), csum := Zeros(128), index := 0, tagLen := 128, Ld := Zeros(128), table := [])
  }

  predicate NonceOk(nonce: Option<(Bits, nat)>) {
    nonce.Some? ==> 6 <= nonce.value.1 <= 120
  }

  /** A provisioned locker; nonce is the preset nonce of OCB_NONCE with its length. */
  function Create(k: Key, nonce: Option<(Bits, nat)>, policy: nat): Ocb
    requires 0 < policy < 4 && (nonce.Some? ==> policy == 2) && NonceOk(nonce)
  {
    var (N, n) := if nonce.Some? then (MaskNonce(nonce.value.0, nonce.value.1), nonce.value.1) else ([], 0);
    Ready(Fields(k, nonce.Some?, INVALID, policy, 0, [], N, n, false, Zeros(128), Zeros(128), 0, Zeros(128), 0, 128,
                 Zeros(128), Zeros(128), []))
  }

  /** Entries i.. of the table, each the double of the one before. */
  function Doubles(x: Block, n: nat): (r: seq<Block>)
    ensures |r| == n
    decreases n
  {
    if n == 0 then [] else [Double(x)] + Doubles(Double(x), n - 1)
  }

  /** Starting a message: L*, L$ and the table. */
  function Setup(m: Ocb, tagLen: nat): Ocb {
    hide Double, Doubles;
    var Ls := m.k.E(Zeros(128));
    var Ld := Double(Ls);
    m.(st := ABSORB, Ls := Ls, Ld := Ld, table := Doubles(Ld, TABLE_SIZE), index := 1, tagLen := tagLen,
        offset := Zeros(128))
  }

  function Masked(m: Ocb, sum: Block, off: Block): Block {
    Xor(m.k.E(Xor(Xor(sum, off), m.Ld)), m.hashA)
  }

  function Enter(m: Ocb, st: int, xs: nat): Option<Ocb>
    requires Admits(m.preset, m.st, st)
  {
    if st == SAV then
      if 6 <= xs <= 120 then Some(m.(st := SAV, nlen := xs, N := [], hasN := false)) else None
    else if st == ABSORB then
      if (m.hasN || m.preset) && (xs == 64 || xs == 96 || xs == 128) then Some(Setup(m, xs)) else None
    else if st == ETF || st == VERIFY then
      if m.lbl == 0 && m.index <= MAX_BLOCKS then Some(m.(st := st, csum := Masked(m, m.csum, m.offset))) else None
    else if st == ENC || st == DEC then
      Some(m.(st := st, index := 1, offset := StartOffset(m.k.E, m.N, m.nlen, m.tagLen)))
    else
      if xs % 8 == 0 && xs <= 120 then Some(m.(st := st, lbl := xs)) else None
  }

  predicate LeaveOk(m: Ocb) {
    m.st == HABL ==> m.lbl == 0
  }

  function DoSetSt(m: Ocb, st: int, form: Form, xs: nat, inp: Bits): Ocb {
    if m.st == INVALID then m
    else if st == READY then (if form == FormA then Ready(m) else Fail(m))
    else if Admits(m.preset, m.st, st) && FormOk(SetForm(st), form, xs, inp) && Allowed(m.policy, st) && LeaveOk(m) then
      match Enter(m, st, xs)
      case None => Fail(m)
      case Some(m') => m'
    else Fail(m)
  }

  // ---------------------------------------------------------------- kl.exec

  /** One block of associated data or of the message: none when the index is exhausted. */
  function BlockStep(m: Ocb, x: Block): Option<(Ocb, Block)> {
    hide Ntz;
    if !(m.st == ABSORB || m.st == ENC || m.st == DEC) || m.index > MAX_BLOCKS then None
    else
      LookupInTable(m.index);
      var off := Xor(m.offset, m.table[Ntz(m.index)]);
      if m.st == ABSORB then
        Some((m.(offset := off, hashA := Xor(m.hashA, m.k.E(Xor(x, off))), index := m.index + 1), Zeros(128)))
      else if m.st == ENC then
        Some((m.(offset := off, csum := Xor(m.csum, x), index := m.index + 1), Xor(off, m.k.E(Xor(x, off)))))
      else
        var t := Xor(off, m.k.D(Xor(x, off)));
        Some((m.(offset := off, csum := Xor(m.csum, t), index := m.index + 1), t))
  }

  /** A failed instruction hands out what the interrupted or failed transfer had produced so far. */
  function FailOut(m: Ocb, reached: nat): Outcome {
    Outcome(m.(st := INVALID, partial := []), m.partial, reached)
  }

  /** What a transfer leaves: a halt leaves the position and the partial output in the locker. */
  function Concluded(t: Transfer<Ocb>): Outcome {
    match t.end
    case Done => Outcome(t.s, t.out, t.reached)
    case Halted => Outcome(t.s.(klstart := 16 * t.reached, partial := t.out), t.out, t.reached)
    case Failed => FailOut(t.s.(partial := t.out), t.reached)
  }

  /** The transfer of whole blocks. */
  function Multi(m: Ocb, inp: Bits, kllen: Option<nat>, klstart: nat, haltAt: Option<nat>): Outcome {
    if kllen.None? || kllen.value % 128 != 0 || klstart * 8 % 128 != 0 then FailOut(m, 0)
    else
      var k, n := klstart * 8 / 128, kllen.value / 128;
      if k >= n then Outcome(m.(partial := []), Zeros(128 * k), k)
      else Concluded(TransferFrom<Ocb>(BlockStep, m.(partial := []), inp, k, n, k, haltAt, Zeros(128 * k)))
  }

  function LoadNonce(m: Ocb, inp: Bits, kllen: Option<nat>): Outcome {
    if kllen.None? || kllen.value < 8 * NonceBytes(m.nlen) then FailOut(m, 0)
    else Outcome(m.(N := MaskNonce(inp, m.nlen), hasN := true), [], 1)
  }

  /** The last piece of associated data. */
  function LastAad(m: Ocb, inp: Bits, kllen: Option<nat>): Outcome {
    if m.lbl == 0 || kllen.None? || kllen.value < m.lbl || m.index > MAX_BLOCKS then FailOut(m, 0)
    else
      var off := Xor(m.offset, m.Ls);
      Outcome(m.(offset := off, hashA := Xor(m.hashA, m.k.E(Xor(PadOne(Slice(inp, 0, m.lbl)), off))), lbl := 0), [], 1)
  }

  function TagState(st: int): int {
    if st == ELB then ETF else VERIFY
  }

  /** The last piece of the message, and the tag. */
  function LastText(m: Ocb, inp: Bits, kllen: Option<nat>): Outcome
    requires m.st == ELB || m.st == DLB
  {
    if m.lbl == 0 then Outcome(m.(csum := Masked(m, m.csum, m.offset), st := TagState(m.st)), [], 1)
    else if kllen.None? || kllen.value < m.lbl || m.index > MAX_BLOCKS then FailOut(m, 0)
    else
      var off, x := Xor(m.offset, m.Ls), Slice(inp, 0, m.lbl);
      var o := Xor(x, m.k.E(off)[..m.lbl]);
      var t := Xor(off, PadOne(if m.st == ELB then x else o));
      Outcome(m.(offset := off, csum := Xor(m.k.E(Xor(Xor(m.csum, t), m.Ld)), m.hashA), st := TagState(m.st)), o, 1)
  }

  function EmitTag(m: Ocb, kllen: Option<nat>): Outcome {
    if kllen.None? || kllen.value < m.tagLen then FailOut(m, 0)
    else Outcome(m.(st := SUCCESS), Slice(m.csum, 0, m.tagLen), 0)
  }

  function CheckTag(m: Ocb, inp: Bits, kllen: Option<nat>): Outcome {
    if kllen.None? || kllen.value < m.tagLen then FailOut(m, 0)
    else
      var ok := Slice(inp, 0, m.tagLen) == Slice(m.csum, 0, m.tagLen);
      Outcome(m.(st := if ok then SUCCESS else FAILURE), [], 0)
  }

  /** The work of a kl.exec that its State admits. */
  function Work(m: Ocb, inp: Bits, kllen: Option<nat>, klstart: nat, haltAt: Option<nat>): Outcome {
    if m.st == SAV then LoadNonce(m, inp, kllen)
    else if m.st == ABSORB || m.st == ENC || m.st == DEC then Multi(m, inp, kllen, klstart, haltAt)
    else if m.st == HABL then LastAad(m, inp, kllen)
    else if m.st == ELB || m.st == DLB then LastText(m, inp, kllen)
    else if m.st == ETF then EmitTag(m, kllen)
    else CheckTag(m, inp, kllen)
  }

  /** The window of the instruction is empty, and the State admits one. */
  predicate EmptyWindow(m: Ocb, kllen: Option<nat>, klstart: nat) {
    kllen.Some? && klstart * 8 >= kllen.value && !(m.st == HABL && m.lbl == 0)
  }

  function DoExec(m0: Ocb, form: Form, inp: Bits, kllen: Option<nat>, klstart: nat, haltAt: Option<nat>): Outcome {
    if m0.st == INVALID then Outcome(m0, [], 0)
    else
      var m := m0.(klstart := 0);
      if !Allowed(m.policy, m.st) || ExecForm(m.st, m.lbl) != Some(form) then FailOut(m, 0)
      else if EmptyWindow(m, kllen, klstart) then Outcome(m, [], 0)
      else Work(m, inp, kllen, klstart, haltAt)
  }

  function DoRestrict(m: Ocb, mask: nat): Ocb {
    if m.st == INVALID then m
    else
      var p := And2(m.policy, mask);
      if p == 0 then Fail(m.(policy := p)) else m.(policy := p)
  }

  function Step(m: Ocb, i: Instr): Outcome {
    match i
    case SetSt(st, form, xs, inp) => Outcome(DoSetSt(m, st, form, xs, inp), [], 0)
    case Exec(form, inp, kllen, klstart, haltAt) => DoExec(m, form, inp, kllen, klstart, haltAt)
    case Restrict(mask) => Outcome(DoRestrict(m, mask), [], 0)
  }
}
