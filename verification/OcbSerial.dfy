/**
 Export and import of an OCB or OCB_NONCE locker: the round trip, and when the imported locker behaves as the original
 under every later run.
 */
module OcbSerial {
  import opened Wrappers
  import opened Modular
  import opened BitStrings
  import opened BitFields
  import opened Gf128
  import opened AeadBase
  import opened Transfers
  import opened OcbReference
  import opened OcbMachine
  import opened OcbCorrect
  import opened OcbRuns

  /** The block cipher and its inverse for each key. */
  type Family = Bits -> Key

  // ---------------------------------------------------------------- Serialized Content

  /** 64, 96 and 128 bits in two bits. */
  function TagCode(tagLen: nat): nat {
    if tagLen == 64 then 0 else if tagLen == 96 then 1 else 2
  }

  function Parts(m: Ocb, key: Bits): seq<Bits> {
    [key, Slice(m.N, 0, 120), FromNat(m.nlen, 7), [false], m.Ls, m.offset, m.hashA, m.csum, FromNat(m.index, 49),
     FromNat(TagCode(m.tagLen), 2), FromNat(m.lbl, 7)]
  }

  function Export(m: Ocb, key: Bits): Bits {
    BitFields.Fields(Parts(m, key))
  }

  /** The doubled values are computed again, except where a message has not started. */
  function WithTable(m: Fields): Fields {
    var L := m.k.E(Zeros(128));
    if m.st == READY || m.st == SAV then m else m.(Ls := L, Ld := Double(L), table := Doubles(Double(L), TABLE_SIZE))
  }

  /**
   The locker made from Serialized Content, a State and the metadata: whether the nonce has been read is told from its
   length.  None for an image that no locker exports (a length above 120, or index 0 within a message).
   */
  function Import(F: Family, preset: bool, keyLen: nat, policy: nat, st: int, sc: Bits): Option<Ocb> {
    var f := Cut(sc, [keyLen, 120, 7, 1, 128, 128, 128, 128, 49, 2, 7]);
    var nlen, index, code, lbl := ToNat(f[2]), ToNat(f[8]), ToNat(f[9]), ToNat(f[10]);
    var m := OcbMachine.Fields(F(f[0]), preset, st, policy, 0, [], f[1], nlen, nlen != 0, f[6], f[7], index, f[5], lbl,
                               32 * (code + 2), Zeros(128), Zeros(128), []);
    if nlen > 120 || lbl > 120 || (InMessage(st) && index == 0) then None
    else if code == 3 || (preset && nlen < 6) then Some(m.(st := INVALID))
    else Some(WithTable(m))
  }

  // ---------------------------------------------------------------- every reachable locker fits

  ghost predicate TablesOf(m: Ocb) {
    var L := m.k.E(Zeros(128));
    m.Ls == L && m.Ld == Double(L) && m.table == Doubles(Double(L), TABLE_SIZE)
  }

  /** Every field fits its place in the Serialized Content. */
  ghost predicate Fits(m: Ocb) {
    m.st != INVALID ==>
      && m.index <= MAX_BLOCKS + 1 && |m.N| <= 120
      && (m.tagLen == 64 || m.tagLen == 96 || m.tagLen == 128)
      && (if m.preset then m.nlen >= 6 else m.st == READY ==> m.nlen == 0)
      && (m.st == SAV ==> !m.preset && m.nlen >= 6)
      && (InMessage(m.st) ==> TablesOf(m))
  }

  ghost predicate Sized(m0: Ocb, m: Ocb) {
    Fits(m) && m.st == m0.st
  }

  lemma BlockKeepsFits(m: Ocb, x: Block)
    requires Fits(m) && BlockStep(m, x).Some?
    ensures Fits(BlockStep(m, x).value.0) && BlockStep(m, x).value.0.st == m.st
  {
    hide Ntz, Xor, Double, Doubles;
    LookupInTable(m.index);
  }

  lemma TransferKeepsFits(m: Ocb, inp: Bits, k: nat, n: nat, haltAt: Option<nat>)
    requires k <= n && Fits(m)
    ensures Sized(m, TransferFrom<Ocb>(BlockStep, m, inp, k, n, k, haltAt, Zeros(128 * k)).s)
  {
    hide BlockStep, InputBlocks, Fits;
    var keeps := (s: Ocb, xs: seq<Block>, ys: seq<Block>) => Sized(m, s);
    forall s: Ocb, xs: seq<Block>, ys: seq<Block>, x: Block | keeps(s, xs, ys) && BlockStep(s, x).Some?
      ensures keeps(BlockStep(s, x).value.0, xs + [x], ys + [BlockStep(s, x).value.1])
    {
      BlockKeepsFits(s, x);
    }
    var outs := TransferKeeps<Ocb>(BlockStep, keeps, m, [], [], inp, k, n, k, haltAt, Zeros(128 * k));
  }

  lemma FitsAnywhere(m: Ocb, klstart: nat, partial: Bits)
    requires Fits(m)
    ensures Fits(m.(klstart := klstart, partial := partial))
  {
    hide Double, Doubles;
  }

  lemma MultiKeepsFits(m: Ocb, inp: Bits, kllen: Option<nat>, klstart: nat, haltAt: Option<nat>)
    requires Fits(m)
    ensures Fits(Multi(m, inp, kllen, klstart, haltAt).m)
  {
    hide Fits, TransferFrom, BlockStep;
    FitsAnywhere(m, m.klstart, []);
    FailedFits(m);
    if kllen.Some? && klstart * 8 / 128 < kllen.value / 128 {
      var k, n, m0 := klstart * 8 / 128, kllen.value / 128, m.(partial := []);
      TransferKeepsFits(m0, inp, k, n, haltAt);
      var t := TransferFrom<Ocb>(BlockStep, m0, inp, k, n, k, haltAt, Zeros(128 * k));
      FitsAnywhere(t.s, 16 * t.reached, t.out);
      FailedFits(t.s);
    }
  }

  lemma FailedFits(m: Ocb)
    ensures Fits(m.(st := INVALID, partial := []))
  {
  }

  lemma NonceKeepsFits(m: Ocb, inp: Bits, kllen: Option<nat>)
    requires Fits(m) && m.st == SAV
    ensures Fits(LoadNonce(m, inp, kllen).m)
  {
    hide MaskNonce, TablesOf;
    assert NonceBytes(m.nlen) <= 15;
  }

  lemma AadKeepsFits(m: Ocb, inp: Bits, kllen: Option<nat>)
    requires Fits(m) && m.st == HABL
    ensures Fits(LastAad(m, inp, kllen).m)
  {
    hide Slice, Xor, PadOne, Double, Doubles;
  }

  lemma TextKeepsFits(m: Ocb, inp: Bits, kllen: Option<nat>)
    requires Fits(m) && (m.st == ELB || m.st == DLB)
    ensures Fits(LastText(m, inp, kllen).m)
  {
    hide Slice, Xor, PadOne, Double, Doubles;
  }

  lemma WorkKeepsFits(m: Ocb, inp: Bits, kllen: Option<nat>, klstart: nat, haltAt: Option<nat>)
    requires Fits(m) && m.st != INVALID
    ensures Fits(Work(m, inp, kllen, klstart, haltAt).m)
  {
    hide Multi, LoadNonce, LastAad, LastText, Slice, Double, Doubles;
    if m.st == SAV {
      NonceKeepsFits(m, inp, kllen);
    } else if m.st == ABSORB || m.st == ENC || m.st == DEC {
      MultiKeepsFits(m, inp, kllen, klstart, haltAt);
    } else if m.st == HABL {
      AadKeepsFits(m, inp, kllen);
    } else if m.st == ELB || m.st == DLB {
      TextKeepsFits(m, inp, kllen);
    }
  }

  lemma EnterKeepsFits(m: Ocb, st: int, xs: nat)
    requires Fits(m) && m.st != INVALID && Admits(m.preset, m.st, st) && Enter(m, st, xs).Some?
    ensures Fits(Enter(m, st, xs).value)
  {
    hide Xor, StartOffset, Double, Doubles;
  }

  lemma StepKeepsFits(m: Ocb, i: Instr)
    requires Fits(m)
    ensures Fits(Step(m, i).m)
  {
    hide Work, Enter, FormOk, Allowed, Double, Doubles;
    match i
    case SetSt(st, form, xs, inp) =>
      if m.st != INVALID && st != READY && Admits(m.preset, m.st, st) && Enter(m, st, xs).Some? {
        EnterKeepsFits(m, st, xs);
      }
    case Exec(form, inp, kllen, klstart, haltAt) =>
      if m.st != INVALID {
        WorkKeepsFits(m.(klstart := 0), inp, kllen, klstart, haltAt);
      }
    case Restrict(mask) =>
  }

  lemma {:induction false} RunKeepsFits(m: Ocb, h: History, instrs: seq<Instr>)
    requires Fits(m)
    ensures Fits(After(m, h, instrs).0)
    decreases instrs
  {
    hide Fits, Step, HistoryStep;
    if instrs != [] {
      StepKeepsFits(m, instrs[0]);
      RunKeepsFits(Step(m, instrs[0]).m, HistoryStep(m, h, instrs[0]), instrs[1..]);
    }
  }

  lemma RunFits(k: Key, nonce: Option<(Bits, nat)>, policy: nat, instrs: seq<Instr>)
    requires 0 < policy < 4 && (nonce.Some? ==> policy == 2) && NonceOk(nonce)
    ensures Fits(AfterRun(k, nonce, policy, instrs).0)
  {
    hide After;
    CreateFits(k, nonce, policy);
    RunKeepsFits(Create(k, nonce, policy), NOTHING.(nonce := if nonce.Some? then nonce.value.0 else []), instrs);
  }

  lemma CreateFits(k: Key, nonce: Option<(Bits, nat)>, policy: nat)
    requires 0 < policy < 4 && (nonce.Some? ==> policy == 2) && NonceOk(nonce)
    ensures Fits(Create(k, nonce, policy))
  {
  }

  // ---------------------------------------------------------------- the round trip

  lemma Powers()
    ensures Pow2(2) == 4 && Pow2(7) == 128 && Pow2(49) > MAX_BLOCKS + 1
  {
    assert Pow2(12) == 4096;
    assert Pow2(24) == 0x100_0000;
    assert Pow2(36) == 0x10_0000_0000;
    assert Pow2(48) == MAX_BLOCKS;
  }

  /**
   What survives: the nonce counts as read if it has a length, and the tables are those of a message if there is one.
   */
  function Imported(m: Ocb): Ocb {
    WithTable(m.(klstart := 0, partial := [], N := Slice(m.N, 0, 120), hasN := m.nlen != 0, Ls := Zeros(128),
                 Ld := Zeros(128), table := []))
  }

  lemma FieldNumbers(m: Ocb)
    requires Fits(m) && m.st != INVALID
    ensures ToNat(FromNat(m.nlen, 7)) == m.nlen && ToNat(FromNat(m.index, 49)) == m.index &&
            ToNat(FromNat(m.lbl, 7)) == m.lbl
    ensures var c := ToNat(FromNat(TagCode(m.tagLen), 2)); c != 3 && 32 * (c + 2) == m.tagLen
  {
    hide FromNat, ToNat, Pow2, TablesOf;
    Powers();
    Number(m.nlen, 7);
    Number(m.index, 49);
    Number(m.lbl, 7);
    Number(TagCode(m.tagLen), 2);
  }

  /** Importing what was exported. */
  lemma ImportExport(F: Family, m: Ocb, key: Bits)
    requires Fits(m) && m.st != INVALID && m.k == F(key)
    ensures Import(F, m.preset, |key|, m.policy, m.st, Export(m, key)) == Some(Imported(m))
  {
    hide FromNat, ToNat, Slice, Double, Doubles, TagCode;
    CutFields(Parts(m, key), [|key|, 120, 7, 1, 128, 128, 128, 128, 49, 2, 7]);
    FieldNumbers(m);
  }

  // ---------------------------------------------------------------- equal behaviour

  /**
   Lockers that may differ where the difference is never seen: the tables before a message, the length of the nonce
   field, and outside Set_Aux_Value whether the nonce was read.
   */
  ghost predicate Alike(a: Ocb, b: Ocb) {
    && a.st == b.st
    && (a.st != INVALID ==>
          && b == a.(klstart := b.klstart, partial := b.partial, N := b.N, hasN := b.hasN, Ls := b.Ls, Ld := b.Ld,
                     table := b.table)
          && SameValue(a.N, b.N)
          && (a.st == SAV ==> a.hasN == b.hasN)
          && (InMessage(a.st) ==> a.Ls == b.Ls && a.Ld == b.Ld && a.table == b.table))
  }

  lemma SameSlices(u: Bits, v: Bits, lo: nat, n: nat)
    requires SameValue(u, v)
    ensures Slice(u, lo, n) == Slice(v, lo, n)
  {
    forall i | 0 <= i < n
      ensures Slice(u, lo, n)[i] == Slice(v, lo, n)[i]
    {
      assert Bit(u, lo + i) == Bit(v, lo + i);
    }
  }

  lemma StartAlike(E: Cipher, M: Bits, N: Bits, n: nat, tagLen: nat)
    requires n <= 120 && SameValue(M, N)
    ensures StartOffset(E, M, n, tagLen) == StartOffset(E, N, n, tagLen)
  {
    hide Slice, Xor, ByteSwap, ToNat, FromNat;
    SameSlices(M, N, 0, 8 * NonceBytes(n));
    assert NonceBits(M, n) == NonceBits(N, n);
  }

  /** What a State change leaves of the pending output. */
  ghost predicate Untouched(a: Ocb, b: Ocb, a': Ocb, b': Ocb) {
    Alike(a', b') && (a'.st != INVALID ==> a'.partial == a.partial && b'.partial == b.partial)
  }

  lemma ReadyAlike(a: Ocb, b: Ocb)
    requires Alike(a, b) && a.st != INVALID
    ensures Untouched(a, b, Ready(a), Ready(b))
  {
    SameSelf([]);
  }

  /** A nonce length, or the start of a message. */
  lemma EnterFirstAlike(a: Ocb, b: Ocb, st: int, xs: nat)
    requires Alike(a, b) && a.st != INVALID && Admits(a.preset, a.st, st) && (st == SAV || st == ABSORB)
    ensures var ra, rb := Enter(a, st, xs), Enter(b, st, xs);
            ra.Some? == rb.Some? && (ra.Some? ==> Untouched(a, b, ra.value, rb.value))
  {
    hide Double, Doubles, SameValue;
    SameSelf([]);
  }

  lemma EnterLaterAlike(a: Ocb, b: Ocb, st: int, xs: nat)
    requires Alike(a, b) && a.st != INVALID && Admits(a.preset, a.st, st) && st != SAV && st != ABSORB
    ensures var ra, rb := Enter(a, st, xs), Enter(b, st, xs);
            ra.Some? == rb.Some? && (ra.Some? ==> Untouched(a, b, ra.value, rb.value))
  {
    hide StartOffset, Xor, SameValue;
    StartAlike(a.k.E, a.N, b.N, a.nlen, a.tagLen);
  }

  lemma SetStAlike(a: Ocb, b: Ocb, st: int, form: Form, xs: nat, inp: Bits)
    requires Alike(a, b)
    ensures Untouched(a, b, DoSetSt(a, st, form, xs, inp), DoSetSt(b, st, form, xs, inp))
  {
    hide Enter, Ready, FormOk, Allowed, SameValue;
    if a.st != INVALID {
      if st == READY {
        ReadyAlike(a, b);
      } else if Admits(a.preset, a.st, st) {
        if st == SAV || st == ABSORB {
          EnterFirstAlike(a, b, st, xs);
        } else {
          EnterLaterAlike(a, b, st, xs);
        }
      }
    }
  }

  /** In a transfer, alike lockers do the same block by block. */
  ghost predicate AlikeTransfers(s: Transfer<Ocb>, t: Transfer<Ocb>, a: Ocb, b: Ocb) {
    s.out == t.out && s.reached == t.reached && s.end == t.end && Untouched(a, b, s.s, t.s) &&
    s.s.st == a.st && s.s.klstart == a.klstart && t.s.klstart == b.klstart
  }

  lemma BlockAlike(a: Ocb, b: Ocb, x: Block)
    requires Alike(a, b) && a.st != INVALID
    ensures BlockStep(a, x).Some? == BlockStep(b, x).Some?
    ensures BlockStep(a, x).Some? ==>
              var (a1, oa), (b1, ob) := BlockStep(a, x).value, BlockStep(b, x).value;
              oa == ob && Untouched(a, b, a1, b1) && a1.st == a.st && a1.klstart == a.klstart && b1.klstart == b.klstart
  {
    hide Ntz, Xor, SameValue;
    if BlockStep(a, x).Some? {
      LookupInTable(a.index);
    }
  }

  lemma {:induction false} TransferAlike(a: Ocb, b: Ocb, inp: Bits, i: nat, n: nat, k: nat, haltAt: Option<nat>,
      out: Bits)
    requires Alike(a, b) && a.st != INVALID && i <= n
    ensures AlikeTransfers(TransferFrom<Ocb>(BlockStep, a, inp, i, n, k, haltAt, out),
                           TransferFrom<Ocb>(BlockStep, b, inp, i, n, k, haltAt, out), a, b)
    decreases n - i
  {
    hide BlockStep, Slice, Alike;
    var x := Slice(inp, 128 * i, 128);
    BlockAlike(a, b, x);
    if i < n && !(HaltsAt(haltAt, 128 * i) && i > k) && BlockStep(a, x).Some? {
      var (a1, oa) := BlockStep(a, x).value;
      var (b1, ob) := BlockStep(b, x).value;
      TransferAlike(a1, b1, inp, i + 1, n, k, haltAt, out + oa);
    }
  }

  ghost predicate AlikeOutcomes(oa: Outcome, ob: Outcome) {
    Alike(oa.m, ob.m) && SameValue(oa.out, ob.out) && SameValue(oa.m.partial, ob.m.partial)
  }

  lemma PositionAlike(a: Ocb, b: Ocb, p: nat, out: Bits)
    requires Alike(a, b)
    ensures Alike(a.(klstart := p, partial := out), b.(klstart := p, partial := out))
    ensures Alike(a.(klstart := p), b.(klstart := p)) && Alike(a.(partial := out), b.(partial := out))
    ensures Alike(a.(st := INVALID, partial := []), b.(st := INVALID, partial := []))
  {
    hide SameValue;
  }

  lemma MultiAlike(a: Ocb, b: Ocb, inp: Bits, kllen: Option<nat>, klstart: nat, haltAt: Option<nat>)
    requires a.st != INVALID && Alike(a, b) && SameValue(a.partial, b.partial)
    ensures AlikeOutcomes(Multi(a, inp, kllen, klstart, haltAt), Multi(b, inp, kllen, klstart, haltAt))
  {
    hide TransferFrom, BlockStep, Alike, SameValue;
    SameSelf([]);
    SameSelf(Zeros(128 * (klstart * 8 / 128)));
    FailedAlike(a, b);
    PositionAlike(a, b, 0, []);
    if kllen.Some? && klstart * 8 / 128 <= kllen.value / 128 {
      var k, n, a0, b0 := klstart * 8 / 128, kllen.value / 128, a.(partial := []), b.(partial := []);
      TransferAlike(a0, b0, inp, k, n, k, haltAt, Zeros(128 * k));
      var s := TransferFrom<Ocb>(BlockStep, a0, inp, k, n, k, haltAt, Zeros(128 * k));
      var t := TransferFrom<Ocb>(BlockStep, b0, inp, k, n, k, haltAt, Zeros(128 * k));
      SameSelf(s.out);
      PositionAlike(s.s, t.s, 16 * s.reached, s.out);
      FailedAlike(s.s.(partial := s.out), t.s.(partial := s.out));
    }
  }

  lemma FailedAlike(a: Ocb, b: Ocb)
    ensures Alike(FailOut(a, 0).m, FailOut(b, 0).m)
  {
  }

  lemma NonceAlike(a: Ocb, b: Ocb, inp: Bits, kllen: Option<nat>)
    requires a.st == SAV && Alike(a, b) && SameValue(a.partial, b.partial)
    ensures AlikeOutcomes(LoadNonce(a, inp, kllen), LoadNonce(b, inp, kllen))
  {
    hide MaskNonce, SameValue;
    SameSelf([]);
    SameSelf(MaskNonce(inp, a.nlen));
  }

  lemma LastAadAlike(a: Ocb, b: Ocb, inp: Bits, kllen: Option<nat>)
    requires a.st == HABL && Alike(a, b) && SameValue(a.partial, b.partial)
    ensures AlikeOutcomes(LastAad(a, inp, kllen), LastAad(b, inp, kllen))
  {
    hide Xor, Slice, PadOne, SameValue;
    SameSelf([]);
  }

  lemma LastTextAlike(a: Ocb, b: Ocb, inp: Bits, kllen: Option<nat>)
    requires (a.st == ELB || a.st == DLB) && Alike(a, b) && SameValue(a.partial, b.partial)
    ensures AlikeOutcomes(LastText(a, inp, kllen), LastText(b, inp, kllen))
  {
    hide Xor, Slice, PadOne, SameValue;
    SameSelf([]);
    SameSelf(LastText(a, inp, kllen).out);
  }

  lemma EmitAlike(a: Ocb, b: Ocb, kllen: Option<nat>)
    requires a.st == ETF && Alike(a, b) && SameValue(a.partial, b.partial)
    ensures AlikeOutcomes(EmitTag(a, kllen), EmitTag(b, kllen))
  {
    hide Slice, SameValue;
    SameSelf(EmitTag(a, kllen).out);
    SameSelf([]);
  }

  lemma CheckAlike(a: Ocb, b: Ocb, inp: Bits, kllen: Option<nat>)
    requires a.st == VERIFY && Alike(a, b) && SameValue(a.partial, b.partial)
    ensures AlikeOutcomes(CheckTag(a, inp, kllen), CheckTag(b, inp, kllen))
  {
    hide Slice, SameValue;
    SameSelf([]);
  }

  lemma WorkAlike(a: Ocb, b: Ocb, inp: Bits, kllen: Option<nat>, klstart: nat, haltAt: Option<nat>)
    requires a.st != INVALID && Alike(a, b) && SameValue(a.partial, b.partial)
    requires a.st == SAV || InMessage(a.st)
    ensures AlikeOutcomes(Work(a, inp, kllen, klstart, haltAt), Work(b, inp, kllen, klstart, haltAt))
  {
    hide Multi, LoadNonce, LastAad, LastText, EmitTag, CheckTag, SameValue, AlikeOutcomes;
    if a.st == SAV {
      NonceAlike(a, b, inp, kllen);
    } else if a.st == ABSORB || a.st == ENC || a.st == DEC {
      MultiAlike(a, b, inp, kllen, klstart, haltAt);
    } else if a.st == HABL {
      LastAadAlike(a, b, inp, kllen);
    } else if a.st == ELB || a.st == DLB {
      LastTextAlike(a, b, inp, kllen);
    } else if a.st == ETF {
      EmitAlike(a, b, kllen);
    } else {
      CheckAlike(a, b, inp, kllen);
    }
  }

  lemma ExecAlike(a: Ocb, b: Ocb, form: Form, inp: Bits, kllen: Option<nat>, klstart: nat, haltAt: Option<nat>)
    requires a.st != INVALID && Alike(a, b) && SameValue(a.partial, b.partial)
    ensures AlikeOutcomes(DoExec(a, form, inp, kllen, klstart, haltAt), DoExec(b, form, inp, kllen, klstart, haltAt))
  {
    hide Work, SameValue, Allowed;
    SameSelf([]);
    if ExecForm(a.st, a.lbl).Some? {
      WorkAlike(a.(klstart := 0), b.(klstart := 0), inp, kllen, klstart, haltAt);
    }
  }

  /** Alike lockers whose pending outputs are equal stay so, and hand out the same. */
  lemma StepAlike(a: Ocb, b: Ocb, i: Instr)
    requires Alike(a, b) && (a.st != INVALID ==> SameValue(a.partial, b.partial))
    ensures var oa, ob := Step(a, i), Step(b, i);
            Alike(oa.m, ob.m) && SameValue(oa.out, ob.out) && (oa.m.st != INVALID ==>
              SameValue(oa.m.partial, ob.m.partial))
  {
    hide DoExec, DoSetSt, SameValue;
    SameSelf([]);
    if a.st == INVALID {
      InvalidStep(a, i);
      InvalidStep(b, i);
    } else {
      match i
      case SetSt(st, form, xs, inp) => SetStAlike(a, b, st, form, xs, inp);
      case Exec(form, inp, kllen, klstart, haltAt) => ExecAlike(a, b, form, inp, kllen, klstart, haltAt);
      case Restrict(mask) =>
    }
  }

  lemma InvalidStep(m: Ocb, i: Instr)
    requires m.st == INVALID
    ensures Step(m, i).out == [] && Step(m, i).m == m
  {
    hide Work, Enter;
  }

  /** The two lockers hand out the same values and are in the same States, instruction by instruction. */
  ghost predicate Agree(a: Ocb, b: Ocb, instrs: seq<Instr>)
    decreases instrs
  {
    a.st == b.st &&
    (instrs != [] ==>
      SameValue(Step(a, instrs[0]).out, Step(b, instrs[0]).out) &&
      Agree(Step(a, instrs[0]).m, Step(b, instrs[0]).m, instrs[1..]))
  }

  lemma {:induction false} RunsAgree(a: Ocb, b: Ocb, instrs: seq<Instr>)
    requires Alike(a, b) && (a.st != INVALID ==> SameValue(a.partial, b.partial))
    ensures Agree(a, b, instrs)
    decreases instrs
  {
    hide Step, SameValue;
    if instrs != [] {
      StepAlike(a, b, instrs[0]);
      RunsAgree(Step(a, instrs[0]).m, Step(b, instrs[0]).m, instrs[1..]);
    }
  }

  lemma PaddedValue(v: Bits)
    requires |v| <= 120
    ensures SameValue(v, Slice(v, 0, 120))
  {
  }

  lemma ImportedAlike(m: Ocb)
    requires Fits(m) && m.st != INVALID && (m.st == SAV ==> m.hasN)
    ensures Alike(m, Imported(m))
  {
    hide SameValue, Slice, Double, Doubles;
    PaddedValue(m.N);
  }

  /**
   After any run that leaves the locker valid, the imported locker gives the same outputs and States as the original
   under every later run exactly when there is no output pending and no nonce still to be read: Serialized Content has
   no place for whether the nonce was read, and the import takes a nonce that has a length for one that was.
   */
  lemma ImportBehavesIff(F: Family, key: Bits, nonce: Option<(Bits, nat)>, policy: nat, instrs: seq<Instr>)
    requires 0 < policy < 4 && (nonce.Some? ==> policy == 2) && NonceOk(nonce)
    requires AfterRun(F(key), nonce, policy, instrs).0.st != INVALID
    ensures var m := AfterRun(F(key), nonce, policy, instrs).0;
            var c := Import(F, m.preset, |key|, m.policy, m.st, Export(m, key));
            c.Some? &&
            ((forall later :: Agree(m, c.value, later)) <==> SameValue(m.partial, []) && (m.st == SAV ==> m.hasN))
  {
    hide Fits, Inv, AfterRun, Agree, SameValue, Import, Export, Imported, SameLocker;
    RunFits(F(key), nonce, policy, instrs);
    RunKey(F(key), nonce, policy, instrs);
    var m := AfterRun(F(key), nonce, policy, instrs).0;
    ImportExport(F, m, key);
    var c := Imported(m);
    ImportedFields(m);
    if !SameValue(m.partial, []) {
      PendingShows(m, c);
    } else if m.st == SAV && !m.hasN {
      UnreadShows(m, c);
    } else {
      ImportedAlike(m);
      forall later
        ensures Agree(m, c, later)
      {
        RunsAgree(m, c, later);
      }
    }
  }

  lemma ImportedFields(m: Ocb)
    requires Fits(m)
    ensures var c := Imported(m); c.partial == [] && c.st == m.st && c.preset == m.preset && (m.st == SAV ==>
            c.hasN && !m.preset)
  {
    hide TablesOf, Slice, Double, Doubles;
  }

  lemma RunKey(k: Key, nonce: Option<(Bits, nat)>, policy: nat, instrs: seq<Instr>)
    requires 0 < policy < 4 && (nonce.Some? ==> policy == 2) && NonceOk(nonce)
    ensures AfterRun(k, nonce, policy, instrs).0.k == k
  {
    hide Inv, AfterRun;
    RunFacts(k, nonce, policy, instrs);
  }

  lemma PendingShows(m: Ocb, c: Ocb)
    requires m.st != INVALID && c.partial == [] && c.st == m.st && !SameValue(m.partial, [])
    ensures exists later :: !Agree(m, c, later)
  {
    hide SameValue, Multi, LoadNonce, LastAad, LastText, CheckTag;
    var i := Exec(FormC, [], None, 0, None);
    assert Step(m, i).out == m.partial && Step(c, i).out == [];
    assert !Agree(m, c, [i]);
  }

  /** The original refuses to start a message without a nonce; the imported locker does not. */
  lemma UnreadShows(m: Ocb, c: Ocb)
    requires m.st == SAV && c.st == SAV && !m.preset && !c.preset && !m.hasN && c.hasN
    ensures exists later :: !Agree(m, c, later)
  {
    hide Setup, SameValue;
    var i := SetSt(ABSORB, FormB, 128, []);
    assert Step(m, i).m.st == INVALID;
    assert Step(c, i).m.st == ABSORB by { SetupState(c); }
    assert !Agree(Step(m, i).m, Step(c, i).m, []);
    assert [i][1..] == [];
    assert !Agree(m, c, [i]);
  }

  lemma SetupState(m: Ocb)
    ensures Setup(m, 128).st == ABSORB
  {
  }

  /** The case is reached by one instruction. */
  lemma UnreadNonceReached(k: Key, policy: nat)
    requires 0 < policy < 4
    ensures var m := AfterRun(k, None, policy, [SetSt(SAV, FormB, 96, [])]).0; m.st == SAV && !m.hasN && m.partial == []
  {
    var i := SetSt(SAV, FormB, 96, []);
    var m, h := Create(k, None, policy), NOTHING;
    assert [i][1..] == [];
    assert After(m, h, [i]) == (Step(m, i).m, HistoryStep(m, h, i));
  }
}
