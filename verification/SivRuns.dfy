/**
 Whole runs of the GCM-SIV Machine: what it hands out is what the reference computes, and when a locker that was
 exported and imported behaves as the original.
 */
module SivRuns {
  import opened Wrappers
  import opened Modular
  import opened BitStrings
  import opened BitFields
  import opened Gf128
  import opened AeadBase
  import opened Transfers
  import opened GcmReference
  import opened SivMachine
  import opened Rfc8452

  /**
   absorbed are the blocks hashed in Msg_Absorb, lens the block that closed the hash, tag what Enc_Tag_Final handed
   out.
   */
  datatype History = History(nonce: Bits, absorbed: seq<Block>, lens: Option<Block>, tag: Bits, ins: seq<Block>,
                             outs: seq<Block>, lastIn: Bits, lastOut: Bits)

  const NOTHING: History := History([], [], None, [], [], [], [], [])

  function Extended(st: int, h: History, ins: seq<Block>, outs: seq<Block>): History {
    if st == ABSORB then h.(absorbed := h.absorbed + ins) else h.(ins := h.ins + ins, outs := h.outs + outs)
  }

  function HistoryStep(m: Siv, h: History, i: Instr): History {
    var o := Step(m, i);
    match i
    case SetSt(st, form, xs, inp) =>
      if st == READY then NOTHING
      else if st == SAV then NOTHING.(nonce := Slice(if form == FormA then [] else inp, 0, 96))
      else h
    case Exec(form, inp, kllen, klstart, haltAt) =>
      if m.st == ABSORB || m.st == ENC || m.st == DEC then
        var k := klstart * 8 / 128;
        if o.reached <= k then h else Extended(m.st, h, InputBlocks(inp, k, o.reached), OutputBlocks(o.out, k))
      else if o.reached != 1 then h
      else if m.st == ETF then h.(lens := Some(Slice(inp, 0, 128)), tag := o.out)
      else if m.st == ELB || m.st == DLB then h.(lastIn := Slice(inp, 0, m.lbl), lastOut := o.out)
      else if m.st == DTF then h.(lens := Some(Slice(inp, 0, 128)))
      else h
    case Restrict(_) => h
  }

  // ---------------------------------------------------------------- the invariant

  function Hashed(m: Siv, blocks: seq<Block>): Block {
    PolyvalFrom(Zeros(128), blocks, m.ak)
  }

  /** The plaintext blocks, the last one zero-padded. */
  function PlainBlocks(h: History): seq<Block>
    requires |h.lastOut| <= 120
  {
    h.outs + if h.lastOut == [] then [] else [Placed(h.lastOut, 0)]
  }

  ghost predicate KeysOf(m: Siv, h: History) {
    m.nonce == h.nonce && m.ek == EncKey(m.aes, m.key, m.nonce) && m.ak == AuthKey(m.aes, m.key, m.nonce)
  }

  ghost predicate NoText(m: Siv, h: History) {
    m.ctr == 0 && h.ins == [] && h.outs == [] && h.lastIn == [] && h.lastOut == []
  }

  ghost predicate Fresh(m: Siv, h: History) {
    NoText(m, h) && m.tmp == Zeros(128) && h.absorbed == []
  }

  /** Every output block is its input block with its keystream block added. */
  ghost predicate Streamed(aes: Keyed, ek: Bits, siv: Block, h: History) {
    && |h.ins| == |h.outs| && |h.lastIn| == |h.lastOut| <= 120
    && (forall i :: 0 <= i < |h.ins| ==> h.outs[i] == Xor(h.ins[i], aes(ek, CounterBlock(siv, i))))
    && h.lastOut == Xor(h.lastIn, aes(ek, CounterBlock(siv, |h.ins|))[..|h.lastIn|])
  }

  ghost predicate AtText(m: Siv, h: History) {
    && Streamed(m.aes, m.ek, m.siv, h) && m.ctr <= CTR_END
    && m.ctr == |h.ins| + (if h.lastIn == [] then 0 else 1)
    && (m.st == ENC || m.st == DEC || ((m.st == ELB || m.st == DLB) && m.lbl != 0) ==> h.lastIn == [])
  }

  /** Encryption: the tag is that of everything absorbed, and was handed out. */
  ghost predicate Encrypting(m: Siv, h: History) {
    AtText(m, h) && h.lens.Some? && h.tag == m.siv &&
    m.siv == TagOf(m.aes, m.ek, m.nonce, Hashed(m, h.absorbed + [h.lens.value]))
  }

  ghost predicate Decrypting(m: Siv, h: History) {
    AtText(m, h) && m.tmp == Hashed(m, h.absorbed + PlainBlocks(h))
  }

  /** Decryption is done: Success means that the tag given is that of the plaintext. */
  ghost predicate Decided(m: Siv, h: History) {
    AtText(m, h) && h.lens.Some? &&
    (m.st == SUCCESS <==>
      m.siv == TagOf(m.aes, m.ek, m.nonce, Hashed(m, h.absorbed + PlainBlocks(h) + [h.lens.value])))
  }

  ghost predicate Inv(m: Siv, h: History) {
    m.st != INVALID ==>
      && 0 < m.policy < 4 && m.ctr <= CTR_END
      && (m.st == READY ==> Fresh(m, h) && m.nonce == Zeros(96) && m.ek == [] && m.ak == Zeros(128))
      && (m.st != READY ==> KeysOf(m, h))
      && (m.st == SAV || m.st == SAV2 ==> Fresh(m, h))
      && (m.st == ABSORB || m.st == ETF ==> NoText(m, h) && m.tmp == Hashed(m, h.absorbed))
      && (m.st == ENC || m.st == ELB ==> Encrypting(m, h))
      && (m.st == DEC || m.st == DLB || m.st == DTF ==> Decrypting(m, h))
      && (m.st == SUCCESS || m.st == FAILURE ==> Decided(m, h))
  }

  // ---------------------------------------------------------------- one block

  lemma {:induction false} PolyvalConcat(t: Block, a: seq<Block>, b: seq<Block>, key: Block)
    ensures PolyvalFrom(t, a + b, key) == PolyvalFrom(PolyvalFrom(t, a, key), b, key)
    decreases a
  {
    hide Montmul;
    if a == [] {
      assert [] + b == b;
    } else {
      assert (a + b)[1..] == a[1..] + b;
      PolyvalConcat(Montmul(Xor(t, a[0]), key), a[1..], b, key);
    }
  }

  lemma HashedSnoc(m: Siv, blocks: seq<Block>, x: Block)
    ensures Hashed(m, blocks + [x]) == Montmul(Xor(Hashed(m, blocks), x), m.ak)
  {
    hide Montmul;
    PolyvalConcat(Zeros(128), blocks, [x], m.ak);
    assert [x][1..] == [];
  }

  lemma AbsorbKeepsInv(m: Siv, h: History, x: Block)
    requires m.st == ABSORB && Inv(m, h)
    ensures Inv(AbsorbBlock(m, x), h.(absorbed := h.absorbed + [x]))
  {
    hide Montmul, Hashed, EncKey, AuthKey, Xor;
    HashedSnoc(m, h.absorbed, x);
    SameKeyHash(m, AbsorbBlock(m, x), h.absorbed + [x]);
  }

  lemma SameKeyHash(m: Siv, m': Siv, blocks: seq<Block>)
    requires m'.ak == m.ak
    ensures Hashed(m', blocks) == Hashed(m, blocks)
  {
  }

  lemma StreamSnoc(aes: Keyed, ek: Bits, siv: Block, h: History, x: Block)
    requires Streamed(aes, ek, siv, h) && h.lastIn == []
    ensures Streamed(aes, ek, siv, h.(ins := h.ins + [x], outs := h.outs + [Xor(x, aes(ek, CounterBlock(siv,
            |h.ins|)))]))
  {
    hide CounterBlock;
  }

  lemma EncryptKeepsInv(m: Siv, h: History, x: Block)
    requires m.st == ENC && Inv(m, h) && m.ctr < CTR_END
    ensures Inv(BlockStep(m, x).value.0, h.(ins := h.ins + [x], outs := h.outs + [BlockStep(m, x).value.1]))
  {
    hide Hashed, EncKey, AuthKey, TagOf, Streamed, CounterBlock;
    StreamFacts(m, h);
    StreamSnoc(m.aes, m.ek, m.siv, h, x);
    SameKeyHash(m, BlockStep(m, x).value.0, h.absorbed + [h.lens.value]);
  }

  lemma StreamFacts(m: Siv, h: History)
    requires Streamed(m.aes, m.ek, m.siv, h)
    ensures |h.ins| == |h.outs| && |h.lastIn| == |h.lastOut| <= 120
  {
  }

  lemma DecryptKeepsInv(m: Siv, h: History, x: Block)
    requires m.st == DEC && Inv(m, h) && m.ctr < CTR_END
    ensures Inv(BlockStep(m, x).value.0, h.(ins := h.ins + [x], outs := h.outs + [BlockStep(m, x).value.1]))
  {
    hide Hashed, EncKey, AuthKey, Montmul, Streamed, CounterBlock;
    StreamFacts(m, h);
    StreamSnoc(m.aes, m.ek, m.siv, h, x);
    var (m1, o) := BlockStep(m, x).value;
    HashedSnoc(m, h.absorbed + PlainBlocks(h), o);
    var h' := h.(ins := h.ins + [x], outs := h.outs + [o]);
    assert h'.absorbed + PlainBlocks(h') == h.absorbed + PlainBlocks(h) + [o];
    SameKeyHash(m, m1, h'.absorbed + PlainBlocks(h'));
  }

  lemma BlockKeepsInv(m: Siv, h: History, x: Block)
    requires (m.st == ABSORB || m.st == ENC || m.st == DEC) && Inv(m, h) && BlockStep(m, x).Some?
    ensures var (m1, o) := BlockStep(m, x).value; m1.st == m.st && Inv(m1, Extended(m.st, h, [x], [o]))
  {
    hide Inv;
    CounterBelow(m, h);
    if m.st == ABSORB {
      AbsorbKeepsInv(m, h, x);
    } else if m.st == ENC {
      EncryptKeepsInv(m, h, x);
    } else {
      DecryptKeepsInv(m, h, x);
    }
  }

  lemma CounterBelow(m: Siv, h: History)
    requires m.st != INVALID && Inv(m, h)
    ensures m.ctr <= CTR_END
  {
    hide KeysOf, Encrypting, Decrypting, Decided, Hashed;
  }

  lemma InvIgnoresPosition(m: Siv, h: History, klstart: nat, partial: Bits)
    requires Inv(m, h)
    ensures Inv(m.(klstart := klstart, partial := partial), h)
  {
    hide EncKey, AuthKey, TagOf, Streamed, PolyvalFrom;
  }

  lemma ExtendedTwice(st: int, h: History, a: seq<Block>, b: seq<Block>, c: seq<Block>, d: seq<Block>)
    ensures Extended(st, Extended(st, h, a, b), c, d) == Extended(st, h, a + c, b + d)
  {
    assert h.absorbed + a + c == h.absorbed + (a + c) && h.ins + a + c == h.ins + (a + c) &&
           h.outs + b + d == h.outs + (b + d);
  }

  lemma ExtendedNone(st: int, h: History)
    ensures Extended(st, h, [], []) == h
  {
    assert h.absorbed + [] == h.absorbed && h.ins + [] == h.ins && h.outs + [] == h.outs;
  }

  ghost predicate Transferred(st: int, h: History, m: Siv, xs: seq<Block>, ys: seq<Block>) {
    m.st == st && Inv(m, Extended(st, h, xs, ys))
  }

  lemma TransferKeepsInv(m: Siv, h: History, inp: Bits, k: nat, n: nat, haltAt: Option<nat>)
    returns (outs: seq<Block>)
    requires (m.st == ABSORB || m.st == ENC || m.st == DEC) && Inv(m, h) && k <= n
    ensures var t := TransferFrom<Siv>(BlockStep, m, inp, k, n, k, haltAt, Zeros(128 * k));
            k <= t.reached <= n && t.out == Zeros(128 * k) + Flatten(outs) && |outs| == t.reached - k &&
            t.s.st == m.st && Inv(t.s, Extended(m.st, h, InputBlocks(inp, k, t.reached), outs))
  {
    hide Inv, BlockStep, Extended, Flatten, InputBlocks;
    var st := m.st;
    ExtendedNone(st, h);
    var keeps := (s: Siv, xs, ys) => Transferred(st, h, s, xs, ys);
    forall s: Siv, xs: seq<Block>, ys: seq<Block>, x: Block | keeps(s, xs, ys) && BlockStep(s, x).Some?
      ensures keeps(BlockStep(s, x).value.0, xs + [x], ys + [BlockStep(s, x).value.1])
    {
      BlockKeepsInv(s, Extended(st, h, xs, ys), x);
      ExtendedTwice(st, h, xs, ys, [x], [BlockStep(s, x).value.1]);
    }
    outs := TransferKeeps<Siv>(BlockStep, keeps, m, [], [], inp, k, n, k, haltAt, Zeros(128 * k));
    var r := TransferFrom<Siv>(BlockStep, m, inp, k, n, k, haltAt, Zeros(128 * k)).reached;
    assert [] + InputBlocks(inp, k, r) == InputBlocks(inp, k, r) && [] + outs == outs;
  }

  lemma MultiKeepsInv(m: Siv, h: History, inp: Bits, kllen: Option<nat>, klstart: nat, haltAt: Option<nat>)
    requires (m.st == ABSORB || m.st == ENC || m.st == DEC) && Inv(m, h)
    ensures var o, k := Multi(m, inp, kllen, klstart, haltAt), klstart * 8 / 128;
            o.m.st != INVALID ==>
              Inv(o.m, if o.reached <= k then h
                  else Extended(m.st, h, InputBlocks(inp, k, o.reached), OutputBlocks(o.out, k)))
  {
    hide Inv, TransferFrom, BlockStep, Extended, InputBlocks, Flatten;
    var k := klstart * 8 / 128;
    InvIgnoresPosition(m, h, m.klstart, []);
    if kllen.Some? && kllen.value % 128 == 0 && klstart * 8 % 128 == 0 && k < kllen.value / 128 {
      var n, m0 := kllen.value / 128, m.(partial := []);
      var outs := TransferKeepsInv(m0, h, inp, k, n, haltAt);
      var t := TransferFrom<Siv>(BlockStep, m0, inp, k, n, k, haltAt, Zeros(128 * k));
      OutputBlocksOf(t.out, k, outs);
      InvIgnoresPosition(t.s, Extended(m.st, h, InputBlocks(inp, k, t.reached), outs), 16 * t.reached, t.out);
      if t.reached == k {
        ExtendedNone(m.st, h);
      }
    }
  }

  // ---------------------------------------------------------------- the other work

  lemma TagKeepsInv(m: Siv, h: History, inp: Bits, kllen: Option<nat>)
    requires m.st == ETF && Inv(m, h)
    ensures var o := MakeTag(m, inp, kllen);
            o.m.st != INVALID ==> o.reached == 1 && Inv(o.m, h.(lens := Some(Slice(inp, 0, 128)), tag := o.out))
  {
    hide Montmul, Hashed, EncKey, AuthKey, TagOf, CounterBlock, Xor;
    var x := Slice(inp, 0, 128);
    HashedSnoc(m, h.absorbed, x);
    SameKeyHash(m, MakeTag(m, inp, kllen).m, h.absorbed + [x]);
    EmptyXor();
  }

  lemma EmptyXor()
    ensures Xor([], []) == []
  {
  }

  lemma StreamLast(aes: Keyed, ek: Bits, siv: Block, h: History, x: Bits)
    requires Streamed(aes, ek, siv, h) && h.lastIn == [] && 0 < |x| <= 120
    ensures Streamed(aes, ek, siv, h.(lastIn := x, lastOut := Xor(x, aes(ek, CounterBlock(siv, |h.ins|))[..|x|])))
  {
    hide CounterBlock;
  }

  lemma LastKeepsInv(m: Siv, h: History, inp: Bits, kllen: Option<nat>)
    requires (m.st == ELB || m.st == DLB) && Inv(m, h)
    ensures var o := LastBlock(m, inp, kllen);
            o.m.st != INVALID ==> o.reached == 1 && Inv(o.m, h.(lastIn := Slice(inp, 0, m.lbl), lastOut := o.out))
  {
    hide Montmul, Hashed, EncKey, AuthKey, TagOf, Streamed, CounterBlock;
    var o := LastBlock(m, inp, kllen);
    if o.m.st != INVALID {
      var h' := h.(lastIn := Slice(inp, 0, m.lbl), lastOut := o.out);
      StreamFacts(m, h);
      StreamLast(m.aes, m.ek, m.siv, h, Slice(inp, 0, m.lbl));
      if m.st == DLB {
        HashedSnoc(m, h.absorbed + PlainBlocks(h), Placed(o.out, 0));
        assert h'.absorbed + PlainBlocks(h') == h.absorbed + PlainBlocks(h) + [Placed(o.out, 0)];
        SameKeyHash(m, o.m, h'.absorbed + PlainBlocks(h'));
      } else {
        SameKeyHash(m, o.m, h.absorbed + [h.lens.value]);
      }
    }
  }

  lemma CheckKeepsInv(m: Siv, h: History, inp: Bits, kllen: Option<nat>)
    requires m.st == DTF && Inv(m, h)
    ensures var o := CheckTag(m, inp, kllen);
            o.m.st != INVALID ==> o.reached == 1 && Inv(o.m, h.(lens := Some(Slice(inp, 0, 128))))
  {
    hide Montmul, Hashed, EncKey, AuthKey, TagOf, Streamed, CounterBlock, Xor;
    var x, o := Slice(inp, 0, 128), CheckTag(m, inp, kllen);
    if o.m.st != INVALID {
      var h' := h.(lens := Some(x));
      StreamFacts(m, h);
      SameStream(m, h, h');
      HashedSnoc(m, h.absorbed + PlainBlocks(h), x);
      assert PlainBlocks(h') == PlainBlocks(h);
      SameKeyHash(m, o.m, h'.absorbed + PlainBlocks(h') + [x]);
    }
  }

  lemma SameStream(m: Siv, h: History, h': History)
    requires Streamed(m.aes, m.ek, m.siv, h)
    requires h'.ins == h.ins && h'.outs == h.outs && h'.lastIn == h.lastIn && h'.lastOut == h.lastOut
    ensures Streamed(m.aes, m.ek, m.siv, h')
  {
  }

  lemma EnterText(m: Siv, h: History)
    requires m.st == ABSORB && Inv(m, h)
    ensures Inv(m.(st := ETF), h) && Inv(m.(st := DEC), h)
  {
    hide EncKey, AuthKey, CounterBlock, PolyvalFrom;
    EmptyXor();
    assert h.absorbed + PlainBlocks(h) == h.absorbed;
  }

  lemma EnterNonce(m: Siv, h: History, inp: Bits)
    requires m.st == READY && Inv(m, h) && |inp| == 96
    ensures Inv(WithNonce(m.(st := SAV), inp), NOTHING.(nonce := inp))
  {
    hide EncKey, AuthKey, PolyvalFrom;
  }

  lemma EnterAbsorb(m: Siv, h: History)
    requires (m.st == SAV || m.st == SAV2) && Inv(m, h)
    ensures Inv(m.(st := ABSORB), h)
  {
    hide EncKey, AuthKey;
    NothingHashed(m.ak);
  }

  lemma EnterTag(m: Siv, h: History, siv: Block)
    requires m.st == SAV && Inv(m, h)
    ensures Inv(m.(st := SAV2, siv := siv), h)
  {
    hide EncKey, AuthKey, PolyvalFrom;
  }

  /** A last block of lbl bits is to come, or, from Decrypt, the tag. */
  lemma EnterLast(m: Siv, h: History, lbl: nat)
    requires (m.st == ENC || m.st == DEC) && Inv(m, h) && 0 < lbl <= 120
    ensures m.st == ENC ==> Inv(m.(st := ELB, lbl := lbl), h)
    ensures m.st == DEC ==> Inv(m.(st := DLB, lbl := lbl), h) && Inv(m.(st := DTF), h)
  {
    hide EncKey, AuthKey, TagOf, Streamed, PolyvalFrom;
  }

  lemma EnterKeepsInv(m: Siv, h: History, st: int, xs: nat, inp: Bits)
    requires m.st != INVALID && Inv(m, h) && Admits(m.st, st) && Enter(m, st, xs, inp).Some?
    ensures Inv(Enter(m, st, xs, inp).value, if st == SAV then NOTHING.(nonce := Slice(inp, 0, 96)) else h)
  {
    hide Inv, WithNonce, Slice;
    if m.st == READY {
      EnterNonce(m, h, Slice(inp, 0, 96));
    } else if st == SAV2 {
      EnterTag(m, h, Slice(inp, 0, 128));
    } else if st == ABSORB {
      EnterAbsorb(m, h);
    } else if m.st == ABSORB {
      EnterText(m, h);
    } else {
      EnterLast(m, h, if st == DTF then 8 else xs);
    }
  }

  lemma NothingHashed(key: Block)
    ensures PolyvalFrom(Zeros(128), [], key) == Zeros(128)
  {
  }

  lemma SetStKeepsInv(m: Siv, h: History, st: int, form: Form, xs: nat, inp: Bits)
    requires Inv(m, h)
    ensures Inv(DoSetSt(m, st, form, xs, inp), HistoryStep(m, h, SetSt(st, form, xs, inp)))
  {
    hide Enter, FormOk, Allowed, EncKey, AuthKey, TagOf, Streamed, Slice, PolyvalFrom;
    if st != READY && m.st != INVALID && Admits(m.st, st) {
      var x := if form == FormA then [] else inp;
      if Enter(m, st, xs, x).Some? {
        EnterKeepsInv(m, h, st, xs, x);
      }
    }
  }

  lemma WorkKeepsInv(m: Siv, h: History, inp: Bits, kllen: Option<nat>, klstart: nat, haltAt: Option<nat>)
    requires Inv(m, h) && ExecForm(m.st).Some?
    ensures var o, k := Work(m, inp, kllen, klstart, haltAt), klstart * 8 / 128;
            o.m.st != INVALID ==>
              Inv(o.m, if m.st == ABSORB || m.st == ENC || m.st == DEC then
                         if o.reached <= k then h
                         else Extended(m.st, h, InputBlocks(inp, k, o.reached), OutputBlocks(o.out, k))
                       else if o.reached != 1 then h
                       else if m.st == ETF then h.(lens := Some(Slice(inp, 0, 128)), tag := o.out)
                       else if m.st == ELB || m.st == DLB then h.(lastIn := Slice(inp, 0, m.lbl), lastOut := o.out)
                       else h.(lens := Some(Slice(inp, 0, 128))))
  {
    hide Inv, Multi, MakeTag, LastBlock, CheckTag, Extended, InputBlocks, OutputBlocks, Slice;
    if m.st == ABSORB || m.st == ENC || m.st == DEC {
      MultiKeepsInv(m, h, inp, kllen, klstart, haltAt);
    } else if m.st == ETF {
      TagKeepsInv(m, h, inp, kllen);
    } else if m.st == ELB || m.st == DLB {
      LastKeepsInv(m, h, inp, kllen);
    } else {
      CheckKeepsInv(m, h, inp, kllen);
    }
  }

  lemma FailedInv(m: Siv, h: History)
    requires m.st == INVALID
    ensures Inv(m, h)
  {
  }

  lemma ExecKeepsInv(m0: Siv, h: History, form: Form, inp: Bits, kllen: Option<nat>, klstart: nat, haltAt: Option<nat>)
    requires Inv(m0, h)
    ensures Inv(DoExec(m0, form, inp, kllen, klstart, haltAt).m,
                HistoryStep(m0, h, Exec(form, inp, kllen, klstart, haltAt)))
  {
    hide Inv, Work, Extended, InputBlocks, OutputBlocks, Allowed, Slice;
    var m, o := m0.(klstart := 0), DoExec(m0, form, inp, kllen, klstart, haltAt);
    if o.m.st == INVALID {
      FailedInv(o.m, HistoryStep(m0, h, Exec(form, inp, kllen, klstart, haltAt)));
    } else {
      InvIgnoresPosition(m0, h, 0, m0.partial);
      WorkKeepsInv(m, h, inp, kllen, klstart, haltAt);
    }
  }

  lemma RestrictKeepsInv(m: Siv, h: History, mask: nat)
    requires Inv(m, h)
    ensures Inv(DoRestrict(m, mask), h)
  {
    hide EncKey, AuthKey, TagOf, Streamed, PolyvalFrom;
  }

  /** Every instruction keeps the invariant. */
  lemma StepKeepsInv(m: Siv, h: History, i: Instr)
    requires Inv(m, h)
    ensures Inv(Step(m, i).m, HistoryStep(m, h, i))
  {
    match i
    case SetSt(st, form, xs, inp) => SetStKeepsInv(m, h, st, form, xs, inp);
    case Exec(form, inp, kllen, klstart, haltAt) => ExecKeepsInv(m, h, form, inp, kllen, klstart, haltAt);
    case Restrict(mask) => RestrictKeepsInv(m, h, mask);
  }

  // ---------------------------------------------------------------- runs

  function After(m: Siv, h: History, instrs: seq<Instr>): (Siv, History)
    decreases instrs
  {
    if instrs == [] then (m, h) else After(Step(m, instrs[0]).m, HistoryStep(m, h, instrs[0]), instrs[1..])
  }

  function AfterRun(aes: Keyed, key: Bits, policy: nat, instrs: seq<Instr>): (Siv, History)
    requires 0 < policy < 4
  {
    After(Create(aes, key, policy), NOTHING, instrs)
  }

  ghost predicate SameKey(aes: Keyed, key: Bits, m: Siv) {
    m.aes == aes && m.key == key
  }

  lemma StepKeepsKey(m: Siv, i: Instr)
    ensures SameKey(m.aes, m.key, Step(m, i).m)
  {
    hide TransferFrom, Xor, Montmul, EncKey, AuthKey, CounterBlock, TagOf, InputBlocks, Slice, Placed;
    if i.Exec? && i.kllen.Some? && i.klstart * 8 / 128 <= i.kllen.value / 128 {
      var m0, k, n := m.(klstart := 0, partial := []), i.klstart * 8 / 128, i.kllen.value / 128;
      var outs := TransferKeeps<Siv>(BlockStep, (s: Siv, xs: seq<Block>, ys: seq<Block>) => SameKey(m.aes, m.key, s),
          m0, [],
                                     [], i.inp, k, n, k, i.haltAt, Zeros(128 * k));
    }
  }

  lemma {:induction false} RunKeepsInv(m: Siv, h: History, instrs: seq<Instr>, aes: Keyed, key: Bits)
    requires Inv(m, h) && SameKey(aes, key, m)
    ensures var (m', h') := After(m, h, instrs); Inv(m', h') && SameKey(aes, key, m')
    decreases instrs
  {
    hide Inv, Step, HistoryStep;
    if instrs != [] {
      StepKeepsInv(m, h, instrs[0]);
      StepKeepsKey(m, instrs[0]);
      RunKeepsInv(Step(m, instrs[0]).m, HistoryStep(m, h, instrs[0]), instrs[1..], aes, key);
    }
  }

  lemma RunFacts(aes: Keyed, key: Bits, policy: nat, instrs: seq<Instr>)
    requires 0 < policy < 4
    ensures var (m, h) := AfterRun(aes, key, policy, instrs); Inv(m, h) && SameKey(aes, key, m)
  {
    hide After, HistoryStep;
    RunKeepsInv(Create(aes, key, policy), NOTHING, instrs, aes, key);
  }

  // ---------------------------------------------------------------- against the reference

  function TextIn(h: History): Bits {
    Flatten(h.ins) + h.lastIn
  }

  function TextOut(h: History): Bits {
    Flatten(h.outs) + h.lastOut
  }

  // ---- the keys, the tag and the counter blocks are those of the reference

  lemma {:induction false} HalvesFrom(aes: Keyed, key: Bits, nonce: Bits, i: nat, n: nat)
    requires |nonce| == 96 && i <= n
    ensures Halves(aes, key, nonce, n) == Halves(aes, key, nonce, i) + KeyHalves(aes, key, nonce, i, n)
    decreases n - i
  {
    if i < n {
      HalvesFrom(aes, key, nonce, i + 1, n);
      assert Halves(aes, key, nonce, i + 1) == Halves(aes, key, nonce, i) + KeyHalf(aes, key, nonce, i);
    }
  }

  lemma KeysAreReference(aes: Keyed, key: Bits, nonce: Bits)
    requires |nonce| == 96
    ensures EncKey(aes, key, nonce) == RefEncKey(aes, key, nonce)
    ensures AuthKey(aes, key, nonce) == RefAuthKey(aes, key, nonce)
  {
    hide KeyHalves;
    HalvesFrom(aes, key, nonce, 2, |key| / 64 + 2);
    assert Halves(aes, key, nonce, 0) == [];
    assert Halves(aes, key, nonce, 1) == KeyHalf(aes, key, nonce, 0);
    assert Halves(aes, key, nonce, 2) == AuthKey(aes, key, nonce);
  }

  lemma TagIsReference(aes: Keyed, ek: Bits, nonce: Bits, S: Block)
    requires |nonce| == 96
    ensures TagOf(aes, ek, nonce, S) == aes(ek, TagInput(S, nonce, None))
  {
    assert Xor(S[..96], nonce) + S[96..127] + [false] == TagInput(S, nonce, None);
  }

  lemma CounterIsReference(siv: Block, i: nat)
    ensures CounterBlock(siv, i) == CounterAt(siv, None, i)
  {
    hide FromNat, ToNat, Pow2;
    var c := siv[127 := true];
    assert c[..32] == siv[..32] && c[32..] == siv[32..127] + [true];
    LowPart(ToNat(siv[..32]) + i, 32);
  }

  lemma {:induction false} StreamOf(aes: Keyed, ek: Bits, siv: Block, n: nat, ins: seq<Block>, outs: seq<Block>,
      x: Bits,
                                   y: Bits)
    requires |ins| == |outs| && |x| == |y| < 128
    requires forall i :: 0 <= i < |ins| ==> outs[i] == Xor(ins[i], aes(ek, CounterBlock(siv, n + i)))
    requires y == Xor(x, aes(ek, CounterBlock(siv, n + |ins|))[..|x|])
    ensures Flatten(outs) + y == Stream(aes, ek, siv, None, Flatten(ins) + x, n)
    decreases |ins|
  {
    hide CounterBlock, CounterAt, Stream, Flatten;
    if ins == [] {
      NoBlocks(x);
      NoBlocks(y);
      StreamOnce(aes, ek, siv, x, n);
    } else {
      assert forall i :: 0 <= i < |ins| - 1 ==> ins[1..][i] == ins[i + 1] && outs[1..][i] == outs[i + 1];
      StreamOf(aes, ek, siv, n + 1, ins[1..], outs[1..], x, y);
      StreamNext(aes, ek, siv, ins[0], Flatten(ins[1..]) + x, n);
      FirstBlock(ins, x);
      FirstBlock(outs, y);
      assert outs[0] == Xor(ins[0], aes(ek, CounterBlock(siv, n)));
    }
  }

  lemma NoBlocks(x: Bits)
    ensures Flatten([]) + x == x
  {
  }

  lemma FirstBlock(b: seq<Block>, x: Bits)
    requires b != []
    ensures Flatten(b) + x == b[0] + (Flatten(b[1..]) + x)
  {
  }

  lemma StreamNext(aes: Keyed, ek: Bits, siv: Block, x: Block, rest: Bits, n: nat)
    ensures Stream(aes, ek, siv, None, x + rest, n) ==
            Xor(x, aes(ek, CounterBlock(siv, n))) + Stream(aes, ek, siv, None, rest, n + 1)
  {
    hide CounterBlock, CounterAt;
    CounterIsReference(siv, n);
    assert (x + rest)[..128] == x && (x + rest)[128..] == rest;
    assert aes(ek, CounterBlock(siv, n))[..128] == aes(ek, CounterBlock(siv, n));
  }

  lemma StreamOnce(aes: Keyed, ek: Bits, siv: Block, x: Bits, n: nat)
    requires |x| < 128
    ensures Stream(aes, ek, siv, None, x, n) == Xor(x, aes(ek, CounterBlock(siv, n))[..|x|])
  {
    hide CounterBlock, CounterAt;
    CounterIsReference(siv, n);
    if x != [] {
      assert x[..|x|] == x && x[|x|..] == [];
    }
  }

  lemma TextIsStream(aes: Keyed, ek: Bits, siv: Block, h: History)
    requires Streamed(aes, ek, siv, h)
    ensures TextOut(h) == Stream(aes, ek, siv, None, TextIn(h), 0)
  {
    hide CounterBlock, Stream, Flatten, Xor;
    forall i | 0 <= i < |h.ins|
      ensures h.outs[i] == Xor(h.ins[i], aes(ek, CounterBlock(siv, 0 + i)))
    {
    }
    StreamOf(aes, ek, siv, 0, h.ins, h.outs, h.lastIn, h.lastOut);
  }

  /** The Machine's hash is the reference POLYVAL. */
  lemma HashedIsPolyval(m: Siv, blocks: seq<Block>)
    ensures Hashed(m, blocks) == Polyval(m.ak, blocks)
  {
    PolyvalAgrees(Zeros(128), blocks, m.ak);
  }

  /** The tag of a hash is that of the reference over the same blocks. */
  lemma MachineTag(m: Siv, h: History, blocks: seq<Block>)
    requires KeysOf(m, h)
    ensures |h.nonce| == 96 && m.ek == RefEncKey(m.aes, m.key, h.nonce) &&
            TagOf(m.aes, m.ek, m.nonce, Hashed(m, blocks)) ==
            m.aes(m.ek, TagInput(Polyval(RefAuthKey(m.aes, m.key, h.nonce), blocks), h.nonce, None))
  {
    hide EncKey, AuthKey, RefEncKey, RefAuthKey, TagOf, TagInput, Hashed, Polyval;
    KeysAreReference(m.aes, m.key, m.nonce);
    HashedIsPolyval(m, blocks);
    TagIsReference(m.aes, m.ek, m.nonce, Hashed(m, blocks));
  }

  /** What was absorbed are the associated data A and the plaintext P, then their lengths; and P was encrypted. */
  ghost predicate Encrypts(m: Siv, h: History, A: Bits, P: Bits) {
    (m.st == ENC || m.st == ELB) && h.absorbed == BlockSeq(Pad16(A)) + BlockSeq(Pad16(P)) &&
    h.lens == Some(Le64(|A|) + Le64(|P|)) && TextIn(h) == P
  }

  /** The locker decided on the ciphertext C with associated data A. */
  ghost predicate Decrypts(m: Siv, h: History, A: Bits, C: Bits) {
    (m.st == SUCCESS || m.st == FAILURE) && h.absorbed == BlockSeq(Pad16(A)) && h.lens == Some(Le64(|A|) + Le64(|C|)) &&
    TextIn(h) == C
  }

  /**
   Encryption.  After any run, if what was absorbed is associated data A and plaintext P with their lengths, and P is
   what was encrypted, the tag and the text handed out are those of the reference.
   */
  lemma EncryptionIsSiv(aes: Keyed, key: Bits, policy: nat, instrs: seq<Instr>, A: Bits, P: Bits)
    requires 0 < policy < 4
    requires var (m, h) := AfterRun(aes, key, policy, instrs); Encrypts(m, h, A, P)
    ensures var h := AfterRun(aes, key, policy, instrs).1;
            |h.nonce| == 96 && Seal(aes, key, h.nonce, A, P, true, None) == (TextOut(h), h.tag)
  {
    hide AfterRun, BlockSeq, Pad16, Le64, TagOf, TagInput, KeysOf, RefEncKey, RefAuthKey, Stream, TextIn, TextOut,
         Streamed, Hashed, Polyval;
    RunFacts(aes, key, policy, instrs);
    var (m, h) := AfterRun(aes, key, policy, instrs);
    MachineTag(m, h, h.absorbed + [h.lens.value]);
    TextIsStream(m.aes, m.ek, m.siv, h);
  }

  /** The plaintext blocks hashed are those of the zero-padded text. */
  lemma PlainIsPadded(h: History)
    requires |h.lastOut| <= 120
    ensures PlainBlocks(h) == BlockSeq(Pad16(TextOut(h)))
  {
    hide BlockSeq, Flatten, Pad16, Placed;
    BlocksOfFlatten(h.outs);
    PadsTail(Flatten(h.outs), h.lastOut);
    if h.lastOut == [] {
      assert Flatten(h.outs) + h.lastOut == Flatten(h.outs);
    } else {
      BlocksConcat(Flatten(h.outs), Placed(h.lastOut, 0));
      OneBlock(Placed(h.lastOut, 0));
    }
  }

  lemma PadsTail(u: Bits, x: Bits)
    requires |u| % 128 == 0 && |x| <= 120
    ensures Pad16(u + x) == u + if x == [] then [] else Placed(x, 0)
  {
    assert |u + x| % 128 == |x|;
    var r, e := Pad16(u + x), u + if x == [] then [] else Placed(x, 0);
    assert |r| == |e|;
  }

  /**
   Decryption.  After any run that decided, if A was absorbed, C decrypted and their lengths given, the text handed
   out is the reference plaintext, and Success is what the reference decides for the tag given.
   */
  lemma DecryptionIsSiv(aes: Keyed, key: Bits, policy: nat, instrs: seq<Instr>, A: Bits, C: Bits)
    requires 0 < policy < 4
    requires var (m, h) := AfterRun(aes, key, policy, instrs); Decrypts(m, h, A, C)
    ensures var (m, h) := AfterRun(aes, key, policy, instrs);
            |h.nonce| == 96 && Unseal(aes, key, h.nonce, A, C, m.siv, true, None) == (TextOut(h), m.st == SUCCESS)
  {
    hide AfterRun, BlockSeq, Pad16, Le64, TagOf, TagInput, KeysOf, RefEncKey, RefAuthKey, Stream, TextIn, TextOut,
         Streamed, Hashed, Polyval;
    RunFacts(aes, key, policy, instrs);
    var (m, h) := AfterRun(aes, key, policy, instrs);
    StreamFacts(m, h);
    MachineTag(m, h, h.absorbed + PlainBlocks(h) + [h.lens.value]);
    TextIsStream(m.aes, m.ek, m.siv, h);
    PlainIsPadded(h);
  }

  /**
   A message encrypted by one run and decrypted by another under the same key and nonce, with the tag that the first
   handed out, comes back and ends in Success.
   */
  lemma MessageComesBack(aes: Keyed, key: Bits, policy1: nat, run1: seq<Instr>, policy2: nat, run2: seq<Instr>, A: Bits,
                         P: Bits)
    requires 0 < policy1 < 4 && 0 < policy2 < 4
    requires var (m1, h1) := AfterRun(aes, key, policy1, run1);
             var (m2, h2) := AfterRun(aes, key, policy2, run2);
             Encrypts(m1, h1, A, P) && Decrypts(m2, h2, A, TextOut(h1)) && h2.nonce == h1.nonce && m2.siv == h1.tag
    ensures var (m2, h2) := AfterRun(aes, key, policy2, run2); TextOut(h2) == P && m2.st == SUCCESS
  {
    hide AfterRun, Encrypts, Decrypts, Seal, Unseal, TextOut, TextIn;
    var h1 := AfterRun(aes, key, policy1, run1).1;
    EncryptionIsSiv(aes, key, policy1, run1, A, P);
    DecryptionIsSiv(aes, key, policy2, run2, A, TextOut(h1));
    UnsealSeal(aes, key, h1.nonce, A, P, true, None);
  }

  /** A block of text is admitted exactly while fewer than 2^32 have been processed. */
  lemma BlockAdmitted(m: Siv, h: History, x: Block)
    requires Inv(m, h) && (m.st == ENC || m.st == DEC)
    ensures BlockStep(m, x).Some? <==> |h.ins| < CTR_END
  {
    hide Montmul, Hashed, EncKey, AuthKey, TagOf, Streamed, CounterBlock, Xor;
  }
}
