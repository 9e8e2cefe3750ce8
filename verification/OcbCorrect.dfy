/**
 What the OCB Machine computes over whole runs.  Next to the locker we keep the history of the current message: the
 nonce, the associated data, the message pieces in and out.  `Inv` ties every field to the loops of the reference
 applied to the history, and every instruction keeps it.
 */
module OcbCorrect {
  import opened Wrappers
  import opened Modular
  import opened Digits
  import opened BitStrings
  import opened Gf128
  import opened AeadBase
  import opened BlockNumbers
  import opened Transfers
  import opened OcbReference
  import opened OcbMachine

  // ---------------------------------------------------------------- numbers and bit fields

  /** Shifting a number right and keeping n bits is taking the field of n bits there. */
  lemma {:induction false} ShiftIsSlice(v: Bits, k: nat, n: nat)
    ensures FromNat(Shr(ToNat(v), k), n) == Slice(v, k, n)
    decreases k
  {
    hide ToNat, Shr, FromNat, Slice;
    if k == 0 {
      ShiftByNone(ToNat(v));
      LowBits(v, n);
    } else if v == [] {
      EmptyNumber(k, n);
    } else {
      ShiftOne(v, k);
      ShiftIsSlice(v[1..], k - 1, n);
      SliceTail(v, k, n);
    }
  }

  lemma ShiftOne(v: Bits, k: nat)
    requires v != [] && k > 0
    ensures Shr(ToNat(v), k) == Shr(ToNat(v[1..]), k - 1)
  {
    hide Pow2, ToNat;
    PowerNext(k - 1);
    NumberHead(v);
    HalfTwice(v[0], ToNat(v[1..]), Pow2(k - 1));
  }

  lemma NumberHead(v: Bits)
    requires v != []
    ensures ToNat(v) == (if v[0] then 1 else 0) + 2 * ToNat(v[1..])
  {
  }

  lemma PowerNext(k: nat)
    ensures Pow2(k + 1) == 2 * Pow2(k)
  {
  }

  lemma ShiftByNone(x: nat)
    ensures Shr(x, 0) == x
  {
  }

  lemma EmptyNumber(k: nat, n: nat)
    ensures FromNat(Shr(ToNat([]), k), n) == Slice([], k, n)
  {
    ZeroNumber(Pow2(k), n);
    assert Slice([], k, n) == Zeros(n);
  }

  lemma SliceTail(v: Bits, k: nat, n: nat)
    requires v != [] && k > 0
    ensures Slice(v, k, n) == Slice(v[1..], k - 1, n)
  {
  }

  lemma {:induction false} LowBits(v: Bits, n: nat)
    ensures FromNat(ToNat(v), n) == Slice(v, 0, n)
    decreases n
  {
    if n > 0 {
      if v == [] {
        ZeroNumber(1, n);
      } else {
        LowBits(v[1..], n - 1);
        assert Slice(v, 0, n) == [v[0]] + Slice(v[1..], 0, n - 1);
      }
    }
  }

  lemma {:induction false} ZeroNumber(p: nat, n: nat)
    requires p > 0
    ensures FromNat(0 / p, n) == Zeros(n) && Slice([], p, n) == Zeros(n) && Slice([], 0, n) == Zeros(n)
  {
    if n > 0 {
      ZeroNumber(p, n - 1);
      assert Zeros(n) == [false] + Zeros(n - 1);
    }
  }

  lemma HalfTwice(b: bool, x: nat, p: nat)
    requires p > 0
    ensures ((if b then 1 else 0) + 2 * x) / (2 * p) == x / p
  {
    var y := (if b then 1 else 0) + 2 * x;
    assert x == x / p * p + x % p;
    assert y == x / p * (2 * p) + (2 * (x % p) + if b then 1 else 0);
    DivModUnique(y, 2 * p, x / p, 2 * (x % p) + if b then 1 else 0);
  }

  // ---------------------------------------------------------------- the starting offset

  /** The nonce block as bit fields is the number that the reference adds up. */
  lemma NonceFields(nonce: Bits, tag: Bits)
    requires |nonce| <= 120 && |tag| == 7
    ensures ToNat(nonce + [true] + Zeros(120 - |nonce|) + tag) == ToNat(tag) * Pow2(121) + Pow2(|nonce|) + ToNat(nonce)
  {
    hide ToNat, Pow2;
    var n := |nonce|;
    var z := Zeros(120 - n);
    assert nonce + [true] + z + tag == nonce + ([true] + (z + tag));
    ConcatNumber(nonce, [true] + (z + tag));
    ConcatNumber([true], z + tag);
    ConcatNumber(z, tag);
    ZerosNumber(120 - n);
    OneNumber();
    NoncePowers(n, ToNat(tag));
  }

  lemma OneNumber()
    ensures ToNat([true]) == 1 && Pow2(1) == 2
  {
    assert [true][1..] == [];
  }

  lemma NoncePowers(n: nat, t: nat)
    requires n <= 120
    ensures Pow2(n) * (1 + 2 * (Pow2(120 - n) * t)) == t * Pow2(121) + Pow2(n)
  {
    hide Pow2;
    PowersAdd(n, 120 - n);
    PowersAdd(120, 1);
    OneNumber();
    Regroup(Pow2(n), Pow2(120 - n), t);
  }

  lemma PowersAdd(a: nat, b: nat)
    ensures Pow2(a + b) == Pow2(a) * Pow2(b)
  {
    Pow2IsPow(a);
    Pow2IsPow(b);
    Pow2IsPow(a + b);
    PowAdd(2, a, b);
  }

  lemma Regroup(p: nat, r: nat, t: nat)
    ensures p * (1 + 2 * (r * t)) == t * ((p * r) * 2) + p
  {
    assert p * (2 * (r * t)) == 2 * (p * (r * t));
    assert p * (r * t) == (p * r) * t;
  }

  lemma LowSix(v: Bits)
    requires |v| == 128
    ensures var b := ToNat(v[..6]);
            b < 64 && ToNat(v) % 64 == b && BigEndian(ToNat(v) - b) == ByteSwap(Zeros(6) + v[6..])
  {
    hide ToNat, FromNat, ByteSwap, Pow2, Zeros;
    SixBits();
    var lo, hi := ToNat(v[..6]), ToNat(v[6..]);
    ConcatNumber(v[..6], v[6..]);
    assert v[..6] + v[6..] == v;
    ConcatNumber(Zeros(6), v[6..]);
    ZerosNumber(6);
    BitsRoundTrip(Zeros(6) + v[6..]);
    SplitBySix(ToNat(v), lo, hi);
  }

  lemma SixBits()
    ensures Pow2(6) == 64
  {
  }

  lemma SplitBySix(x: nat, lo: nat, hi: nat)
    requires lo < 64 && x == lo + 64 * hi
    ensures x % 64 == lo
  {
  }

  lemma StretchFields(Kb: Block)
    ensures Stretch(ToNat(Kb)) == ToNat(Xor(Kb[64..], Kb[56..120]) + Kb)
  {
    hide ToNat, Pow2, FromNat;
    ShiftIsSlice(Kb, 64, 64);
    ShiftIsSlice(Kb, 56, 64);
    assert Slice(Kb, 64, 64) == Kb[64..] && Slice(Kb, 56, 64) == Kb[56..120];
    ConcatNumber(Xor(Kb[64..], Kb[56..120]), Kb);
  }

  /** The Machine's starting offset is that of the reference. */
  lemma StartIsInitial(E: Cipher, N: Bits, n: nat, tagLen: nat)
    requires n <= 120
    ensures StartOffset(E, N, n, tagLen) == InitialOffset(E, ToNat(NonceBits(N, n)), n, tagLen)
  {
    hide ToNat, Pow2, FromNat, Stretch, NonceBits;
    var nonce, tag := NonceBits(N, n), FromNat(tagLen % 128, 7);
    var Nb := nonce + [true] + Zeros(120 - n) + tag;
    NonceFields(nonce, tag);
    TagField(tagLen);
    LowSix(Nb);
    var bottom := ToNat(Nb[..6]);
    var Kb := ByteSwap(E(ByteSwap(Zeros(6) + Nb[6..])));
    StretchFields(Kb);
    ShiftIsSlice(Xor(Kb[64..], Kb[56..120]) + Kb, 64 - bottom, 128);
  }

  lemma TagField(tagLen: nat)
    ensures ToNat(FromNat(tagLen % 128, 7)) == tagLen % 128
  {
    hide ToNat, FromNat;
    NatRoundTrip(tagLen % 128, 7);
    SevenBits();
  }

  lemma SevenBits()
    ensures Pow2(7) == 128
  {
  }

  /** The pad bits of the last nonce byte do not matter. */
  lemma PadBitsIgnored(x: Bits, n: nat)
    ensures NonceBits(MaskNonce(x, n), n) == NonceBits(x, n)
  {
    hide ByteMirror, NonceBytes;
    var q := NonceBytes(n);
    NonceWidth(n);
    var u, v := Slice(MaskNonce(x, n), 0, 8 * q), Slice(x, 0, 8 * q);
    forall i | 8 * q - n <= i < 8 * q
      ensures ByteSwap(u)[i] == ByteSwap(v)[i]
    {
      MirrorOutsidePad(q, n, i);
    }
    assert ByteSwap(u)[8 * q - n..] == ByteSwap(v)[8 * q - n..];
  }

  /** The nonce bits are the number of the big-endian bytes, shifted down by the pad bits. */
  lemma NonceIsNumber(N: Bits, n: nat)
    ensures var q := NonceBytes(n); ToNat(NonceBits(N, n)) == Shr(ToNat(ByteSwap(Slice(N, 0, 8 * q))), 8 * q - n)
  {
    hide ToNat, Pow2, ByteSwap, Slice;
    var q := NonceBytes(n);
    var v, k := ByteSwap(Slice(N, 0, 8 * q)), 8 * q - n;
    assert v == v[..k] + v[k..];
    ConcatNumber(v[..k], v[k..]);
    DivModUnique(ToNat(v), Pow2(k), ToNat(v[k..]), ToNat(v[..k]));
  }

  lemma NonceWidth(n: nat)
    ensures n <= 8 * NonceBytes(n) < n + 8
  {
  }

  lemma MirrorOutsidePad(q: nat, n: nat, i: nat)
    requires n <= 8 * q < n + 8 && 8 * q - n <= i < 8 * q
    ensures var k := ByteMirror(8 * q, i); !(8 * (q - 1) <= k < 8 * (q - 1) + (8 * q - n))
  {
    var k := ByteMirror(8 * q, i);
    assert k == 8 * (q - 1 - i / 8) + i % 8;
  }

  // ---------------------------------------------------------------- the table

  lemma {:induction false} DoublesAt(E: Cipher, j: nat, x: Block, n: nat, i: nat)
    requires x == (if j == 0 then LDollar(E) else L(E, j - 1)) && i < n
    ensures Doubles(x, n)[i] == L(E, j + i)
    decreases i
  {
    hide Double, RefDouble;
    DoubleIsReference(x);
    if i > 0 {
      DoublesAt(E, j + 1, Double(x), n - 1, i - 1);
    }
  }

  ghost predicate IsTable(E: Cipher, t: seq<Block>) {
    |t| == TABLE_SIZE && forall i :: 0 <= i < TABLE_SIZE ==> t[i] == L(E, i)
  }

  lemma SetupTable(m: Ocb, tagLen: nat)
    ensures IsTable(m.k.E, Setup(m, tagLen).table)
  {
    hide Double, RefDouble, Doubles, L;
    DoubleIsReference(LStar(m.k.E));
    forall i | 0 <= i < TABLE_SIZE
      ensures Setup(m, tagLen).table[i] == L(m.k.E, i)
    {
      DoublesAt(m.k.E, 0, LDollar(m.k.E), TABLE_SIZE, i);
    }
  }

  // ---------------------------------------------------------------- the history

  lemma TailOf(u: Bits, x: Bits, i: nat)
    requires |u| == 128 * i && |x| <= 120
    ensures |u + x| / 128 == i && |u + x| % 128 <= 120 && (u + x)[128 * i..] == x
  {
  }

  /** What the current message has been given and has handed out. */
  datatype History = History(nonce: Bits, aad: seq<Block>, aadLast: Bits, ins: seq<Block>, outs: seq<Block>,
      lastIn: Bits,
                             lastOut: Bits, enc: bool)

  const NOTHING: History := History([], [], [], [], [], [], [], true)

  /** Whole blocks and a last piece. */
  function Text(blocks: seq<Block>, last: Bits): (r: Bits)
    ensures |last| <= 120 ==> |r| % 128 <= 120
  {
    hide Flatten;
    var r := Flatten(blocks) + last;
    assert |last| <= 120 ==> |r| % 128 <= 120 by {
      if |last| <= 120 {
        TailOf(Flatten(blocks), last, |blocks|);
      }
    }
    r
  }

  function AadText(h: History): (r: Bits)
    ensures |h.aadLast| <= 120 ==> |r| % 128 <= 120
  {
    Text(h.aad, h.aadLast)
  }

  function TextIn(h: History): (r: Bits)
    ensures |h.lastIn| <= 120 ==> |r| % 128 <= 120
  {
    Text(h.ins, h.lastIn)
  }

  function TextOut(h: History): Bits {
    Text(h.outs, h.lastOut)
  }

  function Extended(st: int, h: History, ins: seq<Block>, outs: seq<Block>): History {
    if st == ABSORB then h.(aad := h.aad + ins) else h.(ins := h.ins + ins, outs := h.outs + outs)
  }

  function HistoryStep(m: Ocb, h: History, i: Instr): History {
    var o := Step(m, i);
    match i
    case SetSt(st, form, xs, inp) =>
      if st == READY then NOTHING.(nonce := if m.preset then h.nonce else [])
      else if st == SAV then NOTHING
      else if st == ENC || st == DEC then h.(enc := st == ENC)
      else h
    case Exec(form, inp, kllen, klstart, haltAt) =>
      if m.st == ABSORB || m.st == ENC || m.st == DEC then
        var k := klstart * 8 / 128;
        if o.reached <= k then h else Extended(m.st, h, InputBlocks(inp, k, o.reached), OutputBlocks(o.out, k))
      else if o.reached != 1 then h
      else if m.st == SAV then h.(nonce := Slice(inp, 0, 8 * NonceBytes(m.nlen)))
      else if m.st == HABL then h.(aadLast := Slice(inp, 0, m.lbl))
      else if m.st == ELB || m.st == DLB then h.(lastIn := Slice(inp, 0, m.lbl), lastOut := o.out)
      else h
    case Restrict(_) => h
  }

  // ---------------------------------------------------------------- the invariant

  /** The nonce as the number that the reference takes. */
  function NonceOf(m: Ocb, h: History): nat {
    ToNat(NonceBits(h.nonce, m.nlen))
  }

  function Start(m: Ocb, h: History): Block {
    InitialOffset(m.k.E, NonceOf(m, h), m.nlen, m.tagLen)
  }

  ghost predicate NonceKnown(m: Ocb, h: History) {
    6 <= m.nlen <= 120 && NonceBits(m.N, m.nlen) == NonceBits(h.nonce, m.nlen)
  }

  /** Nothing of a message yet. */
  ghost predicate Fresh(m: Ocb, h: History) {
    h == NOTHING.(nonce := h.nonce) && m.hashA == Zeros(128) && m.csum == Zeros(128)
  }

  ghost predicate SetUp(m: Ocb, h: History) {
    && NonceKnown(m, h) && (m.tagLen == 64 || m.tagLen == 96 || m.tagLen == 128)
    && m.Ls == LStar(m.k.E) && m.Ld == LDollar(m.k.E) && IsTable(m.k.E, m.table)
  }

  /** The fields describe the associated data absorbed so far. */
  ghost predicate AtAad(m: Ocb, h: History) {
    h.aadLast == [] && HashLoop(m.k.E, Flatten(h.aad), |h.aad|) == Loop(m.offset, m.hashA, [])
  }

  ghost predicate NoText(m: Ocb, h: History) {
    h.ins == [] && h.outs == [] && h.lastIn == [] && h.lastOut == [] && m.csum == Zeros(128)
  }

  ghost predicate AadDone(m: Ocb, h: History) {
    |h.aadLast| <= 120 && m.hashA == Hash(m.k.E, AadText(h))
  }

  /** The fields describe the message blocks processed so far. */
  ghost predicate AtText(m: Ocb, h: History) {
    && h.lastIn == [] && h.lastOut == [] && m.index == |h.ins| + 1
    && CryptLoop(m.k, h.enc, Start(m, h), Flatten(h.ins), |h.ins|) == Loop(m.offset, m.csum, Flatten(h.outs))
  }

  /** The tag field holds the reference tag, and the output is the reference output. */
  ghost predicate AtTag(m: Ocb, h: History) {
    |h.aadLast| <= 120 && |h.lastIn| <= 120 &&
    Crypt(m.k, h.enc, NonceOf(m, h), m.nlen, m.tagLen, AadText(h), TextIn(h)) == (TextOut(h), m.csum)
  }

  ghost predicate MessageInv(m: Ocb, h: History) {
    && SetUp(m, h)
    && (m.st == ABSORB ==> AtAad(m, h) && m.index == |h.aad| + 1)
    && (m.st == ABSORB || m.st == HABL ==> NoText(m, h))
    && (m.st == HABL && m.lbl != 0 ==> AtAad(m, h))
    && (m.st != ABSORB ==> AadDone(m, h))
    && (m.st == ENC || m.st == DEC || m.st == ELB || m.st == DLB ==> AtText(m, h))
    && (m.st == ETF || m.st == VERIFY ==> AtTag(m, h))
    && (m.st == ENC || m.st == ELB || m.st == ETF ==> h.enc)
    && (m.st == DEC || m.st == DLB || m.st == VERIFY ==> !h.enc)
  }

  ghost predicate Inv(m: Ocb, h: History) {
    m.st != INVALID ==>
      && 0 < m.policy < 4
      && (m.st == READY || m.st == SAV || m.st == SUCCESS || m.st == FAILURE || InMessage(m.st))
      && (m.preset ==> m.st != SAV && NonceKnown(m, h))
      && (m.st == READY ==> Fresh(m, h) && !m.hasN)
      && (m.st == SAV ==> Fresh(m, h) && 6 <= m.nlen <= 120 && (m.hasN ==> NonceKnown(m, h)))
      && (InMessage(m.st) ==> MessageInv(m, h))
  }

  // ---------------------------------------------------------------- one block

  lemma LastBlock(b: seq<Block>, x: Block)
    ensures Flatten(b + [x]) == Flatten(b) + x && |Flatten(b) + x| == 128 * (|b| + 1) &&
            BlockAt(Flatten(b) + x, |b|) == x
  {
    hide Flatten;
    FlattenSnoc(b, x);
    BlockBehind(Flatten(b), x, |b|);
  }

  lemma BlockBehind(u: Bits, x: Block, i: nat)
    requires |u| == 128 * i
    ensures |u + x| == 128 * (i + 1) && BlockAt(u + x, i) == x
  {
  }

  lemma AbsorbKeepsInv(m: Ocb, h: History, x: Block)
    requires m.st == ABSORB && Inv(m, h) && BlockStep(m, x).Some?
    ensures Inv(BlockStep(m, x).value.0, h.(aad := h.aad + [x]))
  {
    hide Ntz, L, Flatten, CryptLoop, Hash, Crypt, InitialOffset, Xor, BlockAt, CryptBlock;
    LookupInTable(m.index);
    LastBlock(h.aad, x);
    HashLoopPrefix(m.k.E, Flatten(h.aad), x, |h.aad|);
  }

  /** One message block in terms of the reference. */
  lemma CryptBlockStep(m: Ocb, h: History, x: Block)
    requires (m.st == ENC || m.st == DEC) && IsTable(m.k.E, m.table) && BlockStep(m, x).Some?
    ensures var off := Xor(m.offset, L(m.k.E, Ntz(m.index)));
            var o := CryptBlock(m.k, m.st == ENC, off, x);
            BlockStep(m, x).value ==
            (m.(offset := off, csum := Xor(m.csum, if m.st == ENC then x else o), index := m.index + 1), o)
  {
    hide Ntz, L;
    LookupInTable(m.index);
  }

  lemma CryptLoopNext(k: Key, enc: bool, start: Block, data: Bits, l: Loop, x: Block, i: nat)
    requires |data| == 128 * i && CryptLoop(k, enc, start, data, i) == l
    ensures var off := Xor(l.off, L(k.E, Ntz(i + 1)));
            var o := CryptBlock(k, enc, off, x);
            CryptLoop(k, enc, start, data + x, i + 1) == Loop(off, Xor(l.sum, if enc then x else o), l.out + o)
  {
    hide Ntz, L, CryptBlock;
    assert BlockAt(data + x, i) == x;
    CryptLoopPrefix(k, enc, start, data, x, i);
  }

  lemma CryptKeepsInv(m: Ocb, h: History, x: Block)
    requires (m.st == ENC || m.st == DEC) && Inv(m, h) && BlockStep(m, x).Some?
    ensures var (m1, o) := BlockStep(m, x).value; Inv(m1, h.(ins := h.ins + [x], outs := h.outs + [o]))
  {
    hide BlockStep, Ntz, L, Flatten, HashLoop, CryptLoop, CryptBlock, Hash, Crypt, InitialOffset, Xor, NonceBits,
         IsTable;
    CryptBlockStep(m, h, x);
    var (m1, o) := BlockStep(m, x).value;
    LastBlock(h.ins, x);
    LastBlock(h.outs, o);
    CryptLoopNext(m.k, h.enc, Start(m, h), Flatten(h.ins), Loop(m.offset, m.csum, Flatten(h.outs)), x, |h.ins|);
  }

  lemma BlockKeepsInv(m: Ocb, h: History, x: Block)
    requires Inv(m, h) && BlockStep(m, x).Some?
    ensures var (m1, o) := BlockStep(m, x).value; m1.st == m.st && Inv(m1, Extended(m.st, h, [x], [o]))
  {
    hide Inv;
    if m.st == ABSORB {
      AbsorbKeepsInv(m, h, x);
    } else {
      CryptKeepsInv(m, h, x);
    }
  }

  // ---------------------------------------------------------------- a transfer of blocks, with halts

  lemma ExtendedTwice(st: int, h: History, a: seq<Block>, b: seq<Block>, c: seq<Block>, d: seq<Block>)
    ensures Extended(st, Extended(st, h, a, b), c, d) == Extended(st, h, a + c, b + d)
  {
    assert h.aad + a + c == h.aad + (a + c) && h.ins + a + c == h.ins + (a + c) && h.outs + b + d == h.outs + (b + d);
  }

  lemma ExtendedNone(st: int, h: History)
    ensures Extended(st, h, [], []) == h
  {
    assert h.aad + [] == h.aad && h.ins + [] == h.ins && h.outs + [] == h.outs;
  }

  lemma InvIgnoresPosition(m: Ocb, h: History, klstart: nat, partial: Bits)
    requires Inv(m, h)
    ensures Inv(m.(klstart := klstart, partial := partial), h)
  {
    hide HashLoop, CryptLoop, Hash, Crypt, Flatten, InitialOffset, L, NonceBits;
  }

  /** What a transfer in State st keeps of the Machine and the blocks in and out since the history h. */
  ghost predicate Transferred(st: int, h: History, m: Ocb, xs: seq<Block>, ys: seq<Block>) {
    m.st == st && Inv(m, Extended(st, h, xs, ys))
  }

  lemma TransferKeepsInv(m: Ocb, h: History, inp: Bits, k: nat, n: nat, haltAt: Option<nat>)
    returns (outs: seq<Block>)
    requires Inv(m, h) && k <= n
    ensures var t := TransferFrom<Ocb>(BlockStep, m, inp, k, n, k, haltAt, Zeros(128 * k));
            k <= t.reached <= n && t.out == Zeros(128 * k) + Flatten(outs) && |outs| == t.reached - k &&
            t.s.st == m.st && Inv(t.s, Extended(m.st, h, InputBlocks(inp, k, t.reached), outs))
  {
    hide Inv, BlockStep, Extended, Flatten, InputBlocks;
    var st := m.st;
    ExtendedNone(st, h);
    var keeps := (s: Ocb, xs, ys) => Transferred(st, h, s, xs, ys);
    forall s: Ocb, xs: seq<Block>, ys: seq<Block>, x: Block | keeps(s, xs, ys) && BlockStep(s, x).Some?
      ensures keeps(BlockStep(s, x).value.0, xs + [x], ys + [BlockStep(s, x).value.1])
    {
      BlockKeepsInv(s, Extended(st, h, xs, ys), x);
      ExtendedTwice(st, h, xs, ys, [x], [BlockStep(s, x).value.1]);
    }
    outs := TransferKeeps<Ocb>(BlockStep, keeps, m, [], [], inp, k, n, k, haltAt, Zeros(128 * k));
    var r := TransferFrom<Ocb>(BlockStep, m, inp, k, n, k, haltAt, Zeros(128 * k)).reached;
    assert [] + InputBlocks(inp, k, r) == InputBlocks(inp, k, r) && [] + outs == outs;
  }

  lemma MultiStepKeepsInv(m: Ocb, h: History, inp: Bits, kllen: Option<nat>, klstart: nat, haltAt: Option<nat>)
    requires (m.st == ABSORB || m.st == ENC || m.st == DEC) && Inv(m, h)
    ensures var o, k := Multi(m, inp, kllen, klstart, haltAt), klstart * 8 / 128;
            o.m.st != INVALID ==>
              Inv(o.m, if o.reached <= k then h
                  else Extended(m.st, h, InputBlocks(inp, k, o.reached), OutputBlocks(o.out, k)))
  {
    hide Inv, TransferFrom, BlockStep, Extended, InputBlocks, Flatten;
    var k := klstart * 8 / 128;
    InvIgnoresPosition(m, h, m.klstart, []);
    if kllen.Some? && kllen.value % 128 == 0 && klstart * 8 % 128 == 0 && k < kllen.value / 128 {
      var n, m0 := kllen.value / 128, m.(partial := []);
      var outs := TransferKeepsInv(m0, h, inp, k, n, haltAt);
      var t := TransferFrom<Ocb>(BlockStep, m0, inp, k, n, k, haltAt, Zeros(128 * k));
      OutputBlocksOf(t.out, k, outs);
      InvIgnoresPosition(t.s, Extended(m.st, h, InputBlocks(inp, k, t.reached), outs), 16 * t.reached, t.out);
      if t.reached == k {
        ExtendedNone(m.st, h);
      }
    }
  }

  // ---------------------------------------------------------------- the last pieces

  lemma HashOfBlocks(E: Cipher, aad: seq<Block>, x: Bits)
    requires |x| <= 120
    ensures var l := HashLoop(E, Flatten(aad), |aad|);
            Hash(E, Text(aad, x)) ==
            if x == [] then l.sum else Xor(l.sum, E(Xor(PadOne(x), Xor(l.off, LStar(E)))))
  {
    hide HashLoop, Flatten, PadOne, RefPad, L, LStar;
    PadIsReference(x);
    var A := Flatten(aad) + x;
    TailOf(Flatten(aad), x, |aad|);
    HashLoopPrefix(E, Flatten(aad), x, |aad|);
  }

  lemma CryptOfBlocks(k: Key, enc: bool, nonce: nat, nbits: nat, taglen: nat, A: Bits, ins: seq<Block>, x: Bits)
    requires |A| % 128 <= 120 && |x| <= 120
    ensures |Flatten(ins) + x| % 128 <= 120
    ensures var l := CryptTail(k, enc, CryptLoop(k, enc, InitialOffset(k.E, nonce, nbits, taglen), Flatten(ins), |ins|),
            x);
            Crypt(k, enc, nonce, nbits, taglen, A, Flatten(ins) + x) ==
            (l.out, Xor(k.E(Xor(Xor(l.sum, l.off), LDollar(k.E))), Hash(k.E, A)))
  {
    hide CryptLoop, CryptTail, Flatten, Hash, InitialOffset, LDollar, Xor, Crypt;
    TailOf(Flatten(ins), x, |ins|);
    var data, start := Flatten(ins) + x, InitialOffset(k.E, nonce, nbits, taglen);
    CryptUnfold(k, enc, nonce, nbits, taglen, A, data, |ins|);
    CryptLoopPrefix(k, enc, start, Flatten(ins), x, |ins|);
  }

  lemma CryptUnfold(k: Key, enc: bool, nonce: nat, nbits: nat, taglen: nat, A: Bits, data: Bits, m: nat)
    requires |A| % 128 <= 120 && |data| % 128 <= 120 && |data| / 128 == m
    ensures var l := CryptTail(k, enc, CryptLoop(k, enc, InitialOffset(k.E, nonce, nbits, taglen), data, m),
            data[128 * m..]);
            Crypt(k, enc, nonce, nbits, taglen, A, data) ==
            (l.out, Xor(k.E(Xor(Xor(l.sum, l.off), LDollar(k.E))), Hash(k.E, A)))
  {
    hide CryptLoop, CryptTail, Hash, InitialOffset, LDollar, Xor;
  }

  lemma LastAadKeepsInv(m: Ocb, h: History, inp: Bits, kllen: Option<nat>)
    requires m.st == HABL && Inv(m, h)
    ensures var o := LastAad(m, inp, kllen);
            o.m.st != INVALID ==> o.reached == 1 && Inv(o.m, h.(aadLast := Slice(inp, 0, m.lbl)))
  {
    hide HashLoop, Hash, CryptLoop, Crypt, Flatten, PadOne, InitialOffset, L, NonceBits;
    HashOfBlocks(m.k.E, h.aad, Slice(inp, 0, m.lbl));
  }

  /** Without a last piece, the tag is masked with the offset of the last whole block. */
  lemma EmptyTag(m: Ocb, h: History, st: int)
    requires (m.st == ELB || m.st == DLB) && Inv(m, h) && st == TagState(m.st)
    ensures Inv(m.(st := st, csum := Masked(m, m.csum, m.offset)), h)
  {
    hide HashLoop, Hash, CryptLoop, Crypt, Flatten, InitialOffset, L, NonceBits, IsTable;
    CryptOfBlocks(m.k, h.enc, NonceOf(m, h), m.nlen, m.tagLen, AadText(h), h.ins, []);
    assert TextOut(h) == Flatten(h.outs) + [] == Flatten(h.outs);
  }

  lemma SumRegrouped(cs: Block, off: Block, p: Block)
    ensures Xor(cs, Xor(off, p)) == Xor(Xor(cs, p), off)
  {
    XorLaws(off, p, cs);
    XorLaws(cs, p, off);
  }

  lemma LastTextKeepsInv(m: Ocb, h: History, inp: Bits, kllen: Option<nat>)
    requires (m.st == ELB || m.st == DLB) && Inv(m, h)
    ensures var o := LastText(m, inp, kllen);
            o.m.st != INVALID ==> o.reached == 1 && Inv(o.m, h.(lastIn := Slice(inp, 0, m.lbl), lastOut := o.out))
  {
    hide HashLoop, Hash, CryptLoop, Crypt, Flatten, InitialOffset, L, NonceBits, PadOne, RefPad, Xor, IsTable;
    var x, o := Slice(inp, 0, m.lbl), LastText(m, inp, kllen);
    if m.lbl == 0 {
      EmptyTag(m, h, TagState(m.st));
      assert h.(lastIn := x, lastOut := o.out) == h;
    } else if o.m.st != INVALID {
      PadIsReference(if m.st == ELB then x else o.out);
      CryptOfBlocks(m.k, h.enc, NonceOf(m, h), m.nlen, m.tagLen, AadText(h), h.ins, x);
      SumRegrouped(m.csum, Xor(m.offset, m.Ls), PadOne(if m.st == ELB then x else o.out));
    }
  }

  // ---------------------------------------------------------------- every instruction keeps the invariant

  lemma NonceKeepsInv(m: Ocb, h: History, inp: Bits, kllen: Option<nat>)
    requires m.st == SAV && Inv(m, h)
    ensures var o := LoadNonce(m, inp, kllen);
            o.m.st != INVALID ==> o.reached == 1 && Inv(o.m, h.(nonce := Slice(inp, 0, 8 * NonceBytes(m.nlen))))
  {
    hide MessageInv, MaskNonce, NonceBits;
    PadBitsIgnored(inp, m.nlen);
    NonceOfSlice(inp, m.nlen);
  }

  lemma NonceOfSlice(x: Bits, n: nat)
    ensures NonceBits(Slice(x, 0, 8 * NonceBytes(n)), n) == NonceBits(x, n)
  {
    var q := NonceBytes(n);
    assert Slice(Slice(x, 0, 8 * q), 0, 8 * q) == Slice(x, 0, 8 * q);
  }

  lemma FailedInv(m: Ocb, h: History)
    requires m.st == INVALID
    ensures Inv(m, h)
  {
  }

  lemma ReadyKeepsInv(m: Ocb, h: History)
    requires m.st != INVALID && Inv(m, h)
    ensures Inv(Ready(m), NOTHING.(nonce := if m.preset then h.nonce else []))
  {
    hide MessageInv, NonceBits;
  }

  lemma EntersMessage(m: Ocb, h: History, xs: nat)
    requires Inv(m, h) && Admits(m.preset, m.st, ABSORB) && Enter(m, ABSORB, xs).Some?
    ensures Inv(Enter(m, ABSORB, xs).value, h)
  {
    hide Hash, CryptLoop, Crypt, InitialOffset, NonceBits, Double, RefDouble, Doubles, L, IsTable;
    DoubleIsReference(LStar(m.k.E));
    SetupTable(m, xs);
  }

  lemma EntersLastAad(m: Ocb, h: History, xs: nat)
    requires Inv(m, h) && m.st == ABSORB && Enter(m, HABL, xs).Some?
    ensures Inv(Enter(m, HABL, xs).value, h)
  {
    hide HashLoop, Hash, CryptLoop, Crypt, InitialOffset, NonceBits, Flatten, IsTable;
    HashOfBlocks(m.k.E, h.aad, []);
  }

  lemma EntersText(m: Ocb, h: History, st: int, xs: nat)
    requires Inv(m, h) && m.st == HABL && (st == ENC || st == DEC)
    ensures Inv(Enter(m, st, xs).value, h.(enc := st == ENC))
  {
    hide HashLoop, Hash, Crypt, InitialOffset, NonceBits, IsTable, StartOffset;
    StartIsInitial(m.k.E, m.N, m.nlen, m.tagLen);
  }

  lemma EntersLast(m: Ocb, h: History, st: int, xs: nat)
    requires Inv(m, h) && Admits(m.preset, m.st, st) && (st == ELB || st == DLB) && Enter(m, st, xs).Some?
    ensures Inv(Enter(m, st, xs).value, h)
  {
    hide HashLoop, Hash, Crypt, CryptLoop, InitialOffset, NonceBits, IsTable, Flatten;
  }

  lemma EntersNonce(m: Ocb, h: History, xs: nat)
    requires Inv(m, h) && Admits(m.preset, m.st, SAV) && Enter(m, SAV, xs).Some?
    ensures Inv(Enter(m, SAV, xs).value, NOTHING)
  {
    hide MessageInv, NonceBits;
  }

  /** What a kl.setst to another State than Ready leaves behind, unless it fails. */
  lemma Admitted(m: Ocb, st: int, form: Form, xs: nat, inp: Bits)
    requires st != READY
    ensures var m' := DoSetSt(m, st, form, xs, inp);
            m'.st == INVALID ||
            (m.st != INVALID && Admits(m.preset, m.st, st) && Enter(m, st, xs) == Some(m'))
  {
    hide Enter, FormOk, Allowed;
  }

  lemma EnterKeepsInv(m: Ocb, h: History, st: int, xs: nat)
    requires Inv(m, h) && Admits(m.preset, m.st, st) && st != READY && Enter(m, st, xs).Some?
    ensures Inv(Enter(m, st, xs).value, if st == SAV then NOTHING
            else if st == ENC || st == DEC then h.(enc := st == ENC) else h)
  {
    if st == SAV {
      EntersNonce(m, h, xs);
    } else if st == ABSORB {
      EntersMessage(m, h, xs);
    } else if st == HABL {
      EntersLastAad(m, h, xs);
    } else if st == ENC || st == DEC {
      EntersText(m, h, st, xs);
    } else if st == ELB || st == DLB {
      EntersLast(m, h, st, xs);
    } else {
      EmptyTag(m, h, st);
    }
  }

  lemma SetStKeepsInv(m: Ocb, h: History, st: int, form: Form, xs: nat, inp: Bits)
    requires Inv(m, h)
    ensures Inv(DoSetSt(m, st, form, xs, inp), HistoryStep(m, h, SetSt(st, form, xs, inp)))
  {
    hide Inv, Enter, DoSetSt, Ready;
    var m' := DoSetSt(m, st, form, xs, inp);
    if m'.st == INVALID {
      FailedInv(m', HistoryStep(m, h, SetSt(st, form, xs, inp)));
    } else if st == READY {
      IsReady(m, form, xs, inp);
      ReadyKeepsInv(m, h);
    } else {
      Admitted(m, st, form, xs, inp);
      EnterKeepsInv(m, h, st, xs);
    }
  }

  lemma IsReady(m: Ocb, form: Form, xs: nat, inp: Bits)
    requires DoSetSt(m, READY, form, xs, inp).st != INVALID
    ensures m.st != INVALID && DoSetSt(m, READY, form, xs, inp) == Ready(m)
  {
    hide Ready;
  }

  lemma EndKeepsInv(m: Ocb, h: History, inp: Bits, kllen: Option<nat>)
    requires Inv(m, h)
    ensures m.st == ETF ==> Inv(EmitTag(m, kllen).m, h)
    ensures m.st == VERIFY ==> Inv(CheckTag(m, inp, kllen).m, h)
  {
    hide MessageInv, NonceBits;
  }

  lemma WorkKeepsInv(m: Ocb, h: History, inp: Bits, kllen: Option<nat>, klstart: nat, haltAt: Option<nat>)
    requires Inv(m, h) && ExecForm(m.st, m.lbl).Some?
    ensures var o, k := Work(m, inp, kllen, klstart, haltAt), klstart * 8 / 128;
            o.m.st != INVALID ==>
              Inv(o.m, if m.st == ABSORB || m.st == ENC || m.st == DEC then
                         if o.reached <= k then h
                             else Extended(m.st, h, InputBlocks(inp, k, o.reached), OutputBlocks(o.out, k))
                       else if o.reached != 1 then h
                       else if m.st == SAV then h.(nonce := Slice(inp, 0, 8 * NonceBytes(m.nlen)))
                       else if m.st == HABL then h.(aadLast := Slice(inp, 0, m.lbl))
                       else if m.st == ELB || m.st == DLB then h.(lastIn := Slice(inp, 0, m.lbl), lastOut := o.out)
                       else h)
  {
    hide Inv, Multi, LoadNonce, LastAad, LastText, Extended, InputBlocks, OutputBlocks;
    if m.st == SAV {
      NonceKeepsInv(m, h, inp, kllen);
    } else if m.st == ABSORB || m.st == ENC || m.st == DEC {
      MultiStepKeepsInv(m, h, inp, kllen, klstart, haltAt);
    } else if m.st == HABL {
      LastAadKeepsInv(m, h, inp, kllen);
    } else if m.st == ELB || m.st == DLB {
      LastTextKeepsInv(m, h, inp, kllen);
    } else {
      EndKeepsInv(m, h, inp, kllen);
    }
  }

  lemma ExecKeepsInv(m0: Ocb, h: History, form: Form, inp: Bits, kllen: Option<nat>, klstart: nat, haltAt: Option<nat>)
    requires Inv(m0, h)
    ensures Inv(DoExec(m0, form, inp, kllen, klstart, haltAt).m, HistoryStep(m0, h, Exec(form, inp, kllen, klstart,
            haltAt)))
  {
    hide Inv, Work, Extended, InputBlocks, OutputBlocks, Allowed;
    var m, o := m0.(klstart := 0), DoExec(m0, form, inp, kllen, klstart, haltAt);
    if o.m.st == INVALID {
      FailedInv(o.m, HistoryStep(m0, h, Exec(form, inp, kllen, klstart, haltAt)));
    } else {
      InvIgnoresPosition(m0, h, 0, m0.partial);
      if !EmptyWindow(m, kllen, klstart) {
        WorkKeepsInv(m, h, inp, kllen, klstart, haltAt);
      }
    }
  }

  /** The invariant holds of every provisioned locker. */
  lemma CreateInv(k: Key, nonce: Option<(Bits, nat)>, policy: nat)
    requires 0 < policy < 4 && (nonce.Some? ==> policy == 2) && NonceOk(nonce)
    ensures Inv(Create(k, nonce, policy), NOTHING.(nonce := if nonce.Some? then nonce.value.0 else []))
  {
    hide NonceBits, MaskNonce;
    if nonce.Some? {
      PadBitsIgnored(nonce.value.0, nonce.value.1);
    }
  }

  lemma RestrictKeepsInv(m: Ocb, h: History, mask: nat)
    requires Inv(m, h)
    ensures Inv(DoRestrict(m, mask), h)
  {
    hide HashLoop, CryptLoop, Hash, Crypt, Flatten, InitialOffset, L, NonceBits, IsTable;
  }

  /** Every instruction keeps the invariant. */
  lemma StepKeepsInv(m: Ocb, h: History, i: Instr)
    requires Inv(m, h)
    ensures Inv(Step(m, i).m, HistoryStep(m, h, i))
  {
    match i
    case SetSt(st, form, xs, inp) => SetStKeepsInv(m, h, st, form, xs, inp);
    case Exec(form, inp, kllen, klstart, haltAt) => ExecKeepsInv(m, h, form, inp, kllen, klstart, haltAt);
    case Restrict(mask) => RestrictKeepsInv(m, h, mask);
  }
}
