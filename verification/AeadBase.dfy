/**
 What the AEAD Machines share: the States and instruction Forms, the policy gate, and strings cut into blocks.
 */
module AeadBase {
  import opened Wrappers
  import opened BitStrings
  import opened Gf128

  /** The block cipher under the locker's key. */
  type Cipher = Block -> Block

  datatype Form = FormA | FormB | FormC | FormD

  const READY := 1
  const ABSORB := 2
  const HABL := 3
  const VERIFY := 5
  const HOUT := 6
  const ENC := 7
  const DEC := 8
  const ELB := 9
  const DLB := 10
  const ETF := 11
  const DTF := 12
  const SAV := 13
  const SAV2 := 14
  const SUCCESS := 54
  const FAILURE := 55
  const INVALID := -1

  predicate IsZero(v: Bits) {
    true !in v
  }

  predicate FormOk(exp: Option<Form>, form: Form, xs: nat, inp: Bits) {
    exp.Some? &&
    (form == exp.value || (form == FormA && (exp.value == FormB || exp.value == FormC) && xs == 0 && IsZero(inp)) ||
     (form == FormD && exp.value == FormC))
  }

  /** Whether MachinePolicy lets the locker be in, or operate in, State st. */
  predicate Allowed(policy: nat, st: int) {
    if st == ENC || st == ELB || st == ETF then policy % 2 == 1
    else if st == DEC || st == DLB || st == DTF || st == VERIFY then policy / 2 % 2 == 1
    else true
  }

  predicate HaltsAt(haltAt: Option<nat>, position: nat) {
    haltAt.Some? && position == 8 * haltAt.value
  }

  /** The value with x placed at bit position at. */
  function Placed(x: Bits, at: nat): (r: Block)
    requires at + |x| <= 128
  {
    Zeros(at) + x + Zeros(128 - at - |x|)
  }

  // ---------------------------------------------------------------- blocks

  /** The 16-byte blocks of v. */
  function BlockSeq(v: Bits): (r: seq<Block>)
    requires |v| % 128 == 0
  {
    if v == [] then [] else [v[..128]] + BlockSeq(v[128..])
  }

  function Flatten(b: seq<Block>): (r: Bits)
    ensures |r| == 128 * |b|
  {
    if b == [] then [] else b[0] + Flatten(b[1..])
  }

  lemma {:induction false} BlocksOfFlatten(b: seq<Block>)
    ensures BlockSeq(Flatten(b)) == b
  {
    if b != [] {
      BlocksOfFlatten(b[1..]);
      assert Flatten(b)[..128] == b[0] && Flatten(b)[128..] == Flatten(b[1..]);
    }
  }

  lemma {:induction false} BlocksConcat(u: Bits, v: Bits)
    requires |u| % 128 == 0 && |v| % 128 == 0
    ensures BlockSeq(u + v) == BlockSeq(u) + BlockSeq(v)
  {
    if u == [] {
      assert u + v == v;
    } else {
      BlocksConcat(u[128..], v);
      assert (u + v)[..128] == u[..128] && (u + v)[128..] == u[128..] + v;
    }
  }

  lemma OneBlock(b: Bits)
    requires |b| == 128
    ensures BlockSeq(b) == [b]
  {
    assert b[..128] == b && b[128..] == [];
  }

  lemma {:induction false} FlattenSnoc(b: seq<Block>, x: Block)
    ensures Flatten(b + [x]) == Flatten(b) + x
  {
    if b == [] {
      assert [] + [x] == [x];
      assert [x][1..] == [];
    } else {
      FlattenSnoc(b[1..], x);
      assert (b + [x])[1..] == b[1..] + [x];
    }
  }

  function InputBlocks(inp: Bits, k: nat, r: nat): (b: seq<Block>)
    ensures |b| == if k < r then r - k else 0
    decreases r
  {
    if k >= r then [] else InputBlocks(inp, k, r - 1) + [Slice(inp, 128 * (r - 1), 128)]
  }

  function OutputBlocks(out: Bits, k: nat): seq<Block> {
    if |out| % 128 == 0 && 128 * k <= |out| then BlockSeq(out[128 * k..]) else []
  }

  lemma InputBlocksCons(inp: Bits, i: nat, r: nat)
    requires i < r
    ensures InputBlocks(inp, i, r) == [Slice(inp, 128 * i, 128)] + InputBlocks(inp, i + 1, r)
    decreases r
  {
    if i < r - 1 {
      InputBlocksCons(inp, i, r - 1);
    }
  }

  /** Put together, the blocks are the stretch of the input that they were cut from. */
  lemma {:induction false} InputBlocksAre(inp: Bits, k: nat, r: nat)
    requires k <= r
    ensures Flatten(InputBlocks(inp, k, r)) == Slice(inp, 128 * k, 128 * (r - k))
    decreases r
  {
    hide Slice;
    if k < r {
      InputBlocksAre(inp, k, r - 1);
      FlattenSnoc(InputBlocks(inp, k, r - 1), Slice(inp, 128 * (r - 1), 128));
      SliceNext(inp, 128 * k, 128 * (r - 1 - k), 128);
      assert 128 * k + 128 * (r - 1 - k) == 128 * (r - 1);
    } else {
      assert Slice(inp, 128 * k, 0) == [] by { SliceNone(inp, 128 * k); }
    }
  }

  lemma WholeBlocks(n: nat)
    requires n % 128 == 0
    ensures 128 * (n / 128) == n
  {
  }

  lemma SliceNext(v: Bits, lo: nat, a: nat, b: nat)
    ensures Slice(v, lo, a) + Slice(v, lo + a, b) == Slice(v, lo, a + b)
  {
  }

  lemma SliceNone(v: Bits, lo: nat)
    ensures Slice(v, lo, 0) == []
  {
  }

  lemma OutputBlocksOf(out: Bits, k: nat, outs: seq<Block>)
    requires out == Zeros(128 * k) + Flatten(outs)
    ensures OutputBlocks(out, k) == outs
  {
    assert out[128 * k..] == Flatten(outs);
    BlocksOfFlatten(outs);
  }

  function Double(b: Block): (r: Block) {
    ByteSwap(MulX(ByteSwap(b), Low87()))
  }

  /** A last piece, a one bit in the top of the next byte, zeros. */
  function PadOne(x: Bits): (r: Block)
    requires |x| <= 120
  {
    x + Zeros(7) + [true] + Zeros(120 - |x|)
  }

  function BlockAt(data: Bits, i: nat): (r: Block)
    requires 128 * (i + 1) <= |data|
  {
    data[128 * i..128 * (i + 1)]
  }

  /** The same number: bits past the end are zero. */
  ghost predicate SameValue(u: Bits, v: Bits) {
    forall i: nat :: Bit(u, i) == Bit(v, i)
  }

  function Bit(u: Bits, i: nat): bool {
    i < |u| && u[i]
  }

  lemma SameSelf(u: Bits)
    ensures SameValue(u, u)
  {
  }
}
