/** One-shot hashing of a whole message (FIPS 180-4, GB/T 32905, RFC 7693, FIPS 202) and HMAC (FIPS 198-1). */
module HashReference {
  import opened Wrappers
  import opened Modular
  import opened BitStrings
  import opened HashMachine

  /** n is a whole number of blocks. */
  predicate Whole(n: int, b: nat)
    requires b > 0
  {
    n % b == 0
  }

  /** One block: count is the number of bytes up to its end. */
  function BlockStep(f: Fn, S: Bits, blk: Bits, count: nat, final: bool): (r: Bits)
    requires FnOk(f) && |S| == StateLen(f) && |blk| == B(f)
    ensures |r| == StateLen(f)
  {
    match f
    case Md(C, _, w, _) => Slice(C(S, blk), 0, 8 * w)
    case Blake(F, _, w) => Slice(F(S, blk, count, final), 0, 8 * w)
    case Sponge(P, rate, _, _, _) => Slice(P(Xor(S, PlacedIn(1600, blk, 0))), 0, 1600)
  }

  /** The blocks of V, one after the other. */
  function Chain(f: Fn, S0: Bits, V: Bits): (r: Bits)
    requires FnOk(f) && |S0| == StateLen(f) && Whole(|V|, B(f))
    ensures |r| == StateLen(f)
    decreases |V|
  {
    if V == [] then S0
    else
      var n := |V| - B(f);
      OneBlockLess(|V|, B(f));
      BlockStep(f, Chain(f, S0, V[..n]), V[n..], |V| / 8, false)
  }

  lemma OneBlockLess(n: nat, b: nat)
    requires b > 0 && Whole(n, b) && n > 0
    ensures n >= b && Whole(n - b, b)
  {
    var k := n / b;
    assert n == k * b;
    if k == 0 {
      assert false;
    }
    MulMono(1, k, b);
    assert n - b == (k - 1) * b;
    DivModUnique(n - b, b, k - 1, 0);
  }

  /** How many zeros complete n to a multiple of b. */
  function Missing(n: nat, b: nat): (z: nat)
    requires b > 0
    ensures z < b && Whole(n + z, b)
  {
    var r := n % b;
    MissingValue(n, b);
    if r == 0 then 0 else b - r
  }

  lemma MissingValue(n: nat, b: nat)
    requires b > 0
    ensures (n + if Whole(n, b) then 0 else b - n % b) % b == 0
  {
    var k, r := n / b, n % b;
    assert n == k * b + r;
    if r != 0 {
      assert n + (b - r) == (k + 1) * b;
      DivModUnique(n + (b - r), b, k + 1, 0);
    }
  }

  lemma MissingUnique(n: nat, b: nat, z: nat)
    requires b > 0 && z < b && Whole(n + z, b)
    ensures Missing(n, b) == z
  {
    var y := Missing(n, b);
    var k, l := (n + z) / b, (n + y) / b;
    assert n + z == k * b && n + y == l * b;
    var d := k - l;
    assert z - y == d * b;
    MulAtLeast(d, b);
  }

  // ---------------------------------------------------------------- SHA-2 and SM3

  /** A one, z zeros, and the length on lw bits, most significant bit first. */
  function PadWith(m: Bits, z: nat, lw: nat): (p: Bits)
    ensures |p| == |m| + 1 + lw + z
  {
    m + [true] + Zeros(z) + Reverse(FromNat(|m|, lw))
  }

  /** Section 5.1 of FIPS 180-4: as few zeros as complete a block. */
  function MdPad(f: Fn, m: Bits): (p: Bits)
    requires FnOk(f) && f.Md?
    ensures Whole(|p|, B(f))
  {
    PadWith(m, Missing(|m| + 1 + 2 * f.w, B(f)), 2 * f.w)
  }

  function MdBytes(f: Fn, m: Bits): (p: Bits)
    requires FnOk(f) && f.Md?
    ensures Whole(|p|, B(f))
  {
    BytesOfBlocks(|MdPad(f, m)|, B(f));
    BitSwap(MdPad(f, m))
  }

  function MdState(f: Fn, m: Bits): (s: Bits)
    requires FnOk(f) && f.Md?
    ensures |s| == StateLen(f)
  {
    Chain(f, f.iv, MdBytes(f, m))
  }

  lemma BytesOfBlocks(n: nat, b: nat)
    requires b > 0 && b % 8 == 0 && Whole(n, b)
    ensures n % 8 == 0
  {
    var k, c := n / b, b / 8;
    assert n == k * b && b == 8 * c;
    assert n == (k * c) * 8;
    DivModUnique(n, 8, k * c, 0);
  }

  // ---------------------------------------------------------------- SHA-3 and SHAKE

  /** Domain bits and pad10*1. */
  function SpongePad(f: Fn, m: Bits): (p: Bits)
    requires FnOk(f) && f.Sponge?
    ensures Whole(|p|, B(f))
  {
    m + (f.D + [true] + Zeros(Missing(|m| + |f.D| + 2, f.rate)) + [true])
  }

  function SpongeState(f: Fn, m: Bits): (s: Bits)
    requires FnOk(f) && f.Sponge?
    ensures |s| == StateLen(f)
  {
    Chain(f, Zeros(1600), SpongePad(f, m))
  }

  // ---------------------------------------------------------------- BLAKE2

  /** The length of the complete blocks before the last one, which is not empty. */
  function BeforeLast(n: nat, b: nat): (k: nat)
    requires b > 0 && n > 0
    ensures Whole(k, b) && k < n <= k + b
  {
    LastBlockStart(n, b);
    (n - 1) / b * b
  }

  lemma LastBlockStart(n: nat, b: nat)
    requires b > 0 && n > 0
    ensures var k := (n - 1) / b * b; k >= 0 && Whole(k, b) && k < n <= k + b
  {
    var q := (n - 1) / b;
    assert n - 1 == q * b + (n - 1) % b;
    DivModUnique(q * b, b, q, 0);
  }

  /** data is the key block, if any, and the message; an empty one is hashed as a block of zeros. */
  function BlakeState(f: Fn, S0: Bits, data: Bits): (s: Bits)
    requires FnOk(f) && f.Blake? && |S0| == StateLen(f)
    ensures |s| == StateLen(f)
  {
    if data == [] then BlockStep(f, S0, Zeros(B(f)), 0, true)
    else
      var n := BeforeLast(|data|, B(f));
      BlockStep(f, Chain(f, S0, data[..n]), data[n..] + Zeros(B(f) - (|data| - n)), |data| / 8, true)
  }

  // ---------------------------------------------------------------- the state that is read

  /** A byte string as message bits: SHA-2 and SM3 take the most significant bit of each byte first. */
  function Order(f: Fn, v: Bits): (r: Bits)
    requires |v| % 8 == 0
    ensures |r| == |v|
  {
    if f.Md? then BitSwap(v) else v
  }

  function PlainState(g: Config, kk: nat, nn: nat, m: Bits): (s: Bits)
    requires ConfigOk(g)
    ensures |s| == StateLen(g.f)
  {
    if g.f.Md? then MdState(g.f, m)
    else if g.f.Sponge? then SpongeState(g.f, m)
    else BlakeState(g.f, Iv(g.f, kk, nn), if g.sk.Some? then g.sk.value + m else m)
  }

  /** Every byte of the key block with the byte x added. */
  function XorEach(key: Bits, x: nat): (r: Bits)
    requires |key| % 8 == 0
    ensures |r| == |key|
  {
    if key == [] then [] else Xor(key[..8], FromNat(x, 8)) + XorEach(key[8..], x)
  }

  /** The hash of m, or its HMAC under the key block. */
  function RefState(g: Config, kk: nat, nn: nat, m: Bits): (s: Bits)
    requires ConfigOk(g)
    ensures |s| == StateLen(g.f)
  {
    if g.key.None? then PlainState(g, kk, nn, m)
    else
      var inner := PlainState(g, kk, nn, Order(g.f, XorEach(g.key.value, 0x36)) + m)[..T(g.f)];
      PlainState(g, kk, nn, Order(g.f, XorEach(g.key.value, 0x5C)) + Order(g.f, inner))
  }

  /** The state after n further permutations. */
  function Squeezes(f: Fn, S: Bits, n: nat): (r: Bits)
    requires FnOk(f) && |S| == StateLen(f)
    ensures |r| == StateLen(f)
  {
    if n == 0 || !f.Sponge? then S else Slice(f.P(Squeezes(f, S, n - 1)), 0, 1600)
  }

  /** Which state, and which of its bits, output bit i is. */
  function Turn(f: Fn, i: nat): (n: nat)
    requires FnOk(f)
  {
    i / T(f)
  }

  function Spot(f: Fn, i: nat): (k: nat)
    requires FnOk(f)
    ensures k < T(f)
  {
    i % T(f)
  }

  /** Bit i of the output: the readable part of each state in turn. */
  function OutBit(f: Fn, S: Bits, i: nat): bool
    requires FnOk(f) && |S| == StateLen(f)
  {
    Squeezes(f, S, Turn(f, i))[Spot(f, i)]
  }

  function OutRange(f: Fn, S: Bits, pos: nat, n: nat): (r: Bits)
    requires FnOk(f) && |S| == StateLen(f)
    ensures |r| == n
  {
    seq(n, i requires 0 <= i < n => OutBit(f, S, pos + i))
  }
}
