/**
 The hash Machines against one-shot hashing, over whole runs: whatever the split of the message into transfers, the
 interruptions, the final piece and the reads, what is emitted is one stream, the output for the message absorbed.
 */
module HashCorrect {
  import opened Wrappers
  import opened Modular
  import opened BitStrings
  import opened HashMachine
  import opened BlockNumbers
  import opened HashReference

  // ---------------------------------------------------------------- a core that has taken in V

  /** All of V but the last bb bits is compressed; those bits wait in the block, or are already added to the state. */
  ghost predicate Holds(f: Fn, S0: Bits, c: Core, V: Bits) {
    && CoreOk(f, c) && |S0| == StateLen(f) && c.bb <= |V| && Whole(|V| - c.bb, B(f))
    && (f.Blake? ==> c.cum == |V|)
    && var n := |V| - c.bb;
       if f.Sponge? then c.S == Xor(Chain(f, S0, V[..n]), PlacedIn(1600, V[n..], 0))
       else c.S == Chain(f, S0, V[..n]) && c.blk[..c.bb] == V[n..]
  }

  lemma FreshHolds(f: Fn, S0: Bits, c: Core)
    requires CoreOk(f, c) && |S0| == StateLen(f) && c.S == S0 && c.bb == 0 && c.cum == 0
    ensures Holds(f, S0, c, [])
  {
    if f.Sponge? {
      assert PlacedIn(1600, [], 0) == Zeros(1600);
      XorLaws(S0, S0, S0);
      var e: Bits := [];
      assert e[0..] == [];
    }
  }

  lemma ChainSnoc(f: Fn, S0: Bits, V: Bits, x: Bits)
    requires FnOk(f) && |S0| == StateLen(f) && Whole(|V|, B(f)) && |x| == B(f)
    ensures Whole(|V + x|, B(f))
    ensures Chain(f, S0, V + x) == BlockStep(f, Chain(f, S0, V), x, |V + x| / 8, false)
  {
    hide BlockStep;
    OneBlockMore(|V|, B(f));
    var W := V + x;
    assert W[..|V|] == V && W[|V|..] == x;
  }

  lemma OneBlockMore(n: nat, b: nat)
    requires b > 0 && Whole(n, b)
    ensures Whole(n + b, b)
  {
    assert n == n / b * b;
    DivModUnique(n + b, b, n / b + 1, 0);
  }

  lemma PlacedXor(u: Bits, x: Bits, S: Bits)
    requires |u| + |x| <= 1600 == |S|
    ensures Xor(Xor(S, PlacedIn(1600, u, 0)), PlacedIn(1600, x, |u|)) == Xor(S, PlacedIn(1600, u + x, 0))
  {
  }

  /** A piece is taken in. */
  lemma PutHolds(f: Fn, S0: Bits, c: Core, V: Bits, x: Bits, count: bool)
    requires Holds(f, S0, c, V) && c.bb + |x| <= B(f) && (f.Blake? ==> count)
    ensures Holds(f, S0, Put(f, c, x, count), V + x)
  {
    if f.Sponge? {
      PutSponge(f, S0, c, V, x, count);
    } else {
      PutBlock(f, S0, c, V, x, count);
    }
  }

  lemma PutSponge(f: Fn, S0: Bits, c: Core, V: Bits, x: Bits, count: bool)
    requires f.Sponge? && Holds(f, S0, c, V) && c.bb + |x| <= B(f)
    ensures Holds(f, S0, Put(f, c, x, count), V + x)
  {
    hide Chain, BlockStep, Whole;
    var n := |V| - c.bb;
    var u, W := V[n..], V + x;
    assert W[..n] == V[..n] && W[n..] == u + x;
    PlacedXor(u, x, Chain(f, S0, V[..n]));
    if c.bb + |x| == B(f) {
      ChainSnoc(f, S0, V[..n], u + x);
      SpongeBlock(f, Chain(f, S0, V[..n]), u + x, |W| / 8);
      assert V[..n] + (u + x) == W && W[..|W|] == W && W[|W|..] == [];
      FullSponge(Chain(f, S0, W));
    }
  }

  lemma SpongeBlock(f: Fn, S: Bits, x: Bits, count: nat)
    requires FnOk(f) && f.Sponge? && |S| == 1600 && |x| == B(f)
    ensures BlockStep(f, S, x, count, false) == Slice(f.P(Xor(S, PlacedIn(1600, x, 0))), 0, 1600)
  {
  }

  lemma FullSponge(S: Bits)
    requires |S| == 1600
    ensures Xor(S, PlacedIn(1600, [], 0)) == S
  {
    assert PlacedIn(1600, [], 0) == Zeros(1600);
    XorLaws(S, S, S);
  }

  lemma PutBlock(f: Fn, S0: Bits, c: Core, V: Bits, x: Bits, count: bool)
    requires !f.Sponge? && Holds(f, S0, c, V) && c.bb + |x| <= B(f) && (f.Blake? ==> count)
    ensures Holds(f, S0, Put(f, c, x, count), V + x)
  {
    hide Chain, BlockStep, Whole;
    var n := |V| - c.bb;
    var u, W := V[n..], V + x;
    assert W[..n] == V[..n] && W[n..] == u + x;
    var blk := c.blk[..c.bb] + x + c.blk[c.bb + |x|..];
    assert blk[..c.bb + |x|] == u + x;
    if c.bb + |x| == B(f) && !f.Blake? {
      assert blk == u + x;
      ChainSnoc(f, S0, V[..n], u + x);
      MdBlock(f, Chain(f, S0, V[..n]), u + x, |W| / 8);
      assert V[..n] + (u + x) == W && W[..|W|] == W;
    }
  }

  lemma MdBlock(f: Fn, S: Bits, x: Bits, count: nat)
    requires FnOk(f) && f.Md? && |S| == StateLen(f) && |x| == B(f)
    ensures BlockStep(f, S, x, count, false) == Slice(f.C(S, x), 0, 8 * f.w)
  {
  }

  /** Compressing a held block changes nothing about what has been taken in. */
  lemma ReleasedHolds(f: Fn, S0: Bits, c: Core, V: Bits)
    requires Holds(f, S0, c, V)
    ensures Holds(f, S0, Released(f, c), V)
  {
    hide Chain, BlockStep, Whole;
    if f.Blake? && c.bb == B(f) {
      var n := |V| - c.bb;
      assert c.blk[..B(f)] == c.blk;
      ChainSnoc(f, S0, V[..n], V[n..]);
      assert V[..n] + V[n..] == V && V[..|V|] == V && V[|V|..] == [];
      BlakeBlock(f, Chain(f, S0, V[..n]), c.blk, |V| / 8, false);
      OneBlockMore(n, B(f));
    }
  }

  lemma BlakeBlock(f: Fn, S: Bits, x: Bits, count: nat, final: bool)
    requires FnOk(f) && f.Blake? && |S| == StateLen(f) && |x| == B(f)
    ensures BlockStep(f, S, x, count, final) == Slice(f.F(S, x, count, final), 0, 8 * f.w)
  {
  }

  /** One turn of the absorbing loop. */
  function Turned(f: Fn, c: Core, X: Bits, ib: nat, kl: nat, count: bool): (r: (Core, nat))
    requires CoreOk(f, c) && ib < kl
    ensures CoreOk(f, r.0) && ib < r.1 <= kl
  {
    var c1 := Released(f, c);
    var a := Min(kl - ib, B(f) - c1.bb);
    (Put(f, c1, Slice(X, ib, a), count), ib + a)
  }

  lemma VliTurn(f: Fn, c: Core, X: Bits, ib: nat, kl: nat, count: bool, halt: bool)
    requires CoreOk(f, c)
    ensures ib >= kl ==> Vli(f, c, X, ib, kl, count, halt) == (c, ib)
    ensures ib < kl ==>
              var (c2, e) := Turned(f, c, X, ib, kl, count);
              Vli(f, c, X, ib, kl, count, halt) == if halt && e < kl then (c2, e) else Vli(f, c2, X, e, kl, count, halt)
  {
    hide Put, Released;
  }

  lemma TurnHolds(f: Fn, S0: Bits, c: Core, V: Bits, X: Bits, ib: nat, kl: nat, count: bool)
    requires CoreOk(f, c) && Holds(f, S0, c, V) && (f.Blake? ==> count) && ib < kl
    ensures var (c2, e) := Turned(f, c, X, ib, kl, count);
            Holds(f, S0, c2, V + Slice(X, ib, e - ib)) && c2.cum == c.cum + (if count then e - ib else 0) &&
            (e < kl ==> AtBoundary(f, c2)) && (f.Blake? ==> c2.bb > 0)
  {
    hide Holds, Put, Released, Slice, Whole;
    var c1 := Released(f, c);
    ReleasedHolds(f, S0, c, V);
    HoldsOk(f, S0, c1, V);
    var x := Slice(X, ib, Min(kl - ib, B(f) - c1.bb));
    PutHolds(f, S0, c1, V, x, count);
    PutFields(f, c, x, count);
  }

  /** The absorbing loop takes in the bits it passes; where it is interrupted, it can be resumed. */
  lemma {:induction false} VliHolds(f: Fn, S0: Bits, c: Core, V: Bits, X: Bits, ib: nat, kl: nat, count: bool,
      halt: bool)
    requires CoreOk(f, c) && Holds(f, S0, c, V) && (f.Blake? ==> count)
    ensures var (c', e) := Vli(f, c, X, ib, kl, count, halt);
            e >= ib && Holds(f, S0, c', V + Slice(X, ib, e - ib)) && c'.cum == c.cum + (if count then e - ib else 0) &&
            (ib < kl ==> ib < e <= kl) && (ib >= kl ==> e == ib && c' == c) && (e < kl ==> halt && AtBoundary(f, c')) &&
            (f.Blake? && ib < kl ==> c'.bb > 0)
    decreases kl - ib
  {
    hide Holds, Turned, Slice, Vli, AtBoundary, Whole;
    VliTurn(f, c, X, ib, kl, count, halt);
    if ib >= kl {
      NothingMore(V, X, ib);
    } else {
      var (c2, e) := Turned(f, c, X, ib, kl, count);
      TurnHolds(f, S0, c, V, X, ib, kl, count);
      if !(halt && e < kl) {
        VliHolds(f, S0, c2, V + Slice(X, ib, e - ib), X, e, kl, count, halt);
        JoinSlices(V, X, ib, e - ib, Vli(f, c2, X, e, kl, count, halt).1);
      }
    }
  }

  lemma NothingMore(V: Bits, X: Bits, ib: nat)
    ensures V + Slice(X, ib, 0) == V
  {
  }

  lemma JoinSlices(V: Bits, X: Bits, ib: nat, a: nat, e: nat)
    requires ib + a <= e
    ensures V + Slice(X, ib, a) + Slice(X, ib + a, e - (ib + a)) == V + Slice(X, ib, e - ib)
  {
  }

  lemma HoldsOk(f: Fn, S0: Bits, c: Core, V: Bits)
    requires Holds(f, S0, c, V)
    ensures CoreOk(f, c) && |S0| == StateLen(f) && c.bb <= |V| && Whole(|V| - c.bb, B(f))
  {
    hide Chain;
  }

  lemma PutFields(f: Fn, c: Core, x: Bits, count: bool)
    requires CoreOk(f, c) && Released(f, c).bb + |x| <= B(f)
    ensures var c2, bb := Put(f, Released(f, c), x, count), Released(f, c).bb + |x|;
            c2.bb == (if bb == B(f) && !f.Blake? then 0 else bb) && c2.cum == if count then c.cum + |x| else c.cum
  {
    hide Compressed;
  }

  lemma PutAllHolds(f: Fn, S0: Bits, c: Core, V: Bits, x: Bits)
    requires CoreOk(f, c) && Holds(f, S0, c, V) && !f.Blake?
    ensures Holds(f, S0, PutAll(f, c, x), V + x) && PutAll(f, c, x).cum == c.cum
  {
    hide Holds, Vli;
    VliHolds(f, S0, c, V, x, 0, |x|, false, false);
    assert Slice(x, 0, |x|) == x;
    assert V + Slice(x, 0, 0) == V;
  }

  // ---------------------------------------------------------------- finalizing: SHA-2 and SM3

  lemma SwapConcat(a: Bits, b: Bits)
    requires |a| % 8 == 0 && |b| % 8 == 0
    ensures BitSwap(a + b) == BitSwap(a) + BitSwap(b)
  {
    hide BitMirror;
    forall i | 0 <= i < |a + b|
      ensures BitSwap(a + b)[i] == (BitSwap(a) + BitSwap(b))[i]
    {
      MirrorInside(|a|, |b|, i);
    }
  }

  lemma MirrorInside(n: nat, k: nat, i: nat)
    requires n % 8 == 0 && k % 8 == 0 && i < n + k
    ensures i < n ==> BitMirror(n + k, i) == BitMirror(n, i)
    ensures i >= n ==> BitMirror(n + k, i) == n + BitMirror(k, i - n)
  {
  }

  lemma SwapZeros(n: nat)
    requires n % 8 == 0
    ensures BitSwap(Zeros(n)) == Zeros(n)
  {
  }

  lemma SwapByte80()
    ensures BitSwap(Byte80()) == [true] + Zeros(7)
  {
  }

  lemma SwapReverse(v: Bits)
    requires |v| % 8 == 0
    ensures BitSwap(ByteSwap(v)) == Reverse(v)
  {
    hide ByteMirror, BitMirror;
    forall i | 0 <= i < |v|
      ensures BitSwap(ByteSwap(v))[i] == Reverse(v)[i]
    {
      MirrorBoth(|v|, i);
    }
  }

  lemma MirrorBoth(n: nat, i: nat)
    requires n % 8 == 0 && i < n
    ensures ByteMirror(n, BitMirror(n, i)) == n - 1 - i
  {
    assert BitMirror(n, i) / 8 == i / 8 && BitMirror(n, i) % 8 == 7 - i % 8;
  }

  /** Zero bytes are put until the place of the length is reached. */
  lemma {:induction false} FilledHolds(f: Fn, S0: Bits, c: Core, V: Bits) returns (z: nat)
    requires CoreOk(f, c) && Holds(f, S0, c, V) && f.Md? && c.bb % 8 == 0
    ensures z % 8 == 0 && z < B(f) && Holds(f, S0, Filled(f, c), V + Zeros(z)) && Filled(f, c).bb == B(f) - 2 * f.w
    ensures z == if c.bb <= B(f) - 2 * f.w then B(f) - 2 * f.w - c.bb else 2 * B(f) - 2 * f.w - c.bb
    decreases if c.bb <= B(f) - 2 * f.w then B(f) - 2 * f.w - c.bb else 2 * B(f) - 2 * f.w - c.bb
  {
    hide Holds, PutAll, Whole;
    if c.bb == B(f) - 2 * f.w {
      z := 0;
      assert V + Zeros(0) == V;
    } else {
      ZeroStep(f, c);
      PutAllHolds(f, S0, c, V, ZeroByte());
      var y := FilledHolds(f, S0, PutAll(f, c, ZeroByte()), V + ZeroByte());
      z := y + 8;
      assert V + ZeroByte() + Zeros(y) == V + Zeros(z);
    }
  }

  /** What SHA-2 is fed for the message bits M: whole bytes, a partial last one completed by a one and zeros. */
  function MdFed(M: Bits): (W: Bits)
    ensures |W| % 8 == 0
  {
    BitSwap(M + MdTail(|M|))
  }

  function MdTail(n: nat): (t: Bits)
    ensures (n + |t|) % 8 == 0
  {
    if n % 8 == 0 then [] else [true] + Zeros(7 - n % 8)
  }

  /** Finalizing computes the padded hash of the message. */
  lemma FinalMdHash(f: Fn, c: Core, M: Bits)
    requires CoreOk(f, c) && f.Md? && Holds(f, f.iv, c, MdFed(M)) && c.cum % 8 == |M| % 8
    ensures c.bb % 8 == 0 && FinalMd(f, c, |M|).S == MdState(f, M) && FinalMd(f, c, |M|).bb == 0
  {
    hide Chain, Filled, PutAll, Holds, MdPad, Whole;
    var W, lw := MdFed(M), 2 * f.w;
    HoldsOk(f, f.iv, c, W);
    BytesLeft(|W|, c.bb, B(f));
    var c1 := if c.cum % 8 == 0 then PutAll(f, c, Byte80()) else c;
    var e := MarkedHolds(f, c, M);
    var W1 := BitSwap(M + [true] + Zeros(e));
    HoldsOk(f, f.iv, c1, W1);
    BytesLeft(|W1|, c1.bb, B(f));
    var z := FilledHolds(f, f.iv, c1, W1);
    var L := ByteSwap(FromNat(|M|, lw));
    PutAllHolds(f, f.iv, Filled(f, c1), W1 + Zeros(z), L);
    ZeroFill(|M| + 1, c1.bb, B(f), lw, e, z);
    MdPadIs(f, M, e + z);
    PaddedBytes(f, M, M + [true] + Zeros(e), e, z);
    EndsBlock(f, f.iv, FinalMd(f, c, |M|), W1 + Zeros(z) + L);
  }

  lemma BytesLeft(n: nat, bb: nat, b: nat)
    requires b > 0 && b % 8 == 0 && n % 8 == 0 && bb <= n && Whole(n - bb, b)
    ensures bb % 8 == 0
  {
    BytesOfBlocks(n - bb, b);
  }

  /** The one behind the message has been put. */
  lemma MarkedHolds(f: Fn, c: Core, M: Bits) returns (e: nat)
    requires CoreOk(f, c) && f.Md? && Holds(f, f.iv, c, MdFed(M)) && c.cum % 8 == |M| % 8
    ensures e < 8 && (|M| + 1 + e) % 8 == 0
    ensures Holds(f, f.iv, if c.cum % 8 == 0 then PutAll(f, c, Byte80()) else c, BitSwap(M + [true] + Zeros(e)))
  {
    hide Chain, Filled, PutAll, Holds, Whole;
    if |M| % 8 == 0 {
      e := 7;
      PutAllHolds(f, f.iv, c, MdFed(M), Byte80());
      SwapByte80();
      SwapTwice(Byte80());
      SwapConcat(M, [true] + Zeros(7));
      assert M + ([true] + Zeros(7)) == M + [true] + Zeros(7) && M + [] == M;
    } else {
      e := 7 - |M| % 8;
      assert M + ([true] + Zeros(e)) == M + [true] + Zeros(e);
    }
  }

  /** At the end of a block the state is the chain over everything. */
  lemma EndsBlock(f: Fn, S0: Bits, c: Core, V: Bits)
    requires !f.Blake? && Holds(f, S0, c, V) && Whole(|V|, B(f))
    ensures c.bb == 0 && c.S == Chain(f, S0, V)
  {
    hide Chain;
    NoRemainder(|V|, c.bb, B(f));
    assert V[..|V|] == V && V[|V|..] == [];
    if f.Sponge? {
      FullSponge(Chain(f, S0, V));
    }
  }

  lemma NoRemainder(n: nat, bb: nat, b: nat)
    requires b > 0 && bb < b && bb <= n && Whole(n, b) && Whole(n - bb, b)
    ensures bb == 0
  {
    var k, l := n / b, (n - bb) / b;
    assert n == k * b && n - bb == l * b;
    var d := k - l;
    assert bb == d * b;
    MulAtLeast(d, b);
  }

  lemma SwapThree(A: Bits, z: nat, L: Bits)
    requires |A| % 8 == 0 && z % 8 == 0 && |L| % 8 == 0
    ensures BitSwap(A) + Zeros(z) + ByteSwap(L) == BitSwap(A + Zeros(z) + Reverse(L))
  {
    hide BitSwap, ByteSwap, Reverse;
    SwapReverse(L);
    SwapReverse(ByteSwap(L));
    SwapTwice(L);
    SwapTwice(ByteSwap(L));
    SwapZeros(z);
    SwapConcat(A, Zeros(z));
    SwapConcat(A + Zeros(z), Reverse(L));
  }

  lemma ZerosJoin(A: Bits, e: nat, z: nat)
    ensures A + Zeros(e + z) == A + Zeros(e) + Zeros(z)
  {
  }

  lemma PadSplit(M: Bits, e: nat, z: nat, lw: nat)
    ensures PadWith(M, e + z, lw) == PaddedBits(M, e, z, lw)
  {
    hide Reverse, FromNat;
    ZerosJoin(M + [true], e, z);
  }

  lemma LengthBytes(f: Fn)
    requires FnOk(f) && f.Md?
    ensures 2 * f.w % 8 == 0
  {
  }

  lemma MdPadIs(f: Fn, M: Bits, z: nat)
    requires FnOk(f) && f.Md? && Missing(|M| + 1 + 2 * f.w, B(f)) == z
    ensures MdPad(f, M) == PadWith(M, z, 2 * f.w)
  {
    hide PadWith, Missing, Whole;
  }

  lemma MdBytesAre(f: Fn, M: Bits, p: Bits)
    requires FnOk(f) && f.Md? && p == MdPad(f, M) && |p| % 8 == 0
    ensures MdBytes(f, M) == BitSwap(p)
  {
    hide MdPad, Whole, B, BitSwap;
  }

  /** A padded message of lw length bits, and its bytes. */
  function PaddedBits(M: Bits, e: nat, z: nat, lw: nat): (p: Bits)
    ensures |p| == |M| + 1 + e + z + lw
  {
    M + [true] + Zeros(e) + Zeros(z) + Reverse(FromNat(|M|, lw))
  }

  lemma PaddedSwap(M: Bits, A: Bits, e: nat, z: nat, lw: nat)
    requires A == M + [true] + Zeros(e) && |A| % 8 == 0 && z % 8 == 0 && lw % 8 == 0
    ensures |PaddedBits(M, e, z, lw)| % 8 == 0
    ensures BitSwap(A) + Zeros(z) + ByteSwap(FromNat(|M|, lw)) == BitSwap(PaddedBits(M, e, z, lw))
  {
    hide BitSwap, ByteSwap, Reverse, FromNat, Zeros;
    SumOfBytes(|A|, z, lw);
    SwapThree(A, z, FromNat(|M|, lw));
  }

  lemma SumOfBytes(a: nat, b: nat, c: nat)
    requires a % 8 == 0 && b % 8 == 0 && c % 8 == 0
    ensures (a + b + c) % 8 == 0
  {
  }

  /** The bytes fed are the padded message of the standard. */
  lemma PaddedBytes(f: Fn, M: Bits, A: Bits, e: nat, z: nat)
    requires A == M + [true] + Zeros(e) && |A| % 8 == 0 && z % 8 == 0
    requires FnOk(f) && f.Md? && MdPad(f, M) == PadWith(M, e + z, 2 * f.w)
    ensures BitSwap(A) + Zeros(z) + ByteSwap(FromNat(|M|, 2 * f.w)) == MdBytes(f, M)
  {
    hide MdPad, PadWith, PaddedBits, MdBytes, Missing, Whole, FnOk, B, BitSwap, ByteSwap, Reverse, FromNat, Zeros;
    LengthBytes(f);
    PaddedSwap(M, A, e, z, 2 * f.w);
    PadSplit(M, e, z, 2 * f.w);
    MdBytesAre(f, M, PaddedBits(M, e, z, 2 * f.w));
  }

  lemma ZeroFill(n: nat, bb: nat, b: nat, lw: nat, e: nat, z: nat)
    requires b % 8 == 0 && lw % 8 == 0 && 0 < lw < b && e < 8 && bb < b && bb <= n + e && z % 8 == 0 && bb % 8 == 0
    requires Whole(n + e - bb, b) && z == if bb <= b - lw then b - lw - bb else 2 * b - lw - bb
    ensures Missing(n + lw, b) == e + z
  {
    assert z < b && z <= b - 8;
    ZeroCount(n + e - bb, n + lw, b, e + z, if bb <= b - lw then 1 else 2);
  }

  lemma ZeroCount(k: nat, n: nat, b: nat, z: nat, extra: nat)
    requires b > 0 && Whole(k, b) && z < b && n + z == k + extra * b
    ensures Missing(n, b) == z
  {
    assert k == k / b * b;
    assert n + z == (k / b + extra) * b;
    DivModUnique(n + z, b, k / b + extra, 0);
    MissingUnique(n, b, z);
  }

  // ---------------------------------------------------------------- finalizing: SHA-3 and SHAKE

  lemma FinalSpongeHash(f: Fn, c: Core, M: Bits)
    requires CoreOk(f, c) && f.Sponge? && Holds(f, Zeros(1600), c, M)
    ensures FinalSponge(f, c).S == SpongeState(f, M) && FinalSponge(f, c).bb == 0
  {
    hide Chain, BlockStep, Whole;
    var Z, n, p, room := Zeros(1600), |M| - c.bb, Padding(f, c.bb), f.rate - c.bb;
    SpongePadIs(f, M, c.bb);
    var head, tail := M[..n], M[n..];
    var W := head + (tail + p[..room]);
    PlacedXor(tail, p[..room], Chain(f, Z, head));
    ChainSnoc(f, Z, head, tail + p[..room]);
    SpongeBlock(f, Chain(f, Z, head), tail + p[..room], |W| / 8);
    assert M + p[..room] == W;
    if |p| > room {
      ChainSnoc(f, Z, W, p[room..]);
      SpongeBlock(f, Chain(f, Z, W), p[room..], |W + p[room..]| / 8);
      assert M + p == W + p[room..];
    } else {
      assert p[..room] == p;
    }
  }

  /** The padding computed from the place in the block is the padding of the whole message. */
  lemma SpongePadIs(f: Fn, M: Bits, bb: nat)
    requires FnOk(f) && f.Sponge? && bb < f.rate && bb <= |M| && Whole(|M| - bb, f.rate)
    ensures SpongePad(f, M) == M + Padding(f, bb)
  {
    hide Whole, FnOk, Missing, Zeros;
    PadLenBits(f, bb);
    var z := PadLen(f, bb) - |f.D| - 2;
    ZeroCount(|M| - bb, |M| + |f.D| + 2, f.rate, z, if bb + |f.D| + 2 <= f.rate then 1 else 2);
  }

  lemma PadLenBits(f: Fn, bb: nat)
    requires FnOk(f) && f.Sponge? && bb < f.rate
    ensures |f.D| + 2 <= PadLen(f, bb) < f.rate + |f.D| + 2 && f.rate > 0 && B(f) == f.rate
  {
  }

  // ---------------------------------------------------------------- finalizing: BLAKE2

  lemma FinalBlakeHash(f: Fn, sk: Option<Bits>, kk: nat, c: Core, S0: Bits, data: Bits)
    requires CoreOk(f, c) && f.Blake? && Holds(f, S0, c, data) && (c.bb == 0 ==> data == []) && (sk.Some? ==>
             |sk.value| == B(f))
    ensures FinalBlake(f, sk, kk, c) ==
            if data == [] && sk.None? && kk != 0 then None
            else Some(FinalBlake(f, sk, kk, c).value)
    ensures FinalBlake(f, sk, kk, c).Some? ==>
              FinalBlake(f, sk, kk, c).value.S == BlakeState(f, S0, if data == [] && sk.Some? then sk.value
                  else data) &&
              FinalBlake(f, sk, kk, c).value.bb == 0
  {
    hide Chain, BlockStep, Whole;
    HoldsOk(f, S0, c, data);
    if c.bb > 0 {
      var n := |data| - c.bb;
      LastStart(|data|, n, B(f));
      BlakeBlock(f, Chain(f, S0, data[..n]), data[n..] + Zeros(B(f) - c.bb), |data| / 8, true);
    } else {
      var e: Bits := [];
      assert e[..0] == [];
      ChainEmpty(f, S0);
      if sk.Some? {
        var k := sk.value;
        LastStart(|k|, 0, B(f));
        assert k[..0] == [] && k[0..] + Zeros(0) == k;
        BlakeBlock(f, S0, k, |k| / 8, true);
      } else {
        BlakeBlock(f, S0, Zeros(B(f)), 0, true);
      }
    }
  }

  lemma ChainEmpty(f: Fn, S0: Bits)
    requires FnOk(f) && |S0| == StateLen(f)
    ensures Whole(0, B(f)) && Chain(f, S0, []) == S0
  {
  }

  lemma LastStart(n: nat, k: nat, b: nat)
    requires b > 0 && k < n <= k + b && (k == 0 || Whole(k, b))
    ensures BeforeLast(n, b) == k
  {
    var m := BeforeLast(n, b);
    assert k == k / b * b && m == m / b * b;
    var d := m / b - k / b;
    assert m - k == d * b;
    MulAtLeast(d, b);
  }

  // ---------------------------------------------------------------- a message in a locker

  /** What is fed before the message: the inner key block of HMAC. */
  function Prefix(g: Config, x: Bits): (p: Bits)
    requires ConfigOk(g) && |x| == 8
    ensures |p| % 8 == 0
  {
    if g.key.Some? then KeyPad(g.key.value, x) else []
  }

  /** Everything fed for the message bits m. */
  function FedBits(g: Config, m: Bits): Bits
    requires ConfigOk(g)
  {
    if g.f.Md? then MdFed(Order(g.f, Prefix(g, IPAD)) + m)
    else if g.f.Sponge? then Prefix(g, IPAD) + m
    else if m == [] then []
    else if g.sk.Some? then g.sk.value + m else m
  }

  /** The core has taken in the message m and nothing else. */
  ghost predicate Fed(g: Config, kk: nat, nn: nat, c: Core, m: Bits) {
    && ConfigOk(g) && CoreOk(g.f, c) && Holds(g.f, Iv(g.f, kk, nn), c, FedBits(g, m))
    && (!g.f.Blake? ==> c.cum == |m|)
    && (g.f.Blake? && c.bb == 0 ==> m == [])
  }

  lemma PrefixIsWhole(g: Config, x: Bits)
    requires ConfigOk(g) && |x| == 8 && g.key.Some?
    ensures |Prefix(g, x)| == B(g.f)
  {
  }

  /** Finalizing an unkeyed message gives its hash. */
  lemma PlainFinal(g: Config, kk: nat, nn: nat, c: Core, m: Bits)
    requires Fed(g, kk, nn, c, m) && g.key.None?
    ensures var r := Finalized(g, c, kk, 0);
            (r.None? <==> g.f.Blake? && m == [] && g.sk.None? && kk != 0) &&
            (r.Some? ==> r.value.S == PlainState(g, kk, nn, m) && r.value.bb == 0)
  {
    hide FinalMd, FinalSponge, FinalBlake, MdState, SpongeState, BlakeState, Holds, MdFed;
    if g.f.Md? {
      assert Order(g.f, []) == [];
      assert [] + m == m;
      FinalMdHash(g.f, c, m);
    } else if g.f.Sponge? {
      assert [] + m == m;
      FinalSpongeHash(g.f, c, m);
    } else {
      FinalBlakeHash(g.f, g.sk, kk, c, Iv(g.f, kk, nn), FedBits(g, m));
      assert g.sk.Some? ==> g.sk.value + [] == g.sk.value;
    }
  }

  // ---------------------------------------------------------------- HMAC

  lemma FreshFed(g: Config, kk: nat, nn: nat, x: Bits)
    requires ConfigOk(g) && g.key.Some? && |x| == 8
    ensures var c := Core(Iv(g.f, kk, nn), Zeros(B(g.f)), 0, 0);
            CoreOk(g.f, c) && Holds(g.f, Iv(g.f, kk, nn), PutAll(g.f, c, KeyPad(g.key.value, x)), KeyPad(g.key.value,
                x)) &&
            PutAll(g.f, c, KeyPad(g.key.value, x)).cum == 0
  {
    hide Holds, PutAll, KeyPad, Iv;
    var c := Core(Iv(g.f, kk, nn), Zeros(B(g.f)), 0, 0);
    FreshHolds(g.f, Iv(g.f, kk, nn), c);
    PutAllHolds(g.f, Iv(g.f, kk, nn), c, [], KeyPad(g.key.value, x));
    assert [] + KeyPad(g.key.value, x) == KeyPad(g.key.value, x);
  }

  /** What a keyed hash has been fed, given in message order. */
  lemma FinalKeyed(g: Config, kk: nat, nn: nat, c: Core, M: Bits)
    requires ConfigOk(g) && g.key.Some? && CoreOk(g.f, c) && |M| == B(g.f) + c.cum
    requires Holds(g.f, Iv(g.f, kk, nn), c, if g.f.Md? then MdFed(M) else M)
    ensures var r := Finalized(g, c, kk, B(g.f));
            r.Some? && r.value.S == PlainState(g, kk, nn, M) && r.value.bb == 0
  {
    hide FinalMd, FinalSponge, MdState, SpongeState, Holds, MdFed;
    if g.f.Md? {
      SameRest(|M|, B(g.f), c.cum);
      FinalMdHash(g.f, c, M);
    } else {
      FinalSpongeHash(g.f, c, M);
    }
  }

  lemma SameRest(n: nat, b: nat, k: nat)
    requires n == b + k && b % 8 == 0
    ensures k % 8 == n % 8
  {
  }

  /** The second hash of HMAC is over the second key block and the inner digest. */
  lemma OuterFed(g: Config, kk: nat, nn: nat, inner: Bits)
    requires ConfigOk(g) && g.key.Some? && |inner| == T(g.f)
    ensures var c2 := PutAll(g.f, Core(Iv(g.f, kk, nn), Zeros(B(g.f)), 0, 0), KeyPad(g.key.value, OPAD));
            var c3 := Vli(g.f, c2, inner, 0, |inner|, true, false).0;
            var M := Order(g.f, KeyPad(g.key.value, OPAD)) + Order(g.f, inner);
            CoreOk(g.f, c3) && |M| == B(g.f) + c3.cum &&
            Holds(g.f, Iv(g.f, kk, nn), c3, if g.f.Md? then MdFed(M) else M)
  {
    hide Holds, PutAll, KeyPad, Iv, Vli, T;
    FreshFed(g, kk, nn, OPAD);
    var K := KeyPad(g.key.value, OPAD);
    var c2 := PutAll(g.f, Core(Iv(g.f, kk, nn), Zeros(B(g.f)), 0, 0), K);
    VliHolds(g.f, Iv(g.f, kk, nn), c2, K, inner, 0, |inner|, true, false);
    assert Slice(inner, 0, |inner|) == inner;
    if g.f.Md? {
      OrderedFed(K, inner);
    }
  }

  /** Whole bytes in message order are fed as they are. */
  lemma OrderedFed(a: Bits, b: Bits)
    requires |a| % 8 == 0 && |b| % 8 == 0
    ensures MdFed(BitSwap(a) + BitSwap(b)) == a + b
  {
    hide BitSwap;
    var M := BitSwap(a) + BitSwap(b);
    assert M + [] == M;
    SwapConcat(BitSwap(a), BitSwap(b));
    SwapTwice(a);
    SwapTwice(b);
  }

  lemma ByteOf(x: nat, b: Bits)
    requires |b| == 8 && x < 256
    requires x == (if b[0] then 1 else 0) + (if b[1] then 2 else 0) + (if b[2] then 4 else 0) + (if b[3] then 8
             else 0) +
                  (if b[4] then 16 else 0) + (if b[5] then 32 else 0) + (if b[6] then 64
                      else 0) + (if b[7] then 128 else 0)
    ensures FromNat(x, 8) == b
  {
    ByteNumber(b);
    BitsRoundTrip(b);
  }

  /** The two pads are the bytes 0x36 and 0x5C. */
  lemma PadNumbers()
    ensures FromNat(0x36, 8) == IPAD && FromNat(0x5C, 8) == OPAD
  {
    ByteOf(0x36, IPAD);
    ByteOf(0x5C, OPAD);
  }

  lemma {:induction false} PadIsXorEach(key: Bits, x: nat, b: Bits)
    requires |key| % 8 == 0 && |b| == 8 && FromNat(x, 8) == b
    ensures XorEach(key, x) == KeyPad(key, b)
  {
    hide FromNat;
    if key != [] {
      PadIsXorEach(key[8..], x, b);
      var r, k := XorEach(key, x), KeyPad(key, b);
      forall i | 0 <= i < |key|
        ensures r[i] == k[i]
      {
        if i < 8 {
          assert r[i] == Xor(key[..8], b)[i];
        } else {
          assert r[i] == KeyPad(key[8..], b)[i - 8] && (i - 8) % 8 == i % 8;
        }
      }
    }
  }

  /** Finalizing a keyed message gives its HMAC. */
  lemma HmacFinal(g: Config, kk: nat, nn: nat, c: Core, m: Bits)
    requires Fed(g, kk, nn, c, m) && g.key.Some?
    ensures var r := HmacOuter(g, c, kk, nn); r.Some? && r.value.S == RefState(g, kk, nn, m) && r.value.bb == 0
  {
    hide Finalized, PlainState, Holds, KeyPad, Iv, PutAll, Vli, MdFed, XorEach, FromNat;
    PadNumbers();
    PadIsXorEach(g.key.value, 0x36, IPAD);
    PadIsXorEach(g.key.value, 0x5C, OPAD);
    var M := Order(g.f, KeyPad(g.key.value, IPAD)) + m;
    PrefixIsWhole(g, IPAD);
    FinalKeyed(g, kk, nn, c, M);
    var inner := PlainState(g, kk, nn, M)[..T(g.f)];
    OuterFed(g, kk, nn, inner);
    var c2 := PutAll(g.f, Core(Iv(g.f, kk, nn), Zeros(B(g.f)), 0, 0), KeyPad(g.key.value, OPAD));
    var c3 := Vli(g.f, c2, inner, 0, |inner|, true, false).0;
    FinalKeyed(g, kk, nn, c3, Order(g.f, KeyPad(g.key.value, OPAD)) + Order(g.f, inner));
  }

  // ---------------------------------------------------------------- absorbing a message

  lemma FedStart(g: Config, m: Hash)
    requires Ok(g, m)
    ensures Fed(g, m.kk, m.nn, EnterAbsorb(g, m).c, [])
  {
    hide Holds, PutAll, KeyPad, Iv;
    var c := Core(Iv(g.f, m.kk, m.nn), Zeros(B(g.f)), 0, 0);
    assert Prefix(g, IPAD) + [] == Prefix(g, IPAD);
    if g.key.Some? {
      FreshFed(g, m.kk, m.nn, IPAD);
      var K := KeyPad(g.key.value, IPAD);
      PrefixIsWhole(g, IPAD);
      assert K + [] == K;
      if g.f.Md? {
        OrderedFed(K, []);
        assert BitSwap([]) == [];
        assert BitSwap(K) + [] == BitSwap(K);
      }
    } else {
      FreshHolds(g.f, Iv(g.f, m.kk, m.nn), c);
      if g.f.Md? {
        OrderedFed([], []);
        assert BitSwap([]) == [];
        assert Order(g.f, []) + [] == BitSwap([]) + BitSwap([]);
      }
    }
  }

  /** Feeding whole bytes in message order appends them. */
  lemma FedBytes(g: Config, m: Bits, x: Bits)
    requires ConfigOk(g) && g.f.Md? && |m| % 8 == 0 && |x| % 8 == 0
    ensures FedBits(g, m + BitSwap(x)) == FedBits(g, m) + x
  {
    hide BitSwap, KeyPad;
    var P := Order(g.f, Prefix(g, IPAD)) + m;
    SumOfBytes(|Prefix(g, IPAD)|, |m|, 0);
    assert P + BitSwap(x) == Order(g.f, Prefix(g, IPAD)) + (m + BitSwap(x));
    OrderedFed(BitSwap(P), x);
    SwapTwice(P);
    assert P + [] == P;
  }

  /** The final piece of SHA-2: its bits, then the one that marks its end. */
  lemma LastBytesOrder(data: Bits, L: nat)
    requires 0 < L <= |data| && |data| % 8 == 0
    ensures BitSwap(LastBytes(data, L)) == BitSwap(data)[..L] + MdTail(L)
  {
    hide BitMirror;
    var v, n := LastBytes(data, L), (L + 7) / 8 * 8;
    forall i | 0 <= i < n
      ensures BitSwap(v)[i] == (BitSwap(data)[..L] + MdTail(L))[i]
    {
      MirrorInByte(n, |data|, L, i);
    }
  }

  lemma MirrorInByte(n: nat, k: nat, L: nat, i: nat)
    requires k % 8 == 0 && 0 < L <= k && n == (L + 7) / 8 * 8 && i < n
    ensures n % 8 == 0 && n <= k && BitMirror(n, i) == BitMirror(k, i)
    ensures var j := BitMirror(n, i);
            (i < L ==> j / 8 < L / 8 || j % 8 > 7 - L % 8) &&
            (i >= L ==> !(j / 8 < L / 8) && !(j % 8 > 7 - L % 8) && (j % 8 == 7 - L % 8 <==> i == L))
  {
    var a, r, A, q := i / 8, i % 8, L / 8, L % 8;
    ByteOrder(i, a, r, L, A, q, n);
    MirrorPlace(a, r);
  }

  lemma MirrorPlace(a: nat, r: nat)
    requires r < 8
    ensures (8 * a + 7 - r) / 8 == a && (8 * a + 7 - r) % 8 == 7 - r
  {
  }

  lemma ByteOrder(i: nat, a: nat, r: nat, L: nat, A: nat, q: nat, n: nat)
    requires i == 8 * a + r && r < 8 && L == 8 * A + q && q < 8 && n == (L + 7) / 8 * 8 && i < n
    ensures n == (if q == 0 then 8 * A else 8 * A + 8) && n % 8 == 0
    ensures i < L ==> a < A || r < q
    ensures i >= L ==> a == A && r >= q && (r == q <==> i == L)
  {
  }

  /** A transfer in Absorb appends its bytes to the message. */
  lemma AbsorbFeeds(g: Config, m: Hash, msg: Bits, data: Bits, klstart: nat, halt: bool)
    requires Ok(g, m) && m.st == Absorb && |data| % 8 == 0 && |msg| % 8 == 0 && Fed(g, m.kk, m.nn, m.c, msg)
    ensures var o := DoAbsorb(g, m, data, klstart, halt);
            o.m.st != Invalid ==>
              o.moved % 8 == 0 && o.m == m.(c := o.m.c) &&
              Fed(g, m.kk, m.nn, o.m.c, msg + Order(g.f, Slice(data, 8 * klstart, o.moved)))
  {
    hide Holds, Iv, Vli, MdFed, KeyPad, T;
    var ib := 8 * klstart;
    if Empty(|data|, klstart) {
      assert Order(g.f, Slice(data, ib, 0)) == [];
      assert msg + [] == msg;
    } else if klstart == 0 || AtBoundary(g.f, m.c) {
      var c0 := Keyed(g.f, g.sk, m.c);
      var V := KeyedFeeds(g, m, msg);
      var (c, e) := Vli(g.f, c0, data, ib, |data|, true, halt);
      VliHolds(g.f, Iv(g.f, m.kk, m.nn), c0, V, data, ib, |data|, true, halt);
      PlaceIsWhole(g, m, msg, c0, V);
      WholeBytes(g.f, c0, data, ib, halt);
      var x := Slice(data, ib, e - ib);
      if g.f.Md? {
        FedBytes(g, msg, x);
      } else {
        assert V + x == FedBits(g, msg + x) by { FedMore(g, msg, x, V); }
      }
    }
  }

  lemma FedMore(g: Config, msg: Bits, x: Bits, V: Bits)
    requires ConfigOk(g) && !g.f.Md? && x != []
    requires V == if g.f.Blake? && msg == [] && g.sk.Some? then g.sk.value else FedBits(g, msg)
    ensures FedBits(g, msg + x) == V + x
  {
    hide KeyPad;
    assert msg == [] ==> msg + x == x;
    if g.f.Sponge? {
      assert Prefix(g, IPAD) + (msg + x) == Prefix(g, IPAD) + msg + x;
    } else if g.sk.Some? {
      assert g.sk.value + (msg + x) == g.sk.value + msg + x;
    } else if msg == [] {
      assert [] + x == x;
    }
  }

  /** After the key block of BLAKE2, if it is due, the core holds it. */
  lemma KeyedFeeds(g: Config, m: Hash, msg: Bits) returns (V: Bits)
    requires Ok(g, m) && Fed(g, m.kk, m.nn, m.c, msg)
    ensures V == if g.f.Blake? && msg == [] && g.sk.Some? then g.sk.value else FedBits(g, msg)
    ensures CoreOk(g.f, Keyed(g.f, g.sk, m.c)) && Holds(g.f, Iv(g.f, m.kk, m.nn), Keyed(g.f, g.sk, m.c), V)
    ensures !g.f.Blake? ==> Keyed(g.f, g.sk, m.c) == m.c
  {
    hide Chain, BlockStep, Whole, Iv, KeyPad, MdFed;
    V := FedBits(g, msg);
    if g.sk.Some? && m.c.cum == 0 {
      var k := g.sk.value;
      V := k;
      ChainEmpty(g.f, Iv(g.f, m.kk, m.nn));
      ChainSnoc(g.f, Iv(g.f, m.kk, m.nn), [], k);
      BlakeBlock(g.f, Iv(g.f, m.kk, m.nn), k, |k| / 8, false);
      assert [] + k == k && k[..|k|] == k && k[|k|..] == [];
      assert m.c.S == Iv(g.f, m.kk, m.nn) by {
        var e: Bits := [];
        assert e[..0] == [];
      }
    }
  }

  /** The bytes taken in by one transfer are whole ones: it ends with the data or at the end of a block. */
  lemma WholeBytes(f: Fn, c: Core, data: Bits, ib: nat, halt: bool)
    requires CoreOk(f, c) && c.bb % 8 == 0 && |data| % 8 == 0 && ib % 8 == 0 && ib < |data|
    requires Vli(f, c, data, ib, |data|, true, halt).1 <= |data|
    ensures Vli(f, c, data, ib, |data|, true, halt).1 % 8 == 0
  {
    hide Vli;
    VliTurn(f, c, data, ib, |data|, true, halt);
    var (c2, e) := Turned(f, c, data, ib, |data|, true);
    if e >= |data| {
      VliTurn(f, c2, data, e, |data|, true, halt);
    } else if !halt {
      RunsOut(f, c2, data, e, |data|);
    } else {
      TurnLength(f, c, data, ib, |data|);
    }
  }

  lemma TurnLength(f: Fn, c: Core, X: Bits, ib: nat, kl: nat)
    requires CoreOk(f, c) && c.bb % 8 == 0 && ib % 8 == 0 && ib < kl
    ensures Turned(f, c, X, ib, kl, true).1 < kl ==> Turned(f, c, X, ib, kl, true).1 % 8 == 0
  {
    hide Put;
    SumOfBytes(ib, B(f), 0);
    assert Released(f, c).bb % 8 == 0;
  }

  lemma {:induction false} RunsOut(f: Fn, c: Core, X: Bits, ib: nat, kl: nat)
    requires CoreOk(f, c) && ib <= kl
    ensures Vli(f, c, X, ib, kl, true, false).1 == kl
    decreases kl - ib
  {
    hide Vli, Put, Released;
    VliTurn(f, c, X, ib, kl, true, false);
    if ib < kl {
      var (c2, e) := Turned(f, c, X, ib, kl, true);
      RunsOut(f, c2, X, e, kl);
    }
  }

  /** The place in the block is at a byte while whole bytes have been taken in. */
  lemma PlaceIsWhole(g: Config, m: Hash, msg: Bits, c: Core, V: Bits)
    requires ConfigOk(g) && |msg| % 8 == 0 && Holds(g.f, Iv(g.f, m.kk, m.nn), c, V)
    requires V == if g.f.Blake? && msg == [] && g.sk.Some? then g.sk.value else FedBits(g, msg)
    ensures c.bb % 8 == 0
  {
    hide Holds, Iv, KeyPad, MdFed, Whole;
    HoldsOk(g.f, Iv(g.f, m.kk, m.nn), c, V);
    FedLength(g, msg);
    BytesLeft(|V|, c.bb, B(g.f));
  }

  lemma FedLength(g: Config, msg: Bits)
    requires ConfigOk(g) && |msg| % 8 == 0
    ensures |FedBits(g, msg)| % 8 == 0
  {
    hide KeyPad, MdFed;
  }

  /** The message bits of a final piece of L bits. */
  function LastPiece(f: Fn, data: Bits, L: nat): (p: Bits)
    requires L <= |data| && |data| % 8 == 0
    ensures |p| == L
  {
    Order(f, data)[..L]
  }

  /** The final piece ends the message. */
  lemma LastFeeds(g: Config, m: Hash, msg: Bits, data: Bits)
    requires Ok(g, m) && m.st == Last && 0 < m.lbl <= |data| && |data| % 8 == 0 && |msg| % 8 == 0 &&
             Fed(g, m.kk, m.nn, m.c, msg)
    ensures Fed(g, m.kk, m.nn, DoLast(g, m, data).c, msg + LastPiece(g.f, data, m.lbl))
  {
    hide Holds, Iv, Vli, KeyPad, T, MdFed, PutAll, LastBytes;
    var L, x := m.lbl, LastPiece(g.f, data, m.lbl);
    if g.f.Md? {
      var c := PutAll(g.f, m.c, LastBytes(data, L));
      PutAllHolds(g.f, Iv(g.f, m.kk, m.nn), m.c, FedBits(g, msg), LastBytes(data, L));
      FedLast(g, msg, data, L);
      RecountHolds(g.f, Iv(g.f, m.kk, m.nn), c, FedBits(g, msg + x), c.cum + L);
    } else {
      var c0 := Keyed(g.f, g.sk, m.c);
      var V := KeyedFeeds(g, m, msg);
      VliHolds(g.f, Iv(g.f, m.kk, m.nn), c0, V, data[..L], 0, L, true, false);
      assert Slice(data[..L], 0, L) == x;
      FedMore(g, msg, x, V);
    }
  }

  lemma RecountHolds(f: Fn, S0: Bits, c: Core, V: Bits, cum: nat)
    requires Holds(f, S0, c, V) && !f.Blake?
    ensures Holds(f, S0, c.(cum := cum), V)
  {
    hide Chain, Whole;
  }

  lemma FedLast(g: Config, msg: Bits, data: Bits, L: nat)
    requires ConfigOk(g) && g.f.Md? && |msg| % 8 == 0 && 0 < L <= |data| && |data| % 8 == 0
    ensures FedBits(g, msg + BitSwap(data)[..L]) == FedBits(g, msg) + LastBytes(data, L)
  {
    hide BitSwap, KeyPad, LastBytes, MdTail;
    var P, x := Order(g.f, Prefix(g, IPAD)) + msg, BitSwap(data)[..L];
    SumOfBytes(|Prefix(g, IPAD)|, |msg|, 0);
    assert P + x == Order(g.f, Prefix(g, IPAD)) + (msg + x);
    TailOf(|P|, L);
    LastBytesOrder(data, L);
    SwapTwice(LastBytes(data, L));
    assert P + x + MdTail(L) == P + (x + MdTail(L));
    SwapConcat(P, x + MdTail(L));
    TailOf(|P|, 0);
    NoTail();
    assert P + [] == P;
  }

  lemma TailOf(n: nat, k: nat)
    requires n % 8 == 0
    ensures MdTail(n + k) == MdTail(k)
  {
  }

  lemma NoTail()
    ensures MdTail(0) == []
  {
  }
}
