/**
 Sampling from extendable-output functions (FIPS 204 section 7.3).  An XOF is an arbitrary function from the seed and a
 position to the byte at that position; a limit on the bytes of one call makes every rejection loop end.
 */
module MldsaSampling {
  import opened Wrappers
  import opened Modular
  import opened Digits
  import opened Streams
  import opened NttTheory
  import opened MldsaNtt
  import opened MldsaRounding
  import opened MldsaCodec

  datatype Hashes = Hashes(shake128: Bytes -> Stream, shake256: Bytes -> Stream)

  datatype Limits = Limits(sign: nat, bounded: nat, ntt: nat, ball: nat)

  function H(hs: Hashes, data: Bytes, n: nat): (r: Bytes)
    ensures |r| == n
  {
    Output(hs.shake256(data), 0, n)
  }

  /** The XOF object with its output buffer: reading is reading the stream in order, up to the limit. */
  class Xof {
    const g: Stream
    const limit: nat
    var buf: Bytes
    var pos: nat

    ghost predicate Valid()
      reads this
    {
      pos <= |buf| && buf == Output(g, 0, |buf|)
    }

    constructor (g: Stream, limit: nat)
      ensures Valid() && pos == 0 && this.g == g && this.limit == limit
    {
      this.g, this.limit, buf, pos := g, limit, [], 0;
    }

    /** None when the read would pass the limit. */
    method Read(n: nat) returns (r: Option<Bytes>)
      requires Valid()
      modifies this
      ensures Valid()
      ensures old(pos) + n > limit ==> r == None && pos == old(pos)
      ensures old(pos) + n <= limit ==> r == Some(Output(g, old(pos), n)) && pos == old(pos) + n
    {
      if pos + n > limit {
        return None;
      }
      if pos + n > |buf| {
        var len := if 2 * |buf| > pos + n then 2 * |buf| else pos + n;
        buf := Output(g, 0, if len > 168 then len else 168);
      }
      r := Some(buf[pos..pos + n]);
      assert buf[pos..pos + n] == Output(g, pos, n) by {
        forall i | 0 <= i < n
          ensures buf[pos..pos + n][i] == Output(g, pos, n)[i]
        {
          assert buf[pos + i] == Output(g, 0, |buf|)[pos + i];
        }
      }
      pos := pos + n;
    }
  }

  // ---------------------------------------------------------------- uniform polynomials

  /** The 23-bit number in three bytes. */
  function ThreeBytes(b0: byte, b1: byte, b2: byte): (z: int)
    ensures z >= 0
  {
    (b2 as int % 128) * 0x10000 + b1 as int * 0x100 + b0 as int
  }

  /** The coefficients taken from three-byte groups from pos on; values of q and above are rejected. */
  function RejNttFrom(g: Stream, a: seq<int>, pos: nat, limit: nat): (r: Option<seq<int>>)
    requires |a| <= N && forall i :: 0 <= i < |a| ==> 0 <= a[i] < Q
    ensures r.Some? ==> IsReduced(r.value)
    decreases limit - pos
  {
    if |a| == N then Some(a)
    else if pos + 3 > limit then None
    else
      var z := ThreeBytes(g(pos), g(pos + 1), g(pos + 2));
      RejNttFrom(g, if z < Q then a + [z] else a, pos + 3, limit)
  }

  lemma OutputThree(g: Stream, pos: nat)
    ensures Output(g, pos, 3) == [g(pos), g(pos + 1), g(pos + 2)]
  {
  }

  lemma RejNttUnfold(g: Stream, a: seq<int>, pos: nat, limit: nat)
    requires |a| <= N && forall i :: 0 <= i < |a| ==> 0 <= a[i] < Q
    ensures RejNttFrom(g, a, pos, limit) ==
            if |a| == N then Some(a)
            else if pos + 3 > limit then None
            else var z := ThreeBytes(g(pos), g(pos + 1), g(pos + 2));
                 RejNttFrom(g, if z < Q then a + [z] else a, pos + 3, limit)
  {
  }

  method RejNttPoly(hs: Hashes, seed: Bytes, limit: nat) returns (r: Option<seq<int>>)
    ensures r == RejNttFrom(hs.shake128(seed), [], 0, limit)
  {
    hide ThreeBytes, Output, RejNttFrom;
    var g := new Xof(hs.shake128(seed), limit);
    var a: seq<int> := [];
    while |a| < N
      invariant g.Valid() && g.g == hs.shake128(seed) && g.limit == limit && g.pos <= limit
      invariant |a| <= N && forall i :: 0 <= i < |a| ==> 0 <= a[i] < Q
      invariant RejNttFrom(g.g, a, g.pos, limit) == RejNttFrom(g.g, [], 0, limit)
      decreases limit - g.pos
    {
      RejNttUnfold(g.g, a, g.pos, limit);
      var b := g.Read(3);
      if b.None? {
        return None;
      }
      OutputThree(g.g, g.pos - 3);
      var z := ThreeBytes(b.value[0], b.value[1], b.value[2]);
      if z < Q {
        a := a + [z];
      }
    }
    RejNttUnfold(g.g, a, g.pos, limit);
    r := Some(a);
  }

  /** One nibble of RejBoundedPoly, or none. */
  function CoeffFromHalfByte(ps: Params, b: int): Option<int> {
    if ps.eta == 2 then (if b < 15 then Some(2 - b % 5) else None)
    else if b < 9 then Some(4 - b) else None
  }

  function Extend(ps: Params, a: seq<int>, b: int): seq<int> {
    var c := CoeffFromHalfByte(ps, b);
    if c.Some? && |a| < N then a + [c.value % Q] else a
  }

  ghost predicate Small(ps: Params, a: seq<int>) {
    |a| <= N && forall i :: 0 <= i < |a| ==> 0 <= a[i] < Q && (a[i] <= ps.eta || a[i] >= Q - ps.eta)
  }

  function RejBoundedFrom(ps: Params, g: Stream, a: seq<int>, pos: nat, limit: nat): (r: Option<seq<int>>)
    requires Small(ps, a)
    ensures r.Some? ==> IsReduced(r.value) && InRange(Centre(r.value), ps.eta, ps.eta)
    decreases limit - pos
  {
    if |a| == N then Some(a)
    else if pos + 1 > limit then None
    else
      var z := g(pos) as int;
      ExtendSmall(ps, a, z % 16);
      ExtendSmall(ps, Extend(ps, a, z % 16), z / 16);
      RejBoundedFrom(ps, g, Extend(ps, Extend(ps, a, z % 16), z / 16), pos + 1, limit)
  }

  lemma ExtendSmall(ps: Params, a: seq<int>, b: int)
    requires Small(ps, a) && 0 <= b < 16
    ensures Small(ps, Extend(ps, a, b))
  {
  }

  method RejBoundedPoly(ps: Params, hs: Hashes, seed: Bytes, limit: nat) returns (r: Option<seq<int>>)
    ensures r == RejBoundedFrom(ps, hs.shake256(seed), [], 0, limit)
  {
    hide Extend;
    var g := new Xof(hs.shake256(seed), limit);
    var a: seq<int> := [];
    while |a| < N
      invariant g.Valid() && g.g == hs.shake256(seed) && g.limit == limit && g.pos <= limit
      invariant Small(ps, a)
      invariant RejBoundedFrom(ps, g.g, a, g.pos, limit) == RejBoundedFrom(ps, g.g, [], 0, limit)
      decreases limit - g.pos
    {
      var b := g.Read(1);
      if b.None? {
        return None;
      }
      var z := b.value[0] as int;
      ExtendSmall(ps, a, z % 16);
      a := Extend(ps, a, z % 16);
      ExtendSmall(ps, a, z / 16);
      a := Extend(ps, a, z / 16);
    }
    r := Some(a);
  }

  // ---------------------------------------------------------------- the challenge

  /** The first byte from pos on that is at most i, and the position after it. */
  function NextIndex(g: Stream, i: nat, pos: nat, limit: nat): (r: Option<(nat, nat)>)
    ensures r.Some? ==> r.value.0 <= i && pos < r.value.1 <= limit
    decreases limit - pos
  {
    if pos + 1 > limit then None
    else if g(pos) as int <= i then Some((g(pos) as nat, pos + 1))
    else NextIndex(g, i, pos + 1, limit)
  }

  function SignBit(hbits: int, t: nat): int {
    1 - 2 * ((hbits / Pow2(t)) % 2)
  }

  /** The Fisher-Yates loop from index i on. */
  function BallFrom(ps: Params, g: Stream, hbits: int, c: seq<int>, i: nat, pos: nat, limit: nat): (r: Option<seq<int>>)
    requires |c| == N && N - ps.tau <= i <= N
    ensures r.Some? ==> |r.value| == N
    decreases N - i
  {
    if i == N then Some(c)
    else
      match NextIndex(g, i, pos, limit)
      case None => None
      case Some((j, pos')) =>
        BallFrom(ps, g, hbits, c[i := c[j]][j := SignBit(hbits, i + ps.tau - N)], i + 1, pos', limit)
  }

  /** The challenge before reduction: coefficients -1, 0 and 1. */
  function Ball(ps: Params, g: Stream, limit: nat): (r: Option<seq<int>>)
    ensures r.Some? ==> |r.value| == N
  {
    if 8 > limit then None
    else BallFrom(ps, g, Value(Output(g, 0, 8), 256), seq(N, _ => 0), N - ps.tau, 8, limit)
  }

  function SampleInBall(ps: Params, hs: Hashes, rho: Bytes, limit: nat): (r: Option<seq<int>>)
    ensures r.Some? ==> IsReduced(r.value)
  {
    match Ball(ps, hs.shake256(rho), limit)
    case None => None
    case Some(c) => Some(Reduce(c))
  }

  /** Bytes are read until one is at most i. */
  method ReadIndex(g: Xof, i: nat) returns (r: Option<nat>)
    requires g.Valid() && g.pos <= g.limit
    modifies g
    ensures g.Valid() && g.pos <= g.limit
    ensures match NextIndex(g.g, i, old(g.pos), g.limit)
            case None => r == None
            case Some((j, pos')) => r == Some(j) && g.pos == pos'
  {
    var b := g.Read(1);
    if b.None? {
      return None;
    }
    var j: nat := b.value[0];
    while j > i
      invariant g.Valid() && old(g.pos) < g.pos <= g.limit && j == g.g(g.pos - 1) as nat
      invariant NextIndex(g.g, i, g.pos - 1, g.limit) == NextIndex(g.g, i, old(g.pos), g.limit)
      decreases g.limit - g.pos
    {
      b := g.Read(1);
      if b.None? {
        return None;
      }
      j := b.value[0];
    }
    r := Some(j);
  }

  /** The in-place loop: the array is shuffled from index 256 - tau on. */
  method SampleInBallInPlace(ps: Params, hs: Hashes, rho: Bytes, limit: nat) returns (r: Option<seq<int>>)
    ensures r == SampleInBall(ps, hs, rho, limit)
  {
    hide SignBit, NextIndex, BallFrom;
    var g := new Xof(hs.shake256(rho), limit);
    var s := g.Read(8);
    if s.None? {
      return None;
    }
    var hbits := Value(s.value, 256);
    var c := new int[N](_ => 0);
    assert c[..] == seq(N, _ => 0);
    for i := N - ps.tau to N
      invariant g.Valid() && g.pos <= limit
      invariant BallFrom(ps, g.g, hbits, c[..], i, g.pos, limit) == Ball(ps, g.g, limit)
    {
      BallUnfold(ps, g.g, hbits, c[..], i, g.pos, limit);
      var b := ReadIndex(g, i);
      if b.None? {
        return None;
      }
      var j := b.value;
      ghost var before := c[..];
      c[i] := c[j];
      c[j] := SignBit(hbits, i + ps.tau - N);
      assert c[..] == before[i := before[j]][j := SignBit(hbits, i + ps.tau - N)];
    }
    BallEnd(ps, g.g, hbits, c[..], g.pos, limit);
    ReduceArray(c);
    r := Some(c[..]);
  }

  lemma BallUnfold(ps: Params, g: Stream, hbits: int, c: seq<int>, i: nat, pos: nat, limit: nat)
    requires |c| == N && N - ps.tau <= i < N
    ensures match NextIndex(g, i, pos, limit)
            case None => BallFrom(ps, g, hbits, c, i, pos, limit) == None
            case Some((j, pos')) => (
              BallFrom(ps, g, hbits, c, i, pos, limit) ==
              BallFrom(ps, g, hbits, c[i := c[j]][j := SignBit(hbits, i + ps.tau - N)], i + 1, pos', limit))
  {
    hide SignBit, NextIndex;
  }

  lemma BallEnd(ps: Params, g: Stream, hbits: int, c: seq<int>, pos: nat, limit: nat)
    requires |c| == N
    ensures BallFrom(ps, g, hbits, c, N, pos, limit) == Some(c)
  {
  }

  method ReduceArray(c: array<int>)
    requires c.Length == N
    modifies c
    ensures c[..] == Reduce(old(c[..]))
  {
    for i := 0 to N
      invariant forall t :: 0 <= t < i ==> c[t] == old(c[t]) % Q
      invariant forall t :: i <= t < N ==> c[t] == old(c[t])
    {
      c[i] := c[i] % Q;
    }
  }

  lemma {:induction false} OneNormUpdate(c: seq<int>, i: nat, v: int)
    requires i < |c|
    ensures OneNorm(c[i := v]) == OneNorm(c) - Abs(c[i]) + Abs(v)
  {
    if i > 0 {
      OneNormUpdate(c[1..], i - 1, v);
      assert c[i := v][1..] == c[1..][i - 1 := v];
    } else {
      assert c[i := v][1..] == c[1..];
    }
  }

  lemma {:induction false} OneNormZero(c: seq<int>)
    requires forall i :: 0 <= i < |c| ==> c[i] == 0
    ensures OneNorm(c) == 0
  {
    if c != [] {
      OneNormZero(c[1..]);
    }
  }

  ghost predicate Ternary(c: seq<int>) {
    forall t :: 0 <= t < |c| ==> -1 <= c[t] <= 1
  }

  lemma BallStep(c: seq<int>, i: nat, j: nat, v: int)
    requires |c| == N && j <= i < N && c[i] == 0 && Ternary(c) && (v == 1 || v == -1)
    ensures var c' := c[i := c[j]][j := v]; OneNorm(c') == OneNorm(c) + 1 && Ternary(c')
  {
    OneNormUpdate(c, i, c[j]);
    OneNormUpdate(c[i := c[j]], j, v);
  }

  lemma {:induction false} BallFromWeight(ps: Params, g: Stream, hbits: int, c: seq<int>, i: nat, pos: nat, limit: nat)
    requires |c| == N && N - ps.tau <= i <= N && Ternary(c) && forall t :: i <= t < N ==> c[t] == 0
    ensures var r := BallFrom(ps, g, hbits, c, i, pos, limit);
            r.Some? ==> Ternary(r.value) && OneNorm(r.value) == OneNorm(c) + (N - i)
    decreases N - i
  {
    if i < N {
      match NextIndex(g, i, pos, limit)
      case None =>
      case Some((j, pos')) =>
        var v := SignBit(hbits, i + ps.tau - N);
        BallStep(c, i, j, v);
        BallFromWeight(ps, g, hbits, c[i := c[j]][j := v], i + 1, pos', limit);
    }
  }

  /** The sampled challenge has exactly tau coefficients equal to 1 or -1, whatever the XOF output. */
  lemma BallWeight(ps: Params, g: Stream, limit: nat)
    ensures Ball(ps, g, limit).Some? ==>
              Ternary(Ball(ps, g, limit).value) && OneNorm(Ball(ps, g, limit).value) == ps.tau
  {
    if 8 <= limit {
      var z := seq(N, _ => 0);
      OneNormZero(z);
      BallFromWeight(ps, g, Value(Output(g, 0, 8), 256), z, N - ps.tau, 8, limit);
    }
  }
}
