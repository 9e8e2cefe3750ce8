/** The three parameter sets of ML-DSA, and the rounding and hint functions of FIPS 204 section 7.4. */
module MldsaRounding {
  import opened Modular
  import opened MldsaNtt

  const D: nat := 13

  datatype Params = Mldsa44 | Mldsa65 | Mldsa87 {
    const k: nat := if this == Mldsa44 then 4 else if this == Mldsa65 then 6 else 8
    const l: nat := if this == Mldsa44 then 4 else if this == Mldsa65 then 5 else 7
    const eta: nat := if this == Mldsa44 then 2 else if this == Mldsa65 then 4 else 2
    const tau: nat := if this == Mldsa44 then 39 else if this == Mldsa65 then 49 else 60
    const beta: int := tau * eta
    const gamma1: int := if this == Mldsa44 then 0x20000 else 0x80000
    const gamma2: int := if this == Mldsa44 then 95232 else 261888
    const omega: nat := if this == Mldsa44 then 80 else if this == Mldsa65 then 55 else 75
    const lam: nat := if this == Mldsa44 then 128 else if this == Mldsa65 then 192 else 256
    const etaBits: nat := if eta == 2 then 3 else 4
    const zBits: nat := if gamma1 == 0x20000 then 18 else 20
    const w1Bits: nat := if gamma2 == 95232 then 6 else 4
    /** Number of values that the high bits take. */
    const m: int := if this == Mldsa44 then 44 else 16
    const pkLen: nat := 32 + 320 * k
    const skLen: nat := 128 + 32 * etaBits * (k + l) + 416 * k
    const sigLen: nat := lam / 4 + 32 * l * zBits + omega + k
  }

  /** The two gamma2 are (q - 1)/88 and (q - 1)/32. */
  lemma Gamma2Values(ps: Params)
    ensures ps.gamma2 == if ps == Mldsa44 then (Q - 1) / 88 else (Q - 1) / 32
    ensures ps.m * (2 * ps.gamma2) == Q - 1
    ensures ps.beta == match ps { case Mldsa44 => 78 case Mldsa65 => 196 case Mldsa87 => 120 }
  {
  }

  /** The representative of r modulo m in (-m/2, m/2]. */
  function ModPm(r: int, m: int): int
    requires m > 0
  {
    var r0 := r % m;
    if r0 > m / 2 then r0 - m else r0
  }

  function Power2Round(r: int): (int, int) {
    var rp := r % Q;
    var r0 := ModPm(rp, 0x2000);
    ((rp - r0) / 0x2000, r0)
  }

  /**
   FIPS 204 Algorithm 35: r is r1 * 2^13 + r0 modulo q, r1 fits 10 bits and r0 fits the 13-bit field of the secret
   key.
   */
  lemma Power2RoundReconstructs(r: int)
    ensures var (r1, r0) := Power2Round(r);
            r1 * 0x2000 + r0 == r % Q && 0 <= r1 < 1024 && -0x1000 < r0 <= 0x1000
  {
  }

  function Decompose(ps: Params, r: int): (int, int) {
    var rp := r % Q;
    var r0 := ModPm(rp, 2 * ps.gamma2);
    if rp - r0 == Q - 1 then (0, r0 - 1) else ((rp - r0) / (2 * ps.gamma2), r0)
  }

  function HighBits(ps: Params, r: int): int {
    Decompose(ps, r).0
  }

  function LowBits(ps: Params, r: int): int {
    Decompose(ps, r).1
  }

  function MakeHint(ps: Params, z: int, r: int): int {
    if HighBits(ps, r) != HighBits(ps, r + z) then 1 else 0
  }

  function UseHint(ps: Params, h: int, r: int): int {
    var (r1, r0) := Decompose(ps, r);
    if h == 1 then (if r0 > 0 then (r1 + 1) % ps.m else (r1 - 1) % ps.m) else r1
  }

  /** Absolute value of the centred representative modulo q. */
  function CNorm(x: int): nat {
    var y := x % Q;
    if y > (Q - 1) / 2 then Q - y else y
  }

  /** Second components that identify the first one r1: the half-open range, and its lower end when r1 is 0. */
  predicate IsLow(ps: Params, r1: int, v: int) {
    0 <= r1 < ps.m && v <= ps.gamma2 && (-ps.gamma2 < v || (r1 == 0 && v == -ps.gamma2))
  }

  /** FIPS 204 Algorithm 36: the two parts give r back modulo q, in the wrap case too. */
  lemma DecomposeReconstructs(ps: Params, r: int)
    ensures var (r1, r0) := Decompose(ps, r);
            Cong(Q, r, r1 * (2 * ps.gamma2) + r0) && IsLow(ps, r1, r0)
  {
    if ps == Mldsa44 {
      Reconstructs44(r);
    } else {
      Reconstructs32(ps, r);
    }
  }

  lemma Reconstructs44(r: int)
    ensures var (r1, r0) := Decompose(Mldsa44, r); Cong(Q, r, r1 * 190464 + r0) && IsLow(Mldsa44, r1, r0)
  {
  }

  lemma Reconstructs32(ps: Params, r: int)
    requires ps != Mldsa44
    ensures var (r1, r0) := Decompose(ps, r); Cong(Q, r, r1 * 523776 + r0) && IsLow(ps, r1, r0)
  {
  }

  /** The decomposition is the only one with a low part in that range. */
  lemma DecomposeUnique(ps: Params, r: int, r1: int, v: int)
    requires IsLow(ps, r1, v) && Cong(Q, r, r1 * (2 * ps.gamma2) + v)
    ensures Decompose(ps, r) == (r1, v)
  {
    hide Decompose, IsLow;
    DecomposeRemainder(ps, r);
    if ps == Mldsa44 {
      Unique44(r % Q, r1, v);
    } else {
      Unique32(ps, r % Q, r1, v);
    }
  }

  lemma DecomposeRemainder(ps: Params, r: int)
    ensures Decompose(ps, r % Q) == Decompose(ps, r)
  {
    assert r % Q % Q == r % Q;
  }

  lemma Unique44(rp: int, r1: int, v: int)
    requires 0 <= rp < Q && IsLow(Mldsa44, r1, v) && rp == (r1 * 190464 + v) % Q
    ensures Decompose(Mldsa44, rp) == (r1, v)
  {
    assert rp == if r1 == 0 && v < 0 then v + Q else r1 * 190464 + v;
  }

  lemma Unique32(ps: Params, rp: int, r1: int, v: int)
    requires ps != Mldsa44 && 0 <= rp < Q && IsLow(ps, r1, v) && rp == (r1 * 523776 + v) % Q
    ensures Decompose(ps, rp) == (r1, v)
  {
    assert rp == if r1 == 0 && v < 0 then v + Q else r1 * 523776 + v;
  }

  /** Adding something small to a number with small low bits does not change its high bits. */
  lemma HighBitsStable(ps: Params, r: int, d: int, bound: int)
    requires -bound < LowBits(ps, r) < bound && -(ps.gamma2 - bound) <= d <= ps.gamma2 - bound
    ensures HighBits(ps, r + d) == HighBits(ps, r)
  {
    hide Cong, Decompose;
    var (r1, r0) := Decompose(ps, r);
    DecomposeReconstructs(ps, r);
    Shifted(ps, r, d);
    DecomposeUnique(ps, r + d, r1, r0 + d);
  }

  lemma Shifted(ps: Params, r: int, d: int)
    ensures Cong(Q, r + d, HighBits(ps, r) * (2 * ps.gamma2) + (LowBits(ps, r) + d))
  {
    hide Decompose;
    DecomposeReconstructs(ps, r);
    CongAdd(Q, r, HighBits(ps, r) * (2 * ps.gamma2) + LowBits(ps, r), d, d);
  }

  function Centred(x: int): int {
    var y := x % Q;
    if y > (Q - 1) / 2 then y - Q else y
  }

  lemma CentredValue(x: int)
    ensures Cong(Q, x, Centred(x))
    ensures CNorm(x) == if Centred(x) < 0 then -Centred(x) else Centred(x)
  {
  }

  /** The high bits of r + y for a small y: those of r, or one step up or down around the circle. */
  lemma HighBitsNear(ps: Params, r: int, y: int)
    requires -ps.gamma2 <= y <= ps.gamma2
    ensures var (r1, r0) := Decompose(ps, r); var h := HighBits(ps, r + y);
            h == (if IsLow(ps, r1, r0 + y) then r1 else if r0 > 0 then (r1 + 1) % ps.m else (r1 - 1) % ps.m)
  {
    hide Cong, Decompose;
    var (r1, r0) := Decompose(ps, r);
    DecomposeReconstructs(ps, r);
    Shifted(ps, r, y);
    if IsLow(ps, r1, r0 + y) {
      DecomposeUnique(ps, r + y, r1, r0 + y);
    } else if r0 > 0 {
      OneUp(ps, r + y, r1, r0 + y);
    } else {
      OneDown(ps, r + y, r1, r0 + y);
    }
  }

  lemma OneUp(ps: Params, x: int, r1: int, v: int)
    requires 0 <= r1 < ps.m && ps.gamma2 < v <= 2 * ps.gamma2 && Cong(Q, x, r1 * (2 * ps.gamma2) + v)
    ensures HighBits(ps, x) == (r1 + 1) % ps.m
  {
    hide Cong, Decompose;
    if r1 + 1 < ps.m {
      MoveCarry(ps, x, r1, v, 1, 0);
      DecomposeUnique(ps, x, r1 + 1, v - 2 * ps.gamma2);
    } else {
      MoveCarry(ps, x, r1, v, 1, 1);
      DecomposeUnique(ps, x, 0, v - 2 * ps.gamma2 - 1);
    }
  }

  lemma OneDown(ps: Params, x: int, r1: int, v: int)
    requires 0 <= r1 < ps.m && -2 * ps.gamma2 <= v <= -ps.gamma2 && !IsLow(ps, r1, v)
    requires Cong(Q, x, r1 * (2 * ps.gamma2) + v)
    ensures HighBits(ps, x) == (r1 - 1) % ps.m
  {
    hide Cong, Decompose;
    if r1 > 0 {
      MoveCarry(ps, x, r1, v, -1, 0);
      DecomposeUnique(ps, x, r1 - 1, v + 2 * ps.gamma2);
    } else {
      MoveCarry(ps, x, r1, v, -1, -1);
      DecomposeUnique(ps, x, ps.m - 1, v + 2 * ps.gamma2 + 1);
    }
  }

  /** A multiple of 2*gamma2 can move between the two parts, and going around the circle costs one unit. */
  lemma MoveCarry(ps: Params, x: int, r1: int, v: int, c: int, w: int)
    requires Cong(Q, x, r1 * (2 * ps.gamma2) + v) && -1 <= w <= 1
    ensures Cong(Q, x, (r1 + c - w * ps.m) * (2 * ps.gamma2) + (v - c * (2 * ps.gamma2) - w))
  {
    Gamma2Values(ps);
    if ps == Mldsa44 {
      CongOfMultiple(Q, (r1 + c - w * 44) * 190464 + (v - c * 190464 - w), r1 * 190464 + v, -w);
    } else {
      CongOfMultiple(Q, (r1 + c - w * 16) * 523776 + (v - c * 523776 - w), r1 * 523776 + v, -w);
    }
  }

  /** The hint lemma: one bit is enough to recover the high bits of r + z from r when z is at most gamma2. */
  lemma HintRecovers(ps: Params, z: int, r: int)
    requires CNorm(z) <= ps.gamma2
    ensures UseHint(ps, MakeHint(ps, z, r), r) == HighBits(ps, r + z)
  {
    hide Decompose, Cong, IsLow;
    var y := Centred(z);
    CentredValue(z);
    HighBitsNear(ps, r, y);
    SameHighBits(ps, r, z, y);
  }

  lemma SameHighBits(ps: Params, r: int, z: int, y: int)
    requires Cong(Q, z, y)
    ensures HighBits(ps, r + z) == HighBits(ps, r + y)
  {
    CongAdd(Q, r, r, z, y);
  }
}
