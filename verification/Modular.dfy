/** Congruences modulo a positive integer, and powers.  Everything the number-theoretic transforms need from Z_q. */
module Modular {

  /** a and b leave the same remainder modulo q. */
  ghost predicate Cong(q: int, a: int, b: int)
    requires q > 0
  {
    a % q == b % q
  }

  lemma MulAtLeast(d: int, q: int)
    requires q > 0
    ensures d >= 1 ==> d * q >= q
    ensures d <= -1 ==> d * q <= -q
  {
  }

  lemma MulMono(a: nat, b: nat, c: nat)
    requires a <= b
    ensures a * c <= b * c
  {
  }

  lemma DivModUnique(a: int, q: int, t: int, r: int)
    requires q > 0 && 0 <= r < q && a == t * q + r
    ensures a / q == t && a % q == r
  {
    var d := a / q - t;
    assert d * q == (a / q) * q - t * q;
    MulAtLeast(d, q);
    assert d == 0;
  }

  lemma CongOfMultiple(q: int, a: int, b: int, k: int)
    requires q > 0 && a == b + k * q
    ensures Cong(q, a, b)
  {
    assert a == (b / q + k) * q + b % q;
    DivModUnique(a, q, b / q + k, b % q);
  }

  lemma MultipleOfCong(q: int, a: int, b: int) returns (k: int)
    requires q > 0 && Cong(q, a, b)
    ensures a == b + k * q
  {
    k := a / q - b / q;
    assert a == (a / q) * q + a % q && b == (b / q) * q + b % q;
  }

  lemma CongJoin(q: int, a: int, b: int, c: int)
    requires q > 0 && Cong(q, a, c) && Cong(q, b, c)
    ensures Cong(q, a, b)
  {
  }

  lemma CongMod(q: int, a: int)
    requires q > 0
    ensures Cong(q, a % q, a)
  {
    CongOfMultiple(q, a % q, a, -(a / q));
  }

  lemma CongAdd(q: int, a: int, a': int, b: int, b': int)
    requires q > 0 && Cong(q, a, a') && Cong(q, b, b')
    ensures Cong(q, a + b, a' + b')
    ensures Cong(q, a - b, a' - b')
  {
    hide Cong;
    var k := MultipleOfCong(q, a, a');
    var l := MultipleOfCong(q, b, b');
    CongOfMultiple(q, a + b, a' + b', k + l);
    CongOfMultiple(q, a - b, a' - b', k - l);
  }

  lemma MulEq(x: int, y: int, z: int)
    requires x == y
    ensures x * z == y * z
  {
  }

  lemma CongMul(q: int, a: int, a': int, b: int, b': int)
    requires q > 0 && Cong(q, a, a') && Cong(q, b, b')
    ensures Cong(q, a * b, a' * b')
  {
    hide Cong;
    var k := MultipleOfCong(q, a, a');
    var l := MultipleOfCong(q, b, b');
    MulEq(a, a' + k * q, b);
    MulEq(b, b' + l * q, a');
    CongOfMultiple(q, a * b, a' * b', k * b + a' * l);
  }

  function Pow(b: int, e: nat): int {
    if e == 0 then 1 else b * Pow(b, e - 1)
  }

  function Pow2(k: nat): (r: nat)
    ensures r > 0
  {
    if k == 0 then 1 else 2 * Pow2(k - 1)
  }

  lemma {:induction false} PowAdd(b: int, e: nat, f: nat)
    ensures Pow(b, e + f) == Pow(b, e) * Pow(b, f)
  {
    if e > 0 {
      PowAdd(b, e - 1, f);
    }
  }

  lemma {:induction false} PowMul(b: int, e: nat, f: nat)
    ensures e * f >= 0 && Pow(b, e * f) == Pow(Pow(b, e), f)
  {
    if f > 0 {
      PowMul(b, e, f - 1);
      assert e * f == e + e * (f - 1);
      PowAdd(b, e, e * (f - 1));
    }
  }

  lemma {:induction false} PowCong(q: int, a: int, b: int, e: nat)
    requires q > 0 && Cong(q, a, b)
    ensures Cong(q, Pow(a, e), Pow(b, e))
  {
    if e > 0 {
      PowCong(q, a, b, e - 1);
      CongMul(q, a, b, Pow(a, e - 1), Pow(b, e - 1));
    }
  }

  /** One step of the square-and-multiply evaluation of a power modulo q. */
  lemma PowSquare(q: int, b: int, e: nat, v: int, v': int)
    requires q > 0 && Cong(q, Pow(b, e), v) && Cong(q, v * v, v')
    ensures Cong(q, Pow(b, 2 * e), v')
  {
    PowAdd(b, e, e);
    CongMul(q, Pow(b, e), v, Pow(b, e), v);
  }

  lemma PowOne(b: int)
    ensures Pow(b, 1) == b
  {
  }

  lemma PowOdd(i: nat)
    ensures Pow(-1, 2 * i + 1) == -1
  {
    if i > 0 {
      PowOdd(i - 1);
      assert Pow(-1, 2 * i + 1) == -1 * (-1 * Pow(-1, 2 * (i - 1) + 1));
    }
  }

  lemma CongSelf(q: int, a: int)
    requires q > 0
    ensures Cong(q, a, a)
  {
  }

  lemma SameRemainder(q: int, a: int, b: int, c: int)
    requires q > 0 && Cong(q, a, c) && Cong(q, b, c)
    ensures a % q == b % q
  {
  }

  /** Bitwise and of two two-bit policies. */
  function And2(a: nat, b: nat): nat {
    (if a % 2 == 1 && b % 2 == 1 then 1 else 0) + (if a / 2 % 2 == 1 && b / 2 % 2 == 1 then 2 else 0)
  }

  lemma SmallMod(c: nat, p: nat)
    requires c < p
    ensures c % p == c
  {
  }

  lemma {:induction false} PowersGrow(a: nat, b: nat)
    requires a <= b
    ensures Pow2(a) <= Pow2(b)
  {
    if a < b {
      PowersGrow(a, b - 1);
    }
  }

  function Min(a: nat, b: nat): nat {
    if a < b then a else b
  }

  /** Bit k of a number. */
  function BitOf(n: nat, k: nat): bool {
    n / Pow2(k) % 2 == 1
  }

  lemma HalfOfQuotient(n: nat, p: nat)
    requires p > 0
    ensures n / 2 / p == n / (2 * p)
  {
    var m := 2 * p;
    var q, r := n / m, n % m;
    assert n == q * m + r && q * m == 2 * (q * p);
    DivModUnique(n / 2, p, q, r / 2);
  }

  /** The higher bits are those of the half. */
  lemma BitOfHalf(n: nat, k: nat)
    requires k > 0
    ensures BitOf(n, k) == BitOf(n / 2, k - 1)
  {
    HalfOfQuotient(n, Pow2(k - 1));
  }
}
