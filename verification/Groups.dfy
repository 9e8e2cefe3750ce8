/** Points that are added, and their multiples.  Whether the points form a group is an assumption about the curve. */
module Groups {
  import opened Modular
  import opened Digits

  /** on tells which of the values are points. */
  datatype Group<!P> = Group(zero: P, add: (P, P) -> P, on: P -> bool)

  /** The laws that multiples need. */
  ghost predicate GroupOk<P(!new)>(g: Group<P>) {
    && g.on(g.zero)
    && (forall a, b :: g.on(a) && g.on(b) ==> g.on(g.add(a, b)))
    && (forall a, b, c :: g.on(a) && g.on(b) && g.on(c) ==> g.add(g.add(a, b), c) == g.add(a, g.add(b, c)))
    && (forall a :: g.on(a) ==> g.add(g.zero, a) == a && g.add(a, g.zero) == a)
  }

  /** p added to itself. */
  function Times<P>(g: Group<P>, k: nat, p: P): P {
    if k == 0 then g.zero else g.add(Times(g, k - 1, p), p)
  }

  lemma Closed<P(!new)>(g: Group<P>, a: P, b: P)
    requires GroupOk(g) && g.on(a) && g.on(b)
    ensures g.on(g.add(a, b))
  {
  }

  lemma Associative<P(!new)>(g: Group<P>, a: P, b: P, c: P)
    requires GroupOk(g) && g.on(a) && g.on(b) && g.on(c)
    ensures g.add(g.add(a, b), c) == g.add(a, g.add(b, c))
  {
  }

  lemma Neutral<P(!new)>(g: Group<P>, a: P)
    requires GroupOk(g) && g.on(a)
    ensures g.on(g.zero) && g.add(g.zero, a) == a && g.add(a, g.zero) == a
  {
  }

  lemma ZeroOn<P(!new)>(g: Group<P>)
    requires GroupOk(g)
    ensures g.on(g.zero)
  {
  }

  lemma {:induction false} TimesOn<P(!new)>(g: Group<P>, k: nat, p: P)
    requires GroupOk(g) && g.on(p)
    ensures g.on(Times(g, k, p))
  {
    hide GroupOk;
    if k > 0 {
      TimesOn(g, k - 1, p);
      Closed(g, Times(g, k - 1, p), p);
    } else {
      ZeroOn(g);
    }
  }

  lemma {:induction false} TimesAdd<P(!new)>(g: Group<P>, a: nat, b: nat, p: P)
    requires GroupOk(g) && g.on(p)
    ensures Times(g, a + b, p) == g.add(Times(g, a, p), Times(g, b, p))
  {
    hide GroupOk;
    TimesOn(g, a, p);
    if b > 0 {
      TimesOn(g, b - 1, p);
      TimesAdd(g, a, b - 1, p);
      Associative(g, Times(g, a, p), Times(g, b - 1, p), p);
    } else {
      Neutral(g, Times(g, a, p));
    }
  }

  lemma {:induction false} TimesTimes<P(!new)>(g: Group<P>, a: nat, b: nat, p: P)
    requires GroupOk(g) && g.on(p)
    ensures Times(g, a, Times(g, b, p)) == Times(g, a * b, p)
  {
    hide GroupOk;
    if a > 0 {
      TimesTimes(g, a - 1, b, p);
      TimesAdd(g, (a - 1) * b, b, p);
      assert (a - 1) * b + b == a * b;
    }
  }

  lemma {:induction false} TimesZero<P(!new)>(g: Group<P>, k: nat)
    requires GroupOk(g)
    ensures Times(g, k, g.zero) == g.zero
  {
    hide GroupOk;
    if k > 0 {
      TimesZero(g, k - 1);
      ZeroOn(g);
      Neutral(g, g.zero);
    }
  }

  /** Only the multiple modulo the order matters. */
  lemma TimesReduced<P(!new)>(g: Group<P>, n: nat, k: nat, p: P)
    requires GroupOk(g) && g.on(p) && n > 0 && Times(g, n, p) == g.zero
    ensures Times(g, k, p) == Times(g, k % n, p)
  {
    hide GroupOk, Times;
    var t, r := k / n, k % n;
    assert k == t * n + r;
    TimesAdd(g, t * n, r, p);
    TimesTimes(g, t, n, p);
    TimesZero(g, t);
    TimesOn(g, r, p);
    Neutral(g, Times(g, r, p));
  }

  lemma TimesCong<P(!new)>(g: Group<P>, n: nat, j: nat, k: nat, p: P)
    requires GroupOk(g) && g.on(p) && n > 0 && Times(g, n, p) == g.zero && Cong(n, j, k)
    ensures Times(g, j, p) == Times(g, k, p)
  {
    hide GroupOk, Times;
    TimesReduced(g, n, j, p);
    TimesReduced(g, n, k, p);
  }

  /** p has order n, and no smaller one. */
  ghost predicate OrderIs<P(!new)>(g: Group<P>, n: nat, p: P) {
    n > 0 && Times(g, n, p) == g.zero && forall k: nat :: Times(g, k, p) == g.zero ==> k % n == 0
  }

  /** Equal multiples of a point of order n have factors that agree modulo n. */
  lemma EqualMultiples<P(!new)>(g: Group<P>, n: nat, j: nat, k: nat, p: P)
    requires GroupOk(g) && g.on(p) && OrderIs(g, n, p) && Times(g, j, p) == Times(g, k, p)
    ensures Cong(n, j, k)
  {
    hide GroupOk, Times, Cong;
    // add the multiple that completes j to a multiple of n
    var r := Complement(n, j);
    CongZeroOf(n, j + r);
    TimesAdd(g, j, r, p);
    TimesAdd(g, k, r, p);
    TimesCong(g, n, j + r, 0, p);
    TimesNone(g, p);
    CongZeroOf(n, k + r);
    CongJoin(n, j + r, k + r, 0);
    DropTerm(n, j, k, r);
  }

  lemma Complement(n: nat, j: nat) returns (r: nat)
    requires n > 0
    ensures (j + r) % n == 0
  {
    r := n - j % n;
    DivModUnique(j + r, n, j / n + 1, 0);
  }

  lemma CongZeroOf(n: nat, a: nat)
    requires n > 0
    ensures a % n == 0 ==> Cong(n, a, 0)
  {
  }

  lemma DropTerm(n: nat, j: nat, k: nat, r: nat)
    requires n > 0 && Cong(n, j + r, k + r)
    ensures Cong(n, j, k)
  {
    hide Cong;
    CongSelf(n, r);
    CongAdd(n, j + r, k + r, r, r);
  }

  /** a p + b (d p) is a multiple of p. */
  lemma TimesSum<P(!new)>(g: Group<P>, a: nat, b: nat, d: nat, p: P)
    requires GroupOk(g) && g.on(p)
    ensures g.add(Times(g, a, p), Times(g, b, Times(g, d, p))) == Times(g, a + b * d, p)
  {
    hide GroupOk, Times;
    TimesTimes(g, b, d, p);
    TimesAdd(g, a, b * d, p);
  }

  lemma {:induction false} BelowLength(k: nat)
    ensures k < Pow2(BitLen(k))
  {
    if k > 0 {
      BelowLength(k / 2);
    }
  }

  lemma HalfOf(k: nat, i: nat)
    requires i > 0
    ensures k / Pow2(i - 1) == 2 * (k / Pow2(i)) + (if BitOf(k, i - 1) then 1 else 0)
  {
    hide Pow2, BitOf;
    var p, m := Pow2(i - 1), Pow2(i);
    PowerTwice(i);
    var q, r := Division(k, m);
    var b := if r < p then 0 else 1;
    QuotientOf(k, p, m, q, r);
    BitAt(k, i - 1, 2 * q + b);
    LowBit(2 * q + b, q, b);
  }

  lemma PowerTwice(i: nat)
    requires i > 0
    ensures Pow2(i) == 2 * Pow2(i - 1)
  {
  }

  lemma Division(k: nat, m: nat) returns (q: nat, r: nat)
    requires m > 0
    ensures q == k / m && k == q * m + r && r < m
  {
    q, r := k / m, k % m;
  }

  lemma BitAt(k: nat, j: nat, h: nat)
    requires h == k / Pow2(j)
    ensures BitOf(k, j) <==> h % 2 == 1
  {
  }

  lemma LowBit(h: nat, q: nat, b: nat)
    requires h == 2 * q + b && b < 2
    ensures h % 2 == b
  {
  }

  lemma QuotientOf(k: nat, p: nat, m: nat, q: nat, r: nat)
    requires p > 0 && m == 2 * p && k == q * m + r && r < m
    ensures k / p == 2 * q + (if r < p then 0 else 1)
  {
    Regroup(q, p, r);
    if r < p {
      DivModUnique(k, p, 2 * q, r);
    } else {
      DivModUnique(k, p, 2 * q + 1, r - p);
    }
  }

  lemma Regroup(q: nat, p: nat, r: nat)
    ensures q * (2 * p) + r == (2 * q) * p + r && (2 * q) * p + r == (2 * q + 1) * p + (r - p)
  {
  }

  /** Double and add over the bits from the top, as in the curves' mul. */
  method DoubleAndAdd<P(!new)>(g: Group<P>, k: nat, p: P) returns (r: P)
    requires GroupOk(g) && g.on(p)
    ensures r == Times(g, k, p)
  {
    hide BitLen, Pow2, Times, GroupOk;
    r := g.zero;
    var i := BitLen(k);
    BelowLength(k);
    DivModUnique(k, Pow2(i), 0, k);
    TimesNone(g, p);
    while i > 0
      invariant r == Times(g, k / Pow2(i), p)
    {
      var h := k / Pow2(i);
      HalfOf(k, i);
      TimesAdd(g, h, h, p);
      TimesAdd(g, 2 * h, 1, p);
      TimesOne(g, p);
      r := g.add(r, r);
      if BitOf(k, i - 1) {
        r := g.add(r, p);
      }
      i := i - 1;
    }
    assert Pow2(0) == 1 by { PowerZero(); }
  }

  lemma PowerZero()
    ensures Pow2(0) == 1
  {
  }

  lemma TimesNone<P(!new)>(g: Group<P>, p: P)
    ensures Times(g, 0, p) == g.zero
  {
  }

  lemma TimesOne<P(!new)>(g: Group<P>, p: P)
    requires GroupOk(g) && g.on(p)
    ensures Times(g, 1, p) == p
  {
    hide GroupOk;
    Neutral(g, p);
    assert Times(g, 0, p) == g.zero;
  }
}
