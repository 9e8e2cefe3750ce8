/** Packing of the hint vectors into omega + k bytes (FIPS 204 Algorithms 20 and 21). */
module MldsaHints {
  import opened Wrappers
  import opened Digits
  import opened NttTheory
  import opened MldsaRounding

  /** The positions below j that hold a one, in increasing order. */
  function Ones(p: seq<int>, j: nat): (r: seq<int>)
    requires j <= |p|
  {
    if j == 0 then [] else if p[j - 1] != 0 then Ones(p, j - 1) + [j - 1] else Ones(p, j - 1)
  }

  /** The positions of the first i polynomials, one list after the other. */
  function Flat(h: seq<seq<int>>, i: nat): seq<int>
    requires i <= |h| && forall t :: 0 <= t < |h| ==> |h[t]| == N
  {
    if i == 0 then [] else Flat(h, i - 1) + Ones(h[i - 1], N)
  }

  /** Where the positions of polynomial i end. */
  function End(h: seq<seq<int>>, i: nat): nat
    requires i < |h| && forall t :: 0 <= t < |h| ==> |h[t]| == N
  {
    |Flat(h, i + 1)|
  }

  ghost predicate Increasing(s: seq<int>) {
    forall i, j :: 0 <= i < j < |s| ==> s[i] < s[j]
  }

  ghost predicate IsBits(p: seq<int>) {
    |p| == N && forall j :: 0 <= j < N ==> p[j] == 0 || p[j] == 1
  }

  ghost predicate HasShape(ps: Params, h: seq<seq<int>>) {
    |h| == ps.k && forall t :: 0 <= t < ps.k ==> IsBits(h[t])
  }

  /** A vector of k polynomials with 0/1 coefficients and at most omega ones. */
  ghost predicate IsHint(ps: Params, h: seq<seq<int>>) {
    HasShape(ps, h) && |Flat(h, ps.k)| <= ps.omega
  }

  /** The packed form: the positions, zeros up to omega, and for each polynomial where its positions end. */
  function Packed(ps: Params, h: seq<seq<int>>): (y: seq<int>)
    requires |h| == ps.k && (forall t :: 0 <= t < ps.k ==> |h[t]| == N) && |Flat(h, ps.k)| <= ps.omega
    ensures |y| == ps.omega + ps.k
  {
    Flat(h, ps.k) + seq(ps.omega - |Flat(h, ps.k)|, _ => 0) + seq(ps.k, i requires 0 <= i < ps.k => End(h, i))
  }

  // ---------------------------------------------------------------- packing

  lemma {:induction false} OnesProperties(p: seq<int>, j: nat)
    requires j <= |p|
    ensures |Ones(p, j)| <= j && Increasing(Ones(p, j))
    ensures forall x :: x in Ones(p, j) <==> 0 <= x < j && p[x] != 0
  {
    if j > 0 {
      OnesProperties(p, j - 1);
      var s := Ones(p, j - 1);
      assert forall i :: 0 <= i < |s| ==> s[i] in s;
    }
  }

  lemma {:induction false} FlatMonotone(h: seq<seq<int>>, i: nat, j: nat)
    requires i <= j <= |h| && forall t :: 0 <= t < |h| ==> |h[t]| == N
    ensures |Flat(h, i)| <= |Flat(h, j)| && Flat(h, j)[..|Flat(h, i)|] == Flat(h, i)
    decreases j
  {
    if i < j {
      FlatMonotone(h, i, j - 1);
      assert Flat(h, j)[..|Flat(h, i)|] == Flat(h, j - 1)[..|Flat(h, i)|];
    }
  }

  lemma OnesPrefix(p: seq<int>, j: nat, n: nat)
    requires j <= n <= |p|
    ensures |Ones(p, j)| <= |Ones(p, n)|
    decreases n
  {
    if j < n {
      OnesPrefix(p, j, n - 1);
    }
  }

  /** The inner loop: the positions of one polynomial are written from idx0 on. */
  method WritePositions(y: array<int>, p: seq<int>, idx0: nat) returns (idx: nat)
    requires |p| == N && idx0 + |Ones(p, N)| <= y.Length
    modifies y
    ensures idx == idx0 + |Ones(p, N)|
    ensures y[..idx] == old(y[..idx0]) + Ones(p, N) && forall t :: idx <= t < y.Length ==> y[t] == old(y[t])
  {
    idx := idx0;
    for j := 0 to N
      invariant idx == idx0 + |Ones(p, j)| && |Ones(p, j)| <= |Ones(p, N)|
      invariant y[..idx] == old(y[..idx0]) + Ones(p, j)
      invariant forall t :: idx <= t < y.Length ==> y[t] == old(y[t])
    {
      OnesPrefix(p, j + 1, N);
      if p[j] != 0 {
        y[idx] := j;
        idx := idx + 1;
        assert y[..idx] == y[..idx - 1] + [j];
      }
    }
  }

  /** The packing loop, writing positions and end marks into a zeroed byte array. */
  method HintBitPack(ps: Params, h: seq<seq<int>>) returns (y: array<int>)
    requires |h| == ps.k && (forall t :: 0 <= t < ps.k ==> |h[t]| == N) && |Flat(h, ps.k)| <= ps.omega
    ensures fresh(y) && y[..] == Packed(ps, h)
  {
    y := new int[ps.omega + ps.k](_ => 0);
    var idx := 0;
    for i := 0 to ps.k
      invariant idx == |Flat(h, i)| <= ps.omega
      invariant y[..idx] == Flat(h, i)
      invariant forall t :: idx <= t < ps.omega ==> y[t] == 0
      invariant forall t :: 0 <= t < i ==> y[ps.omega + t] == End(h, t)
    {
      FlatMonotone(h, i + 1, ps.k);
      idx := PackRow(ps, y, h, i, idx);
    }
    PackedParts(ps, h, y[..]);
  }

  /** Polynomial i appended: its positions, and where they end. */
  method PackRow(ps: Params, y: array<int>, h: seq<seq<int>>, i: nat, start: nat) returns (idx: nat)
    requires y.Length == ps.omega + ps.k && i < ps.k == |h| && forall t :: 0 <= t < ps.k ==> |h[t]| == N
    requires |Flat(h, i + 1)| <= ps.omega && start == |Flat(h, i)| && y[..start] == Flat(h, i)
    modifies y
    ensures idx == |Flat(h, i + 1)| && y[..idx] == Flat(h, i + 1) && y[ps.omega + i] == idx
    ensures forall t :: idx <= t < y.Length && t != ps.omega + i ==> y[t] == old(y[t])
  {
    idx := WritePositions(y, h[i], start);
    ghost var w := y[..idx];
    y[ps.omega + i] := idx;
    assert y[..idx] == w;
  }

  lemma PackedParts(ps: Params, h: seq<seq<int>>, y: seq<int>)
    requires |h| == ps.k && (forall t :: 0 <= t < ps.k ==> |h[t]| == N) && |Flat(h, ps.k)| <= ps.omega
    requires |y| == ps.omega + ps.k && y[..|Flat(h, ps.k)|] == Flat(h, ps.k)
    requires forall t :: |Flat(h, ps.k)| <= t < ps.omega ==> y[t] == 0
    requires forall t :: 0 <= t < ps.k ==> y[ps.omega + t] == End(h, t)
    ensures y == Packed(ps, h)
  {
    var n, p := |Flat(h, ps.k)|, Packed(ps, h);
    assert y[..n] == p[..n] && y[n..ps.omega] == p[n..ps.omega] && y[ps.omega..] == p[ps.omega..];
    assert y == y[..n] + y[n..ps.omega] + y[ps.omega..] && p == p[..n] + p[n..ps.omega] + p[ps.omega..];
  }

  // ---------------------------------------------------------------- unpacking

  /** Where the positions of polynomial i start in a packed string. */
  function Start(ps: Params, y: seq<int>, i: nat): int
    requires |y| == ps.omega + ps.k && i <= ps.k
  {
    if i == 0 then 0 else y[ps.omega + i - 1]
  }

  /** The positions of polynomial i are well placed and strictly increasing. */
  predicate GoodSegment(ps: Params, y: seq<int>, i: nat)
    requires |y| == ps.omega + ps.k && i < ps.k
  {
    0 <= Start(ps, y, i) <= Start(ps, y, i + 1) <= ps.omega &&
    forall t :: Start(ps, y, i) < t < Start(ps, y, i + 1) ==> y[t - 1] < y[t]
  }

  predicate WellFormed(ps: Params, y: seq<int>)
    requires |y| == ps.omega + ps.k
  {
    (forall i :: 0 <= i < ps.k ==> GoodSegment(ps, y, i)) &&
    forall t :: Start(ps, y, ps.k) <= t < ps.omega ==> t < 0 || y[t] == 0
  }

  /** The polynomial with a one at each of the given positions. */
  function FromOnes(s: seq<int>): (p: seq<int>)
    ensures IsBits(p)
  {
    seq(N, j requires 0 <= j < N => if j in s then 1 else 0)
  }

  function Segment(ps: Params, y: seq<int>, i: nat): seq<int>
    requires |y| == ps.omega + ps.k && i < ps.k && GoodSegment(ps, y, i)
  {
    y[Start(ps, y, i)..Start(ps, y, i + 1)]
  }

  function Unpacked(ps: Params, y: seq<int>): Option<seq<seq<int>>>
    requires |y| == ps.omega + ps.k
  {
    if WellFormed(ps, y) then
      Some(seq(ps.k, i requires 0 <= i < ps.k && GoodSegment(ps, y, i) => FromOnes(Segment(ps, y, i))))
    else None
  }

  // ---------------------------------------------------------------- the two are inverse

  /** An increasing list of positions is what Ones reads back from its polynomial. */
  lemma {:induction false} OnesOfFromOnes(s: seq<int>, j: nat, c: nat)
    requires Increasing(s) && j <= N && c <= |s|
    requires forall i :: 0 <= i < |s| ==> 0 <= s[i] < N
    requires forall i :: 0 <= i < |s| ==> (i < c <==> s[i] < j)
    ensures Ones(FromOnes(s), j) == s[..c]
  {
    if j == 0 {
    } else if j - 1 in s {
      assert s[c - 1] == j - 1 by {
        var i :| 0 <= i < |s| && s[i] == j - 1;
      }
      OnesOfFromOnes(s, j - 1, c - 1);
      assert s[..c] == s[..c - 1] + [j - 1];
    } else {
      OnesOfFromOnes(s, j - 1, c);
    }
  }

  lemma FromOnesOfOnes(p: seq<int>)
    requires IsBits(p)
    ensures FromOnes(Ones(p, N)) == p
  {
    OnesProperties(p, N);
  }

  lemma PackedMarks(ps: Params, h: seq<seq<int>>, i: nat)
    requires IsHint(ps, h) && i <= ps.k
    ensures Start(ps, Packed(ps, h), i) == |Flat(h, i)| <= ps.omega && Packed(ps, h)[..|Flat(h, i)|] == Flat(h, i)
  {
    FlatMonotone(h, i, ps.k);
    assert i > 0 ==> Start(ps, Packed(ps, h), i) == End(h, i - 1);
    assert Packed(ps, h)[..|Flat(h, i)|] == Flat(h, ps.k)[..|Flat(h, i)|];
  }

  /** Segment i of a packing is the list of positions of polynomial i. */
  lemma FlatNext(h: seq<seq<int>>, i: nat)
    requires i < |h| && forall t :: 0 <= t < |h| ==> |h[t]| == N
    ensures Flat(h, i + 1) == Flat(h, i) + Ones(h[i], N)
  {
    hide Ones;
  }

  lemma PackedSegment(ps: Params, h: seq<seq<int>>, i: nat)
    requires IsHint(ps, h) && i < ps.k
    ensures GoodSegment(ps, Packed(ps, h), i) && Segment(ps, Packed(ps, h), i) == Ones(h[i], N)
  {
    hide Packed, Start, Ones, Flat;
    var y, o, n := Packed(ps, h), Ones(h[i], N), |Flat(h, i)|;
    PackedMarks(ps, h, i);
    PackedMarks(ps, h, i + 1);
    FlatNext(h, i);
    assert y[n..n + |o|] == y[..n + |o|][n..] == o;
    OnesProperties(h[i], N);
    SegmentFromParts(y, o, n);
  }

  lemma SegmentFromParts(y: seq<int>, o: seq<int>, n: nat)
    requires n + |o| <= |y| && y[n..n + |o|] == o && Increasing(o)
    ensures forall t :: n < t < n + |o| ==> y[t - 1] < y[t]
  {
    forall t | n < t < n + |o|
      ensures y[t - 1] < y[t]
    {
      assert y[t - 1] == o[t - 1 - n] && y[t] == o[t - n];
    }
  }

  lemma PackedWellFormed(ps: Params, h: seq<seq<int>>)
    requires IsHint(ps, h)
    ensures WellFormed(ps, Packed(ps, h))
  {
    hide Ones;
    PackedMarks(ps, h, ps.k);
    forall i | 0 <= i < ps.k
      ensures GoodSegment(ps, Packed(ps, h), i)
    {
      PackedSegment(ps, h, i);
    }
  }

  /** Unpacking a packing gives the hint vector back. */
  lemma UnpackPacked(ps: Params, h: seq<seq<int>>)
    requires IsHint(ps, h)
    ensures Unpacked(ps, Packed(ps, h)) == Some(h)
  {
    hide Packed, WellFormed, GoodSegment, FromOnes, Ones, Segment;
    var y := Packed(ps, h);
    PackedWellFormed(ps, h);
    forall i | 0 <= i < ps.k
      ensures GoodSegment(ps, y, i) && FromOnes(Segment(ps, y, i)) == h[i]
    {
      PackedSegment(ps, h, i);
      FromOnesOfOnes(h[i]);
    }
    assert Unpacked(ps, y).value == h;
  }

  lemma UnpackedShape(ps: Params, y: seq<int>, h: seq<seq<int>>)
    requires |y| == ps.omega + ps.k && Unpacked(ps, y) == Some(h)
    ensures HasShape(ps, h) && WellFormed(ps, y)
    ensures forall i :: 0 <= i < ps.k ==> GoodSegment(ps, y, i) && h[i] == FromOnes(Segment(ps, y, i))
  {
  }

  /** The positions read back from one unpacked polynomial are its segment. */
  lemma OnesOfUnpacked(ps: Params, y: seq<int>, h: seq<seq<int>>, i: nat)
    requires |y| == ps.omega + ps.k && AreDigits(y, 256) && Unpacked(ps, y) == Some(h) && i < ps.k
    ensures HasShape(ps, h) && 0 <= Start(ps, y, i) <= Start(ps, y, i + 1) <= ps.omega
    ensures Ones(h[i], N) == y[Start(ps, y, i)..Start(ps, y, i + 1)]
  {
    UnpackedShape(ps, y, h);
    var s := Segment(ps, y, i);
    SegmentIncreasing(ps, y, i);
    OnesOfFromOnes(s, N, |s|);
    assert s[..|s|] == s;
  }

  lemma {:induction false} FlatOfUnpacked(ps: Params, y: seq<int>, h: seq<seq<int>>, i: nat)
    requires |y| == ps.omega + ps.k && AreDigits(y, 256) && Unpacked(ps, y) == Some(h) && i <= ps.k
    ensures 0 <= Start(ps, y, i) <= ps.omega && HasShape(ps, h) && Flat(h, i) == y[..Start(ps, y, i)]
  {
    hide Ones, FromOnes, Unpacked, WellFormed, GoodSegment, Segment;
    UnpackedShape(ps, y, h);
    if i > 0 {
      FlatOfUnpacked(ps, y, h, i - 1);
      OnesOfUnpacked(ps, y, h, i - 1);
      var a, b := Start(ps, y, i - 1), Start(ps, y, i);
      assert y[..b] == y[..a] + y[a..b];
    }
  }

  lemma SegmentIncreasing(ps: Params, y: seq<int>, i: nat)
    requires |y| == ps.omega + ps.k && i < ps.k && GoodSegment(ps, y, i)
    ensures Increasing(Segment(ps, y, i))
  {
    var s := Segment(ps, y, i);
    forall b: nat | b < |s|
      ensures forall a :: 0 <= a < b ==> s[a] < s[b]
    {
      IncreasingUpTo(ps, y, i, b);
    }
  }

  lemma {:induction false} IncreasingUpTo(ps: Params, y: seq<int>, i: nat, b: nat)
    requires |y| == ps.omega + ps.k && i < ps.k && GoodSegment(ps, y, i) && b < |Segment(ps, y, i)|
    ensures forall a :: 0 <= a < b ==> Segment(ps, y, i)[a] < Segment(ps, y, i)[b]
  {
    if b > 0 {
      IncreasingUpTo(ps, y, i, b - 1);
      var t := Start(ps, y, i) + b;
      assert y[t - 1] < y[t];
    }
  }

  /** A byte string that unpacks is the packing of what it unpacks to, so packings are unique. */
  lemma PackUnpacked(ps: Params, y: seq<int>, h: seq<seq<int>>)
    requires |y| == ps.omega + ps.k && AreDigits(y, 256) && Unpacked(ps, y) == Some(h)
    ensures IsHint(ps, h) && Packed(ps, h) == y
  {
    hide Packed, Unpacked, Ones, FromOnes, Flat, End, Start, WellFormed, GoodSegment, Segment;
    FlatOfUnpacked(ps, y, h, ps.k);
    UnpackedShape(ps, y, h);
    TailIsZero(ps, y);
    forall t: nat | t < ps.k
      ensures y[ps.omega + t] == End(h, t)
    {
      FlatOfUnpacked(ps, y, h, t + 1);
      MarkIsEnd(ps, y, h, t);
    }
    PackedParts(ps, h, y);
  }

  lemma TailIsZero(ps: Params, y: seq<int>)
    requires |y| == ps.omega + ps.k && WellFormed(ps, y)
    ensures forall t :: 0 <= t && Start(ps, y, ps.k) <= t < ps.omega ==> y[t] == 0
  {
  }

  lemma MarkIsEnd(ps: Params, y: seq<int>, h: seq<seq<int>>, t: nat)
    requires |y| == ps.omega + ps.k && t < ps.k && HasShape(ps, h)
    requires 0 <= Start(ps, y, t + 1) <= |y| && Flat(h, t + 1) == y[..Start(ps, y, t + 1)]
    ensures y[ps.omega + t] == End(h, t)
  {
    hide Flat;
  }

  // ---------------------------------------------------------------- the unpacking loops

  /** The positions of polynomial i are read into a zero polynomial, stopping when they fail to increase. */
  method ReadPositions(ps: Params, y: seq<int>, i: nat) returns (p: seq<int>, ok: bool)
    requires |y| == ps.omega + ps.k && AreDigits(y, 256) && i < ps.k
    requires 0 <= Start(ps, y, i) <= Start(ps, y, i + 1) <= ps.omega
    ensures ok == GoodSegment(ps, y, i)
    ensures ok ==> p == FromOnes(Segment(ps, y, i))
  {
    var first, last := Start(ps, y, i), y[ps.omega + i];
    var idx := first;
    p := seq(N, _ => 0);
    while idx < last
      invariant first <= idx <= last
      invariant p == FromOnes(y[first..idx])
      invariant forall t :: first < t < idx ==> y[t - 1] < y[t]
    {
      if idx > first && y[idx - 1] >= y[idx] {
        return p, false;
      }
      ghost var s := y[first..idx];
      p := p[y[idx] := 1];
      idx := idx + 1;
      assert y[first..idx] == s + [y[idx - 1]];
    }
    ok := true;
  }

  /**
   The unpacking loop: none when an end mark decreases or passes omega, a segment is not increasing, or a spare byte
   is set.
   */
  method HintUnpack(ps: Params, y: seq<int>) returns (r: Option<seq<seq<int>>>)
    requires |y| == ps.omega + ps.k && AreDigits(y, 256)
    ensures r == Unpacked(ps, y)
  {
    var h: seq<seq<int>> := [];
    var idx := 0;
    for i := 0 to ps.k
      invariant 0 <= idx == Start(ps, y, i) <= ps.omega && |h| == i
      invariant forall t :: 0 <= t < i ==> GoodSegment(ps, y, t) && h[t] == FromOnes(Segment(ps, y, t))
    {
      if y[ps.omega + i] < idx || y[ps.omega + i] > ps.omega {
        assert !GoodSegment(ps, y, i);
        return None;
      }
      var p, ok := ReadPositions(ps, y, i);
      if !ok {
        return None;
      }
      h := h + [p];
      idx := y[ps.omega + i];
    }
    for i := idx to ps.omega
      invariant forall t :: idx <= t < i ==> y[t] == 0
    {
      if y[i] != 0 {
        return None;
      }
    }
    assert WellFormed(ps, y);
    r := Some(h);
    assert h == Unpacked(ps, y).value;
  }
}
