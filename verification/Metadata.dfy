/**
 The metadata of a locker (MDH): the fields of one 128-bit word.  The record and the word are the same information, so
 reading and writing a field of the word is reading and updating the record.
 */
module Metadata {
  import opened Modular
  import opened BitStrings
  import opened BitFields

  /** The Locality field: three selectors and three independent entries. */
  datatype Locality = Locality(low: nat, mid: nat, high: nat, flags: nat)

  datatype Mdh = Mdh(machine: nat, policy: nat, ext: nat, scProt: nat, transparent: nat, state: nat, stateExt: nat,
                     keyType: nat, auxLen: nat, res46: nat, dropped: nat, use: nat, version: nat, usage: nat,
                         loc: Locality,
                     res78: nat, auxInfo: nat, expDate: nat, res116: nat)

  const ZERO: Mdh := Mdh(0, 0, 0, 0, 0, 0, 0, 0, 0, 0, 0, 0, 0, 0, Locality(0, 0, 0, 0), 0, 0, 0, 0)

  /** The error codes of StateExtension. */
  const SE_INVALID: nat := 2
  const SE_MGMT_AUTH: nat := 4
  const SE_EXPIRED: nat := 6

  // ---------------------------------------------------------------- the four 32-bit parts of the word

  const WIDTHS0: seq<nat> := [12, 2, 2, 3, 1, 6, 4, 2]

  const WIDTHS1: seq<nat> := [14, 1, 1, 14, 2]

  const WIDTHS2: seq<nat> := [5, 2, 2, 2, 3, 2, 16]

  const WIDTHS3: seq<nat> := [20, 12]

  function Values0(m: Mdh): seq<nat> {
    [m.machine, m.policy, m.ext, m.scProt, m.transparent, m.state, m.stateExt, m.keyType]
  }

  function Values1(m: Mdh): seq<nat> {
    [m.auxLen, m.res46, m.dropped, m.use, m.version]
  }

  function Values2(m: Mdh): seq<nat> {
    [m.usage, m.loc.low, m.loc.mid, m.loc.high, m.loc.flags, m.res78, m.auxInfo]
  }

  function Values3(m: Mdh): seq<nat> {
    [m.expDate, m.res116]
  }

  /** Every value fits its width. */
  predicate Fit(vals: seq<nat>, widths: seq<nat>) {
    |vals| == |widths| && forall i :: 0 <= i < |vals| ==> vals[i] < Pow2(widths[i])
  }

  predicate Fits(m: Mdh) {
    Fit(Values0(m), WIDTHS0) && Fit(Values1(m), WIDTHS1) && Fit(Values2(m), WIDTHS2) && Fit(Values3(m), WIDTHS3)
  }

  /** The values side by side, the first one lowest. */
  function Packed(vals: seq<nat>, widths: seq<nat>): (w: Bits)
    requires |vals| == |widths|
    decreases |vals|
  {
    if vals == [] then [] else FromNat(vals[0], widths[0]) + Packed(vals[1..], widths[1..])
  }

  function Unpacked(w: Bits, widths: seq<nat>): (vals: seq<nat>)
    ensures |vals| == |widths|
    decreases |widths|
  {
    if widths == [] then []
    else [ToNat(Slice(w, 0, widths[0]))] + Unpacked(Slice(w, widths[0], Less(|w|, widths[0])), widths[1..])
  }

  lemma {:induction false} UnpackedPacked(vals: seq<nat>, widths: seq<nat>)
    requires Fit(vals, widths)
    ensures |Packed(vals, widths)| == Total(widths) && Unpacked(Packed(vals, widths), widths) == vals
    decreases |vals|
  {
    if vals != [] {
      var w, rest := Packed(vals, widths), Packed(vals[1..], widths[1..]);
      assert vals[0] < Pow2(widths[0]);
      assert Fit(vals[1..], widths[1..]) by {
        assert forall i :: 0 <= i < |vals| - 1 ==> vals[1..][i] == vals[i + 1] && widths[1..][i] == widths[i + 1];
      }
      UnpackedPacked(vals[1..], widths[1..]);
      assert Slice(w, 0, widths[0]) == FromNat(vals[0], widths[0]);
      assert Slice(w, widths[0], Less(|w|, widths[0])) == rest;
      NatRoundTrip(vals[0], widths[0]);
      SmallMod(vals[0], Pow2(widths[0]));
    }
  }

  lemma {:induction false} PackedUnpacked(w: Bits, widths: seq<nat>)
    requires |w| == Total(widths)
    ensures Fit(Unpacked(w, widths), widths) && Packed(Unpacked(w, widths), widths) == w
    decreases |widths|
  {
    if widths != [] {
      var n := widths[0];
      var head, tail := Slice(w, 0, n), Slice(w, n, Less(|w|, n));
      PackedUnpacked(tail, widths[1..]);
      BitsRoundTrip(head);
      assert w == head + tail;
      var v := Unpacked(w, widths);
      assert v[1..] == Unpacked(tail, widths[1..]);
      forall i | 0 <= i < |v|
        ensures v[i] < Pow2(widths[i])
      {
        if i > 0 {
          assert v[i] == v[1..][i - 1] && widths[i] == widths[1..][i - 1];
        }
      }
    }
  }

  lemma {:induction false} TotalSum(widths: seq<nat>, k: nat)
    requires k <= |widths|
    ensures Total(widths) == Total(widths[..k]) + Total(widths[k..])
    decreases k
  {
    if k == 0 {
      assert widths[0..] == widths;
    } else {
      TotalSum(widths[1..], k - 1);
      assert widths[1..][..k - 1] == widths[..k][1..] && widths[1..][k - 1..] == widths[k..];
    }
  }

  lemma FourWide(w: seq<nat>)
    requires |w| == 4
    ensures Total(w) == w[0] + w[1] + w[2] + w[3]
  {
    assert w[1..][1..] == w[2..] && w[2..][1..] == w[3..] && w[3..][1..] == [];
    assert Total(w[2..]) == w[2] + Total(w[3..]);
  }

  lemma UpToFour(w: seq<nat>)
    ensures w == [] ==> Total(w) == 0
    ensures |w| == 1 ==> Total(w) == w[0]
    ensures |w| == 2 ==> Total(w) == w[0] + w[1]
    ensures |w| == 3 ==> Total(w) == w[0] + w[1] + w[2]
    ensures |w| == 4 ==> Total(w) == w[0] + w[1] + w[2] + w[3]
  {
    if |w| == 4 {
      FourWide(w);
    } else if |w| == 3 {
      assert w[1..][1..] == w[2..] && w[2..][1..] == [];
    } else if |w| == 2 {
      assert w[1..][1..] == [];
    } else if |w| == 1 {
      assert w[1..] == [];
    }
  }

  lemma Width0()
    ensures Total(WIDTHS0) == 32
  {
    hide Total;
    TotalSum(WIDTHS0, 4);
    UpToFour(WIDTHS0[..4]);
    UpToFour(WIDTHS0[4..]);
  }

  lemma Width1()
    ensures Total(WIDTHS1) == 32
  {
    hide Total;
    TotalSum(WIDTHS1, 4);
    UpToFour(WIDTHS1[..4]);
    UpToFour(WIDTHS1[4..]);
  }

  lemma Width2()
    ensures Total(WIDTHS2) == 32
  {
    hide Total;
    TotalSum(WIDTHS2, 4);
    UpToFour(WIDTHS2[..4]);
    UpToFour(WIDTHS2[4..]);
  }

  lemma Width3()
    ensures Total(WIDTHS3) == 32
  {
    hide Total;
    TotalSum(WIDTHS3, 2);
    UpToFour(WIDTHS3[..2]);
    UpToFour(WIDTHS3[2..]);
  }

  // ---------------------------------------------------------------- the word

  function ToWord(m: Mdh): (w: Bits) {
    Packed(Values0(m), WIDTHS0) + Packed(Values1(m), WIDTHS1) + Packed(Values2(m), WIDTHS2) + Packed(Values3(m),
        WIDTHS3)
  }

  function FromWord(w: Bits): (m: Mdh) {
    hide Unpacked;
    var a, b := Unpacked(Slice(w, 0, 32), WIDTHS0), Unpacked(Slice(w, 32, 32), WIDTHS1);
    var c, d := Unpacked(Slice(w, 64, 32), WIDTHS2), Unpacked(Slice(w, 96, 32), WIDTHS3);
    Mdh(a[0], a[1], a[2], a[3], a[4], a[5], a[6], a[7], b[0], b[1], b[2], b[3], b[4],
        c[0], Locality(c[1], c[2], c[3], c[4]), c[5], c[6], d[0], d[1])
  }

  /** Unpacking the word gives the fields back. */
  lemma UnpackPack(m: Mdh)
    requires Fits(m)
    ensures |ToWord(m)| == 128 && FromWord(ToWord(m)) == m
  {
    hide Packed, Unpacked, Fit, Total;
    Width0();
    Width1();
    Width2();
    Width3();
    UnpackedPacked(Values0(m), WIDTHS0);
    UnpackedPacked(Values1(m), WIDTHS1);
    UnpackedPacked(Values2(m), WIDTHS2);
    UnpackedPacked(Values3(m), WIDTHS3);
    Quarters(Packed(Values0(m), WIDTHS0), Packed(Values1(m), WIDTHS1), Packed(Values2(m), WIDTHS2), Packed(Values3(m),
        WIDTHS3));
  }

  lemma Quarters(a: Bits, b: Bits, c: Bits, d: Bits)
    requires |a| == |b| == |c| == |d| == 32
    ensures var w := a + b + c + d;
            Slice(w, 0, 32) == a && Slice(w, 32, 32) == b && Slice(w, 64, 32) == c && Slice(w, 96, 32) == d
  {
  }

  /** Every 128-bit word is the packing of its fields. */
  lemma PackUnpack(w: Bits)
    requires |w| == 128
    ensures Fits(FromWord(w)) && ToWord(FromWord(w)) == w
  {
    hide Packed, Unpacked, Fit, Total;
    Width0();
    Width1();
    Width2();
    Width3();
    var m := FromWord(w);
    PackedUnpacked(Slice(w, 0, 32), WIDTHS0);
    PackedUnpacked(Slice(w, 32, 32), WIDTHS1);
    PackedUnpacked(Slice(w, 64, 32), WIDTHS2);
    PackedUnpacked(Slice(w, 96, 32), WIDTHS3);
    assert Values0(m) == Unpacked(Slice(w, 0, 32), WIDTHS0);
    assert Values1(m) == Unpacked(Slice(w, 32, 32), WIDTHS1);
    assert Values2(m) == Unpacked(Slice(w, 64, 32), WIDTHS2);
    assert Values3(m) == Unpacked(Slice(w, 96, 32), WIDTHS3);
    assert w == Slice(w, 0, 32) + Slice(w, 32, 32) + Slice(w, 64, 32) + Slice(w, 96, 32);
  }

  /** The number in n bits of the word from position lo on. */
  function Field(w: Bits, lo: nat, n: nat): nat {
    ToNat(Slice(w, lo, n))
  }

  lemma SliceOfSlice(w: Bits, a: nat, n: nat, lo: nat, k: nat)
    requires lo + k <= n
    ensures Slice(Slice(w, a, n), lo, k) == Slice(w, a + lo, k)
  {
  }

  /** Value i of an unpacked part is the field behind the widths before it. */
  lemma {:induction false} UnpackedAt(w: Bits, widths: seq<nat>, i: nat)
    requires i < |widths|
    ensures Unpacked(w, widths)[i] == Field(w, Total(widths[..i]), widths[i])
    decreases i
  {
    if i > 0 {
      var n := widths[0];
      var tail := Slice(w, n, Less(|w|, n));
      UnpackedAt(tail, widths[1..], i - 1);
      assert widths[1..][..i - 1] == widths[..i][1..];
      var t := Total(widths[..i][1..]);
      assert Slice(tail, t, widths[i]) == Slice(w, n + t, widths[i]);
    }
  }

  lemma PartAt(w: Bits, base: nat, widths: seq<nat>, i: nat, at: nat)
    requires i < |widths| && Total(widths[..i]) == at && at + widths[i] <= 32
    ensures Unpacked(Slice(w, base, 32), widths)[i] == Field(w, base + at, widths[i])
  {
    UnpackedAt(Slice(w, base, 32), widths, i);
    SliceOfSlice(w, base, 32, at, widths[i]);
  }

  lemma FirstTotals(w: seq<nat>)
    ensures Total(w[..0]) == 0
    ensures |w| >= 1 ==> Total(w[..1]) == w[0]
    ensures |w| >= 2 ==> Total(w[..2]) == w[0] + w[1]
    ensures |w| >= 3 ==> Total(w[..3]) == w[0] + w[1] + w[2]
    ensures |w| >= 4 ==> Total(w[..4]) == w[0] + w[1] + w[2] + w[3]
  {
    hide Total;
    UpToFour(w[..0]);
    if |w| >= 1 {
      UpToFour(w[..1]);
    }
    if |w| >= 2 {
      UpToFour(w[..2]);
    }
    if |w| >= 3 {
      UpToFour(w[..3]);
    }
    if |w| >= 4 {
      UpToFour(w[..4]);
    }
  }

  lemma LaterTotal(w: seq<nat>, i: nat)
    requires 4 <= i <= |w| && i <= 7
    ensures Total(w[..i]) == w[0] + w[1] + w[2] + w[3] + (if i > 4 then w[4] else 0) + (if i > 5 then w[5] else 0) +
                             (if i > 6 then w[6] else 0)
  {
    hide Total;
    TotalSum(w[..i], 4);
    assert w[..i][..4] == w[..4];
    UpToFour(w[..4]);
    UpToFour(w[..i][4..]);
  }

  /** The fields of the first 32 bits stand where the table of the metadata puts them. */
  lemma Places0(w: Bits)
    ensures var m := FromWord(w);
            m.machine == Field(w, 0, 12) && m.policy == Field(w, 12, 2) && m.ext == Field(w, 14, 2) &&
            m.scProt == Field(w, 16, 3) && m.transparent == Field(w, 19, 1) && m.state == Field(w, 20, 6) &&
            m.stateExt == Field(w, 26, 4) && m.keyType == Field(w, 30, 2)
  {
    hide Unpacked, Total, Field;
    FirstTotals(WIDTHS0);
    PartAt(w, 0, WIDTHS0, 0, 0);
    PartAt(w, 0, WIDTHS0, 1, 12);
    PartAt(w, 0, WIDTHS0, 2, 14);
    PartAt(w, 0, WIDTHS0, 3, 16);
    LaterTotal(WIDTHS0, 4);
    LaterTotal(WIDTHS0, 5);
    LaterTotal(WIDTHS0, 6);
    LaterTotal(WIDTHS0, 7);
    PartAt(w, 0, WIDTHS0, 4, 19);
    PartAt(w, 0, WIDTHS0, 5, 20);
    PartAt(w, 0, WIDTHS0, 6, 26);
    PartAt(w, 0, WIDTHS0, 7, 30);
  }

  lemma Places1(w: Bits)
    ensures var m := FromWord(w);
            m.auxLen == Field(w, 32, 14) && m.res46 == Field(w, 46, 1) && m.dropped == Field(w, 47, 1) &&
            m.use == Field(w, 48, 14) && m.version == Field(w, 62, 2)
  {
    hide Unpacked, Total, Field;
    FirstTotals(WIDTHS1);
    LaterTotal(WIDTHS1, 4);
    PartAt(w, 32, WIDTHS1, 0, 0);
    PartAt(w, 32, WIDTHS1, 1, 14);
    PartAt(w, 32, WIDTHS1, 2, 15);
    PartAt(w, 32, WIDTHS1, 3, 16);
    PartAt(w, 32, WIDTHS1, 4, 30);
  }

  lemma Places2(w: Bits)
    ensures var m := FromWord(w);
            m.usage == Field(w, 64, 5) && m.loc.low == Field(w, 69, 2) && m.loc.mid == Field(w, 71, 2) &&
            m.loc.high == Field(w, 73, 2) && m.loc.flags == Field(w, 75, 3) && m.res78 == Field(w, 78, 2) &&
            m.auxInfo == Field(w, 80, 16)
  {
    hide Unpacked, Total, Field;
    FirstTotals(WIDTHS2);
    LaterTotal(WIDTHS2, 4);
    LaterTotal(WIDTHS2, 5);
    LaterTotal(WIDTHS2, 6);
    PartAt(w, 64, WIDTHS2, 0, 0);
    PartAt(w, 64, WIDTHS2, 1, 5);
    PartAt(w, 64, WIDTHS2, 2, 7);
    PartAt(w, 64, WIDTHS2, 3, 9);
    PartAt(w, 64, WIDTHS2, 4, 11);
    PartAt(w, 64, WIDTHS2, 5, 14);
    PartAt(w, 64, WIDTHS2, 6, 16);
  }

  lemma Places3(w: Bits)
    ensures var m := FromWord(w); m.expDate == Field(w, 96, 20) && m.res116 == Field(w, 116, 12)
  {
    hide Unpacked, Total, Field;
    FirstTotals(WIDTHS3);
    PartAt(w, 96, WIDTHS3, 0, 0);
    PartAt(w, 96, WIDTHS3, 1, 20);
  }

  /** Clearing bit 47 of the word clears ADSDropped, and nothing else. */
  lemma DroppedBit(m: Mdh)
    requires Fits(m)
    ensures Fits(m.(dropped := 0)) && |ToWord(m)| == |ToWord(m.(dropped := 0))| == 128 &&
            ToWord(m)[47 := false] == ToWord(m.(dropped := 0))
  {
    hide Field, ToWord, FromWord, Fits;
    ClearedFits(m);
    UnpackPack(m);
    UnpackPack(m.(dropped := 0));
    var w := ToWord(m)[47 := false];
    PackUnpack(w);
    OtherFields(ToWord(m), w);
    assert FromWord(w) == m.(dropped := 0);
  }

  lemma ClearedFits(m: Mdh)
    requires Fits(m)
    ensures Fits(m.(dropped := 0))
  {
    assert Values1(m.(dropped := 0)) == Values1(m)[2 := 0];
    assert Pow2(1) == 2;
  }

  lemma OtherFields(w: Bits, w': Bits)
    requires |w| == 128 && w' == w[47 := false]
    ensures FromWord(w') == FromWord(w).(dropped := 0)
  {
    hide FromWord, ToNat;
    Places0(w);
    Places0(w');
    Places1(w);
    Places1(w');
    Places2(w);
    Places2(w');
    Places3(w);
    Places3(w');
    forall lo: nat, n: nat | lo + n <= 47 || 48 <= lo
      ensures Slice(w', lo, n) == Slice(w, lo, n)
    {
    }
    assert Slice(w', 47, 1) == [false];
    assert Field(w', 47, 1) == 0 by { OneBit(); }
  }

  lemma OneBit()
    ensures ToNat([false]) == 0
  {
  }
}
