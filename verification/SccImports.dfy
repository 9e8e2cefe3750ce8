/**
 What the associated data bind and what an import admits: the metadata and the Locality secrets that they name are
 determined by the associated data, and whatever an import accepts can be exported again.
 */
module SccImports {
  import opened Wrappers
  import opened Modular
  import opened BitStrings
  import opened Gf128
  import opened AeadBase
  import opened Metadata
  import opened Scc
  import opened SccCorrect

  // ---------------------------------------------------------------- associated data

  /** The first entry that is set, from j on in its chain of three; entry j itself if there is none. */
  lemma EffectiveIsFirst(lst: seq<Block>, j: nat)
    requires |lst| == 11 && j < 11
    ensures var end := if j < 3 then 3 else if j < 6 then 6 else j + 1;
            (Effective(lst, j) == Zeros(128) <==> forall b :: j <= b < end ==> lst[b] == Zeros(128)) &&
            (forall b :: j <= b < end && lst[b] != Zeros(128) && (forall a :: j <= a < b ==> lst[a] == Zeros(128)) ==>
               Effective(lst, j) == lst[b])
  {
  }

  /** The two tables agree where the Locality field names an entry from j on. */
  ghost predicate SameEntries(lst: seq<Block>, lst': seq<Block>, loc: Locality, j: nat)
    requires |lst| == |lst'| == 11
  {
    forall i :: j <= i < 11 && Includes(loc, i) ==> Effective(lst, i) == Effective(lst', i)
  }

  lemma {:induction false} NamedDetermines(lst: seq<Block>, lst': seq<Block>, loc: Locality, j: nat)
    requires |lst| == |lst'| == 11 && j <= 11
    ensures |Named(lst, loc, j)| == |Named(lst', loc, j)|
    ensures Named(lst, loc, j) == Named(lst', loc, j) <==> SameEntries(lst, lst', loc, j)
    decreases 11 - j
  {
    hide Effective, Includes;
    if j < 11 {
      NamedDetermines(lst, lst', loc, j + 1);
      var n, n' := Named(lst, loc, j + 1), Named(lst', loc, j + 1);
      if Includes(loc, j) {
        assert Named(lst, loc, j)[0] == Effective(lst, j) && Named(lst, loc, j)[1..] == n;
        assert Named(lst', loc, j)[0] == Effective(lst', j) && Named(lst', loc, j)[1..] == n';
      } else {
        assert Named(lst, loc, j) == n && Named(lst', loc, j) == n';
      }
    }
  }

  /**
   The associated data of two lockers agree exactly if their metadata do and every Locality entry that the metadata name
   stands for the same secret.
   */
  lemma AdDetermines(m: Mdh, m': Mdh, lst: seq<Block>, lst': seq<Block>)
    requires Fits(m) && Fits(m') && |lst| == |lst'| == 11
    ensures AdOf(m, lst) == AdOf(m', lst') <==> m == m' && SameEntries(lst, lst', m.loc, 0)
  {
    hide Named, Effective, Includes, Fits, ToWord, FromWord;
    UnpackPack(m);
    UnpackPack(m');
    var a, a' := AdOf(m, lst), AdOf(m', lst');
    assert a[0] == ToWord(m) && a[1..] == Named(lst, m.loc, 0);
    assert a'[0] == ToWord(m') && a'[1..] == Named(lst', m'.loc, 0);
    if m == m' {
      NamedDetermines(lst, lst', m.loc, 0);
    }
  }

  // ---------------------------------------------------------------- imports

  /** What the format demands of the metadata, apart from their State. */
  predicate WellFormed(m: Mdh) {
    m.version == 0 && m.keyType < 2 && m.scProt <= 3 && m.loc.high < 3 && !(m.transparent == 1 && m.keyType == 1) &&
    m.res46 == m.res78 == m.res116 == 0 && m.stateExt == 0 && m.expDate == 0 && m.auxLen != 1
  }

  lemma WellFormedIff(m: Mdh)
    requires Fits(m)
    ensures !IsInvalid(m.(state := 1)) <==> WellFormed(m)
  {
    hide Fits, Pow2;
    SmallFields(m);
  }

  lemma SmallFields(m: Mdh)
    requires Fits(m)
    ensures m.keyType < 4 && m.loc.high < 4 && m.state < 64
  {
    assert Values0(m)[7] < Pow2(WIDTHS0[7]) && Values2(m)[3] < Pow2(WIDTHS2[3]) && Values0(m)[5] < Pow2(WIDTHS0[5]);
    assert Pow2(2) == 4 && Pow2(6) == 64;
  }

  /** The metadata are those of a locker in an Error State, which has no contents. */
  predicate IsError(m: Mdh, zk: bool) {
    m.state == 0 && 1 <= m.stateExt <= (if zk then 6 else 5)
  }

  /** The image reaches to the end of the contents that its metadata announce. */
  predicate IsWhole(img: Bits, m: Mdh) {
    |img| >= (if m.auxLen >= 2 then 512 else 256) + 8 * RoundUp(Content1Size(m)) +
             (if m.auxLen >= 2 then 128 * (m.auxLen - 2) else 0)
  }

  lemma {:induction false} KeystreamedSize(aes: Aes, ek: Bits, sep: bool, siv: Block, x: seq<Block>, i: nat)
    ensures |Keystreamed(aes, ek, sep, siv, x, i)| == |x|
    decreases |x|
  {
    if x != [] {
      KeystreamedSize(aes, ek, sep, siv, x[1..], i + 1);
    }
  }

  lemma OpenSize(s: Setting, AD: seq<Block>, sep: bool, siv: Block, c: seq<Block>, n: nat)
    requires 0 < |AD| <= 7 && Open(s, AD, sep, siv, c, n).Some?
    ensures |Flatten(Open(s, AD, sep, siv, c, n).value)| == 128 * |c|
  {
    hide Siv, Keystreamed, EncKey;
    KeystreamedSize(s.aes, EncKey(s.aes, s.key), sep, siv, Drop(c, n), 0);
  }

  lemma ChunksSize(v: Bits)
    ensures |Chunks(v)| == (|v| + 127) / 128
  {
    FlattenOfChunks(v);
  }

  /** The contents that an import reads have the sizes that the metadata announce. */
  lemma ContentsExportable(s: Setting, img: Bits, work: Mdh)
    requires Fits(work) && |s.lst| == 11 && WellFormed(work) && 1 <= work.state <= 60 && IsSupported(work)
    requires IsWhole(img, work) && work.dropped <= 1 && (work.dropped == 1 ==> work.auxLen >= 2)
    requires ImportContents(s, img, work).Success?
    ensures Fits(WithoutAds(work)) && Exportable(ImportContents(s, img, work).L)
  {
    hide AdOf, Fits, Open, Chunks, Flatten, Content1Size, IsInvalid, WellFormed;
    var start := if work.auxLen >= 2 then 512 else 256;
    var end1 := start + 8 * RoundUp(Content1Size(work));
    var c1 := Chunks(Part(img, start, end1));
    ChunksSize(Part(img, start, end1));
    PaddedSize(work);
    OpenSize(s, AdOf(work, s.lst), false, Slice(img, 128, 128), c1, Clear1(s, work, |c1|));
    StateFree(work);
    WithoutAdsFits(work);
    StateFree(WithoutAds(work));
    WholeBytes(work);
    if work.auxLen >= 2 && work.dropped == 0 {
      var c2 := Chunks(Part(img, end1, end1 + 128 * (work.auxLen - 2)));
      ChunksSize(Part(img, end1, end1 + 128 * (work.auxLen - 2)));
      var head := Slice(img, 256, 256);
      if ImportSecond(s, work, Slice(img, 128, 128), head, c2).Some? {
        OpenSize(s, [Slice(head, 0, 128), Slice(img, 128, 128)], true, Slice(head, 128, 128), c2, Clear2(s, work,
            |c2|));
      }
    }
  }

  lemma WholeBytes(m: Mdh)
    ensures 8 * RoundUp(Content1Size(m)) % 128 == 0 && 0 < Content1Size(m) <= RoundUp(Content1Size(m))
    ensures Content1Size(WithoutAds(m)) == Content1Size(m)
  {
  }

  /** A State of a configured locker is not what makes metadata invalid. */
  lemma StateFree(m: Mdh)
    requires WellFormed(m) && 1 <= m.state <= 60
    ensures !IsInvalid(m) && m.auxLen != 1 && WellFormed(WithoutAds(m))
  {
  }

  lemma ZeroFits(vals: seq<nat>, widths: seq<nat>, i: nat)
    requires Fit(vals, widths) && i < |vals|
    ensures Fit(vals[i := 0], widths)
  {
    hide Pow2;
  }

  lemma WithoutAdsFits(m: Mdh)
    requires Fits(m)
    ensures Fits(WithoutAds(m))
  {
    hide Fit;
    var w := WithoutAds(m);
    assert |Values1(m)| == |WIDTHS1| && |Values2(m)| == |WIDTHS2|;
    ZeroFits(Values1(m), WIDTHS1, 0);
    ZeroFits(Values1(m)[0 := 0], WIDTHS1, 2);
    ZeroFits(Values1(m)[0 := 0][2 := 0], WIDTHS1, 3);
    ZeroFits(Values2(m), WIDTHS2, 6);
    assert Values0(w) == Values0(m) && Values3(w) == Values3(m);
    assert Values1(w) == Values1(m)[0 := 0][2 := 0][3 := 0] && Values2(w) == Values2(m)[6 := 0];
  }

  /** The State that the imported locker gets. */
  function StateAsked(m: Mdh, mlState: Option<nat>): nat {
    if mlState.Some? then mlState.value else m.state
  }

  /**
   Whatever a whole image yields is a locker that can be exported again: in a configured State, well-formed, supported,
   with contents of the sizes announced; or it is an Error State without contents.
   */
  lemma ImportedIsExportable(s: Setting, img: Bits, maxAds: nat, mlState: Option<nat>, zk: bool)
    requires |s.lst| == 11 && (mlState.Some? ==> mlState.value < 64)
    requires var m := FromWord(Slice(img, 0, 128));
             1 <= StateAsked(m, mlState) <= 60 && IsWhole(img, m)
    ensures var r := Import(s, img, maxAds, mlState, zk);
            r.Success? ==>
              if IsError(FromWord(Slice(img, 0, 128)), zk)
              then r.L.c1 == [] && r.L.c2 == [] && r.L.mdh.state == 0
              else
                Exportable(r.L) && WellFormed(r.L.mdh) &&
                r.L.mdh.state == StateAsked(FromWord(Slice(img, 0, 128)), mlState)
  {
    hide ImportContents, ToWord, FromWord, Fits, Slice, WellFormed, IsInvalid, RoundUp, Content1Size;
    var w := Slice(img, 0, 128);
    PackUnpack(w);
    var m := FromWord(w);
    var work := WorkMdh(m, mlState, maxAds);
    WorkFits(m, mlState, maxAds);
    WellFormedIff(work);
    if m.state == 0 {
      ErrorLocker(m);
    }
    SameSizes(m, mlState, maxAds);
    if !IsError(m, zk) && ImportContents(s, img, work).Success? && WellFormed(work) && IsSupported(m) {
      ContentsExportable(s, img, work);
      ContentsWellFormed(s, img, work);
    }
  }

  lemma ErrorLocker(m: Mdh)
    requires m.state == 0
    ensures ImportError(m).Success? && ImportError(m).L.c1 == [] && ImportError(m).L.c2 == [] &&
            ImportError(m).L.mdh.state == 0
  {
    hide IsInvalid;
  }

  lemma SameSizes(m: Mdh, mlState: Option<nat>, maxAds: nat)
    ensures var work := WorkMdh(m, mlState, maxAds);
            Content1Size(work) == Content1Size(m) && work.auxLen == m.auxLen && work.dropped <= 1 &&
            (work.dropped == 1 ==> work.auxLen >= 2) && work.machine == m.machine &&
            work.state == StateAsked(m, mlState)
  {
  }

  lemma ContentsWellFormed(s: Setting, img: Bits, work: Mdh)
    requires Fits(work) && |s.lst| == 11 && WellFormed(work) && ImportContents(s, img, work).Success?
    ensures var L := ImportContents(s, img, work).L; WellFormed(L.mdh) && L.mdh.state == work.state
  {
    hide AdOf, Fits, Open, Chunks, Flatten, Content1Size, ImportSecond, Part, Slice, RoundUp, First;
  }

  /** An import refuses exactly the metadata that are not well-formed, and then those of a machine it does not know. */
  lemma ImportRefuses(s: Setting, img: Bits, maxAds: nat, mlState: Option<nat>, zk: bool)
    requires |s.lst| == 11 && (mlState.Some? ==> mlState.value < 64)
    requires 1 <= FromWord(Slice(img, 0, 128)).state <= 60
    ensures var r, m := Import(s, img, maxAds, mlState, zk), FromWord(Slice(img, 0, 128));
            (r.Invalid? <==> !WellFormed(m)) &&
            (r.Unsupported? <==> WellFormed(m) && m.machine != 0 && m.machine != 0x20)
  {
    hide ImportContents, ToWord, FromWord, Fits, Slice, WellFormed, IsInvalid;
    var w := Slice(img, 0, 128);
    PackUnpack(w);
    var m := FromWord(w);
    var work := WorkMdh(m, mlState, maxAds);
    WorkFits(m, mlState, maxAds);
    WellFormedIff(work);
    WellFormedIff(m);
    SameForm(m, work);
    ContentsVerdict(s, img, work);
  }

  lemma SameForm(m: Mdh, work: Mdh)
    requires work == m.(state := work.state, dropped := work.dropped) && 1 <= m.state <= 60
    ensures WellFormed(work) == WellFormed(m) && (IsInvalid(m) <==> IsInvalid(m.(state := 1)))
  {
  }

  lemma ContentsVerdict(s: Setting, img: Bits, work: Mdh)
    requires Fits(work) && |s.lst| == 11
    ensures !ImportContents(s, img, work).Invalid? && !ImportContents(s, img, work).Unsupported?
  {
    hide AdOf, Fits, Open, Chunks, Flatten, Content1Size, ImportSecond, Part, Slice, RoundUp, First;
  }

  // ---------------------------------------------------------------- what stays in the clear

  /** Of a sealed segment the first n blocks are the content itself, and the rest is the encryption under them. */
  lemma SealClears(s: Setting, AD: seq<Block>, sep: bool, P: seq<Block>, n: nat)
    requires AD != []
    ensures var (siv, c) := Seal(s, AD, sep, P, n);
            Take(c, n) == Take(P, n) && Encrypt(s.aes, s.key, AD + Take(P, n), sep, Drop(P, n)) == (siv, Drop(c, n))
  {
    hide Siv, Keystreamed, EncKey;
    KeystreamedSize(s.aes, EncKey(s.aes, s.key), sep, Siv(s.aes, s.key, AD + Take(P, n), sep, Drop(P, n)), Drop(P, n),
        0);
    var (siv, c) := Encrypt(s.aes, s.key, AD + Take(P, n), sep, Drop(P, n));
    assert Take(Take(P, n) + c, n) == Take(P, n) && Drop(Take(P, n) + c, n) == c;
  }

  lemma NothingLeft(s: Setting, AD: seq<Block>, sep: bool, P: seq<Block>)
    requires AD != []
    ensures Seal(s, AD, sep, P, |P|).1 == P
  {
    hide Siv, EncKey;
    SealClears(s, AD, sep, P, |P|);
    assert Take(P, |P|) == P && Drop(P, |P|) == [];
  }

  /** The image of a Transparent locker shows its contents, zero-padded to whole blocks. */
  lemma TransparentIsClear(s: Setting, L: Locker)
    requires Exportable(L) && |s.lst| == 11 && L.mdh.transparent != 0
    ensures var img, c1 := Export(s, L), Flatten(Chunks(L.c1));
            First(c1, |L.c1|) == L.c1 &&
            exists head :: img == head + c1 + L.c2 && |head| == if L.mdh.auxLen >= 2 then 512 else 256
  {
    hide Seal, AdOf, Flatten, Chunks, Fits, First, Word;
    var m, P1, P2 := L.mdh, Chunks(L.c1), Chunks(L.c2);
    FlattenOfChunks(L.c1);
    FlattenOfChunks(L.c2);
    NothingLeft(s, AdOf(m, s.lst), false, P1);
    var siv := Seal(s, AdOf(m, s.lst), false, P1, |P1|).0;
    if m.auxLen >= 2 {
      NothingLeft(s, [s.impq, siv], true, P2);
      var siv2 := Seal(s, [s.impq, siv], true, P2, |P2|).0;
      var head := Word(m) + siv + (s.impq + siv2);
      assert Export(s, L) == head + Flatten(P1) + L.c2 && |head| == 512;
    } else {
      var head := Word(m) + siv;
      assert Export(s, L) == head + Flatten(P1) + L.c2 && |head| == 256;
    }
  }
}
