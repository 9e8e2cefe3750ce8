/**
 What sealed containers promise: an exported locker is imported unchanged, the image has the size announced, a segment
 opens exactly if it was sealed, and nothing done to the second segment changes what the first one yields.
 */
module SccCorrect {
  import opened Wrappers
  import opened Modular
  import opened BitStrings
  import opened Gf128
  import opened AeadBase
  import opened Metadata
  import opened Scc

  // ---------------------------------------------------------------- one segment

  lemma {:induction false} KeystreamTwice(aes: Aes, ek: Bits, sep: bool, siv: Block, x: seq<Block>, i: nat)
    ensures Keystreamed(aes, ek, sep, siv, Keystreamed(aes, ek, sep, siv, x, i), i) == x
    decreases |x|
  {
    hide Counter;
    if x != [] {
      var k := aes(ek, Counter(sep, siv, i));
      var y := Keystreamed(aes, ek, sep, siv, x, i);
      KeystreamTwice(aes, ek, sep, siv, x[1..], i + 1);
      XorLaws(x[0], k, k);
      assert y[1..] == Keystreamed(aes, ek, sep, siv, x[1..], i + 1);
    }
  }

  /** A segment opens, to P, exactly if it is what sealing P gives. */
  lemma OpensIffSealed(aes: Aes, key: Bits, AD: seq<Block>, sep: bool, siv: Block, C: seq<Block>, nclear: nat,
      P: seq<Block>)
    requires 0 < |AD| <= 7 + nclear
    ensures Decrypt(aes, key, AD, sep, siv, C, nclear) == Some(P) <==> Encrypt(aes, key, AD, sep, P) == (siv, C)
  {
    hide Siv, Keystreamed, EncKey;
    KeystreamTwice(aes, EncKey(aes, key), sep, siv, C, 0);
    KeystreamTwice(aes, EncKey(aes, key), sep, siv, P, 0);
  }

  /** The same with the first blocks in the clear. */
  lemma OpenSeal(s: Setting, AD: seq<Block>, sep: bool, P: seq<Block>, n: nat)
    requires 0 < |AD| <= 7
    ensures var (siv, c) := Seal(s, AD, sep, P, n); |c| == |P| && Open(s, AD, sep, siv, c, n) == Some(P)
  {
    hide Siv, Keystreamed, EncKey, Decrypt;
    var head, tail := Take(P, n), Drop(P, n);
    var (siv, ct) := Encrypt(s.aes, s.key, AD + head, sep, tail);
    var c := head + ct;
    assert Take(c, n) == head && Drop(c, n) == ct;
    OpensIffSealed(s.aes, s.key, AD + head, sep, siv, ct, n, tail);
    assert head + tail == P;
  }

  // ---------------------------------------------------------------- contents as blocks

  lemma {:induction false} ChunksOfFlatten(b: seq<Block>)
    ensures Chunks(Flatten(b)) == b
    decreases |b|
  {
    if b != [] {
      ChunksOfFlatten(b[1..]);
      var v := Flatten(b);
      assert Slice(v, 0, 128) == b[0];
      assert v[128..] == Flatten(b[1..]);
    }
  }

  /** Cutting into blocks pads at the end, and only there. */
  lemma {:induction false} FlattenOfChunks(v: Bits)
    ensures |Chunks(v)| == (|v| + 127) / 128 && First(Flatten(Chunks(v)), |v|) == v
    ensures |v| % 128 == 0 ==> Flatten(Chunks(v)) == v
    decreases |v|
  {
    if v != [] {
      var rest := if |v| < 128 then [] else v[128..];
      FlattenOfChunks(rest);
      assert Chunks(v)[1..] == Chunks(rest);
      var f, g := Flatten(Chunks(v)), Flatten(Chunks(rest));
      assert f == Slice(v, 0, 128) + g;
      if |v| < 128 {
        assert First(f, |v|) == v;
      } else {
        assert v == v[..128] + rest && Slice(v, 0, 128) == v[..128];
        assert First(f, |v|) == v[..128] + First(g, |rest|);
      }
    }
  }

  // ---------------------------------------------------------------- the round trip

  /** A locker in a Valid State, supported, whose contents have the lengths that its metadata announces. */
  predicate Exportable(L: Locker) {
    var m := L.mdh;
    && Fits(m) && !IsInvalid(m) && IsSupported(m) && m.dropped == 0
    && |L.c1| == 8 * Content1Size(m) && |L.c2| == (if m.auxLen >= 2 then 128 * (m.auxLen - 2) else 0)
    && (m.auxLen == 0 ==> m.use == 0 && m.auxInfo == 0)
  }

  lemma WorkIsOwn(m: Mdh, mlState: Option<nat>, maxAds: nat)
    requires !IsInvalid(m) && m.dropped == 0 && (m.auxLen >= 2 ==> m.auxLen <= maxAds)
    requires mlState.Some? ==> mlState.value == m.state
    ensures WorkMdh(m, mlState, maxAds) == m && !IsInvalid(m.(state := 1)) && m.state != 0 && (m.auxLen == 0 ||
            m.auxLen >= 2)
  {
  }

  /** What the parser reads from an image with both segments. */
  lemma PartsOfTwo(w: Block, siv: Block, impq: Block, siv2: Block, a: Bits, b: Bits)
    ensures var img := w + siv + (impq + siv2) + a + b;
            Slice(img, 0, 128) == w && Slice(img, 128, 128) == siv &&
            Slice(Slice(img, 256, 256), 0, 128) == impq && Slice(Slice(img, 256, 256), 128, 128) == siv2 &&
            Part(img, 512, 512 + |a|) == a && Part(img, 512 + |a|, 512 + |a| + |b|) == b
  {
    var img := w + siv + (impq + siv2) + a + b;
    assert Slice(img, 0, 128) == w;
    assert Slice(img, 128, 128) == siv;
    assert Slice(Slice(img, 256, 256), 0, 128) == impq;
    assert Slice(Slice(img, 256, 256), 128, 128) == siv2;
    assert Part(img, 512, 512 + |a|) == a;
    assert Part(img, 512 + |a|, 512 + |a| + |b|) == b;
  }

  lemma PartsOfOne(w: Block, siv: Block, a: Bits)
    ensures var img := w + siv + a;
            Slice(img, 0, 128) == w && Slice(img, 128, 128) == siv && Part(img, 256, 256 + |a|) == a
  {
    var img := w + siv + a;
    assert Slice(img, 0, 128) == w;
    assert Slice(img, 128, 128) == siv;
    assert Part(img, 256, 256 + |a|) == a;
  }

  lemma PaddedSize(m: Mdh)
    ensures 128 * ((8 * Content1Size(m) + 127) / 128) == 8 * RoundUp(Content1Size(m))
  {
    assert RoundUp(16) == 16 && RoundUp(32) == 32;
  }

  lemma FirstSegment(s: Setting, L: Locker)
    requires Exportable(L) && |s.lst| == 11
    ensures var m, P1 := L.mdh, Chunks(L.c1);
            var (siv, c1) := Seal(s, AdOf(m, s.lst), false, P1, Clear1(s, m, |P1|));
            |Flatten(c1)| == 8 * RoundUp(Content1Size(m)) && |Chunks(Flatten(c1))| == |P1| &&
            Open(s, AdOf(m, s.lst), false, siv, Chunks(Flatten(c1)), Clear1(s, m, |P1|)) == Some(P1) &&
            First(Flatten(P1), 8 * Content1Size(m)) == L.c1
  {
    hide Seal, Open, AdOf, Flatten, Chunks, Fits, First, RoundUp, IsInvalid, Content1Size;
    var m, P1 := L.mdh, Chunks(L.c1);
    FlattenOfChunks(L.c1);
    PaddedSize(m);
    OpenSeal(s, AdOf(m, s.lst), false, P1, Clear1(s, m, |P1|));
    ChunksOfFlatten(Seal(s, AdOf(m, s.lst), false, P1, Clear1(s, m, |P1|)).1);
  }

  lemma SecondSegment(s: Setting, L: Locker, siv: Block)
    requires Exportable(L) && L.mdh.auxLen >= 2
    ensures var m, P2 := L.mdh, Chunks(L.c2);
            var (siv2, c2) := Seal(s, [s.impq, siv], true, P2, Clear2(s, m, |P2|));
            |Flatten(c2)| == 128 * (m.auxLen - 2) && |Chunks(Flatten(c2))| == |P2| &&
            Open(s, [s.impq, siv], true, siv2, Chunks(Flatten(c2)), Clear2(s, m, |P2|)) == Some(P2) &&
                Flatten(P2) == L.c2
  {
    hide Seal, Open, Flatten, Chunks, Fits;
    var m, P2 := L.mdh, Chunks(L.c2);
    FlattenOfChunks(L.c2);
    OpenSeal(s, [s.impq, siv], true, P2, Clear2(s, m, |P2|));
    ChunksOfFlatten(Seal(s, [s.impq, siv], true, P2, Clear2(s, m, |P2|)).1);
  }

  /** The image has the size that kl.size announces, and its contents are read back under the metadata itself. */
  lemma ContentsComeBack(s: Setting, L: Locker)
    requires Exportable(L) && |s.lst| == 11
    ensures |Export(s, L)| == 8 * Size(L.mdh) && Slice(Export(s, L), 0, 128) == Word(L.mdh)
    ensures ImportContents(s, Export(s, L), L.mdh) == Success(L)
  {
    hide Seal, Open, AdOf, Flatten, Chunks, Fits, First, Part, Slice, Word;
    var m, P1 := L.mdh, Chunks(L.c1);
    FirstSegment(s, L);
    var (siv, c1) := Seal(s, AdOf(m, s.lst), false, P1, Clear1(s, m, |P1|));
    if m.auxLen >= 2 {
      var P2 := Chunks(L.c2);
      SecondSegment(s, L, siv);
      var (siv2, c2) := Seal(s, [s.impq, siv], true, P2, Clear2(s, m, |P2|));
      PartsOfTwo(Word(m), siv, s.impq, siv2, Flatten(c1), Flatten(c2));
    } else {
      PartsOfOne(Word(m), siv, Flatten(c1));
      assert L.c2 == [];
    }
  }

  /** Importing an exported locker gives the locker, for any clear parts and for Transparent lockers. */
  lemma ImportExport(s: Setting, L: Locker, maxAds: nat, mlState: Option<nat>, zk: bool)
    requires Exportable(L) && |s.lst| == 11 && (L.mdh.auxLen >= 2 ==> L.mdh.auxLen <= maxAds)
    requires mlState.Some? ==> mlState.value == L.mdh.state && mlState.value < 64
    ensures Import(s, Export(s, L), maxAds, mlState, zk) == Success(L)
  {
    hide Export, ImportContents, ToWord, FromWord, Fits, Slice;
    ContentsComeBack(s, L);
    UnpackPack(L.mdh);
    WorkIsOwn(L.mdh, mlState, maxAds);
  }

  /** The announced size is the size of the image. */
  lemma SizeOfImage(s: Setting, L: Locker)
    requires Exportable(L) && |s.lst| == 11
    ensures |Export(s, L)| == 8 * Size(L.mdh)
  {
    hide Export, ImportContents;
    ContentsComeBack(s, L);
  }

  // ---------------------------------------------------------------- what is accepted

  /** A segment that opens to P is the sealing of P. */
  lemma OpenedIsSealed(s: Setting, AD: seq<Block>, sep: bool, siv: Block, c: seq<Block>, n: nat)
    requires 0 < |AD| <= 7 && Open(s, AD, sep, siv, c, n).Some?
    ensures var P := Open(s, AD, sep, siv, c, n).value; |P| == |c| && Seal(s, AD, sep, P, n) == (siv, c)
  {
    hide Siv, Keystreamed, EncKey, Decrypt, Encrypt;
    var head, tail := Take(c, n), Drop(c, n);
    var T := Decrypt(s.aes, s.key, AD + head, sep, siv, tail, n).value;
    OpensIffSealed(s.aes, s.key, AD + head, sep, siv, tail, n, T);
    SameSize(s, AD + head, sep, siv, tail, n);
    assert Take(head + T, n) == head && Drop(head + T, n) == T && head + tail == c;
  }

  lemma SameSize(s: Setting, AD: seq<Block>, sep: bool, siv: Block, c: seq<Block>, n: nat)
    requires 0 < |AD| <= 7 + n && Decrypt(s.aes, s.key, AD, sep, siv, c, n).Some?
    ensures |Decrypt(s.aes, s.key, AD, sep, siv, c, n).value| == |c|
  {
    hide Siv, Keystreamed, EncKey;
  }

  /** The first segment of an image that opens is the sealing of the content read from it. */
  lemma FirstIsSealed(s: Setting, m: Mdh, part: Bits, siv: Block)
    requires Fits(m) && |s.lst| == 11 && |part| == 8 * Content1Size(m)
    requires var c1 := Chunks(part); Open(s, AdOf(m, s.lst), false, siv, c1, Clear1(s, m, |c1|)).Some?
    ensures var c1 := Chunks(part);
            var P1 := Open(s, AdOf(m, s.lst), false, siv, c1, Clear1(s, m, |c1|)).value;
            var content := First(Flatten(P1), 8 * Content1Size(m));
            |content| == 8 * Content1Size(m) && Chunks(content) == P1 && Flatten(c1) == part &&
            Seal(s, AdOf(m, s.lst), false, P1, Clear1(s, m, |P1|)) == (siv, c1)
  {
    hide Open, Seal, AdOf, Flatten, Chunks, Fits;
    var c1 := Chunks(part);
    FlattenOfChunks(part);
    OpenedIsSealed(s, AdOf(m, s.lst), false, siv, c1, Clear1(s, m, |c1|));
    var P1 := Open(s, AdOf(m, s.lst), false, siv, c1, Clear1(s, m, |c1|)).value;
    ChunksOfFlatten(P1);
    WholeChunks(m, |c1|);
    assert First(Flatten(P1), 8 * Content1Size(m)) == Flatten(P1);
  }

  lemma WholeChunks(m: Mdh, n: nat)
    requires n == (8 * Content1Size(m) + 127) / 128
    ensures 128 * n == 8 * Content1Size(m) && 8 * Content1Size(m) % 128 == 0 &&
            RoundUp(Content1Size(m)) == Content1Size(m)
  {
    assert RoundUp(16) == 16 && RoundUp(32) == 32;
  }

  lemma SecondIsSealed(s: Setting, m: Mdh, part: Bits, siv: Block, siv2: Block)
    requires |part| % 128 == 0
    requires var c2 := Chunks(part); Open(s, [s.impq, siv], true, siv2, c2, Clear2(s, m, |c2|)).Some?
    ensures var c2 := Chunks(part);
            var P2 := Open(s, [s.impq, siv], true, siv2, c2, Clear2(s, m, |c2|)).value;
            Chunks(Flatten(P2)) == P2 && |Flatten(P2)| == |part| && Flatten(c2) == part &&
            Seal(s, [s.impq, siv], true, P2, Clear2(s, m, |P2|)) == (siv2, c2)
  {
    hide Open, Seal, Flatten, Chunks;
    var c2 := Chunks(part);
    FlattenOfChunks(part);
    OpenedIsSealed(s, [s.impq, siv], true, siv2, c2, Clear2(s, m, |c2|));
    ChunksOfFlatten(Open(s, [s.impq, siv], true, siv2, c2, Clear2(s, m, |c2|)).value);
  }

  lemma ImageOfOne(img: Bits, n: nat)
    requires |img| == 256 + n
    ensures img == Slice(img, 0, 128) + Slice(img, 128, 128) + Part(img, 256, 256 + n) && |Part(img, 256, 256 + n)| == n
  {
  }

  lemma ImageOfTwo(img: Bits, n: nat, k: nat)
    requires |img| == 512 + n + k
    ensures img == Slice(img, 0, 128) + Slice(img, 128, 128)
                   + (Slice(Slice(img, 256, 256), 0, 128) + Slice(Slice(img, 256, 256), 128, 128))
                   + Part(img, 512, 512 + n) + Part(img, 512 + n, 512 + n + k)
    ensures |Part(img, 512, 512 + n)| == n && |Part(img, 512 + n, 512 + n + k)| == k
  {
    var head := Slice(img, 256, 256);
    assert head == Slice(head, 0, 128) + Slice(head, 128, 128);
  }

  /** Contents that are accepted whole under their own metadata are those of an exported image. */
  lemma ContentsAreExported(s: Setting, img: Bits, m: Mdh)
    requires Fits(m) && !IsInvalid(m) && IsSupported(m) && m.dropped == 0 && |s.lst| == 11 && |img| == 8 * Size(m)
    requires Slice(img, 0, 128) == Word(m)
    requires ImportContents(s, img, m).Success? && ImportContents(s, img, m).L.mdh == m
    ensures var L := ImportContents(s, img, m).L; Exportable(L) && Export(s, L) == img
  {
    hide Seal, Open, AdOf, Flatten, Chunks, Fits, First, Part, Slice, Word;
    var n := 8 * Content1Size(m);
    WholeChunks(m, (n + 127) / 128);
    var siv := Slice(img, 128, 128);
    if m.auxLen >= 2 {
      var k := 128 * (m.auxLen - 2);
      ImageOfTwo(img, n, k);
      var siv2 := Slice(Slice(img, 256, 256), 128, 128);
      FirstIsSealed(s, m, Part(img, 512, 512 + n), siv);
      SecondIsSealed(s, m, Part(img, 512 + n, 512 + n + k), siv, siv2);
    } else {
      ImageOfOne(img, n);
      FirstIsSealed(s, m, Part(img, 256, 256 + n), siv);
    }
  }

  /**
   Import accepts nothing else: an image of the announced size that is imported with its metadata unchanged is the
   export of the locker that import gives.
   */
  lemma AcceptedIsExported(s: Setting, img: Bits, maxAds: nat, mlState: Option<nat>, zk: bool)
    requires |s.lst| == 11 && (mlState.Some? ==> mlState.value < 64)
    requires var m := FromWord(Slice(img, 0, 128));
             !IsInvalid(m) && m.dropped == 0 && |img| == 8 * Size(m) && (mlState.Some? ==> mlState.value == m.state)
    ensures var r := Import(s, img, maxAds, mlState, zk);
            r.Success? && r.L.mdh == FromWord(Slice(img, 0, 128)) ==> Exportable(r.L) && Export(s, r.L) == img
  {
    hide Export, ImportContents, ToWord, FromWord, Fits, Slice;
    var w := Slice(img, 0, 128);
    var m := FromWord(w);
    PackUnpack(w);
    var r := Import(s, img, maxAds, mlState, zk);
    if r.Success? && r.L.mdh == m {
      WorkFits(m, mlState, maxAds);
      KeptWhole(s, img, m, WorkMdh(m, mlState, maxAds));
      ContentsAreExported(s, img, m);
    }
  }

  /** Metadata that are unchanged were not worked on. */
  lemma KeptWhole(s: Setting, img: Bits, m: Mdh, work: Mdh)
    requires Fits(work) && |s.lst| == 11 && m.dropped == 0 && work == m.(dropped := work.dropped) && work.dropped <= 1
    requires work.dropped == 1 ==> m.auxLen >= 2
    requires ImportContents(s, img, work).Success? && ImportContents(s, img, work).L.mdh == m
    ensures work == m
  {
    hide Open, AdOf, Flatten, Chunks, Fits, First, Part, Slice, ImportSecond;
  }

  // ---------------------------------------------------------------- a dropped section

  /** The marking of a dropped section does not enter the hash of the first segment. */
  lemma DecryptIgnoresDropped(s: Setting, m: Mdh, rest: seq<Block>, siv: Block, c: seq<Block>, n: nat)
    requires Fits(m) && m.dropped == 0 && Fits(m.(dropped := 1)) && |rest| < 7 + n
    ensures Decrypt(s.aes, s.key, [Word(m.(dropped := 1))] + rest, false, siv, c, n) ==
            Decrypt(s.aes, s.key, [Word(m)] + rest, false, siv, c, n)
  {
    hide PolyvalFrom, Keystreamed, EncKey, AuthKey, ToWord;
    DroppedBit(m.(dropped := 1));
    DroppedBit(m);
    assert m.(dropped := 1).(dropped := 0) == m && m.(dropped := 0) == m;
    assert Normalized([Word(m.(dropped := 1))] + rest, false) == Normalized([Word(m)] + rest, false);
  }

  lemma OpenIgnoresDropped(s: Setting, m: Mdh, siv: Block, c: seq<Block>, n: nat)
    requires Fits(m) && m.dropped == 0 && Fits(m.(dropped := 1)) && |s.lst| == 11
    ensures Open(s, AdOf(m.(dropped := 1), s.lst), false, siv, c, n) == Open(s, AdOf(m, s.lst), false, siv, c, n)
  {
    hide Decrypt, Named, Word, Fits;
    NamedIsShort(s.lst, m.loc);
    var rest := Named(s.lst, m.loc, 0) + Take(c, n);
    DecryptIgnoresDropped(s, m, rest, siv, Drop(c, n), n);
    assert [Word(m)] + Named(s.lst, m.loc, 0) + Take(c, n) == [Word(m)] + rest;
    assert [Word(m.(dropped := 1))] + Named(s.lst, m.loc, 0) + Take(c, n) == [Word(m.(dropped := 1))] + rest;
  }

  lemma MarkedFits(m: Mdh)
    requires Fits(m)
    ensures Fits(m.(dropped := 1))
  {
    assert Values1(m.(dropped := 1)) == Values1(m)[2 := 1];
    assert Pow2(1) == 2;
  }

  /** The image of L with its second section dropped: the metadata say so, and anything may follow the first segment. */
  function Dropped(s: Setting, L: Locker, rest: Bits): Bits
    requires Exportable(L) && L.mdh.auxLen >= 2 && |s.lst| == 11 && Fits(L.mdh.(dropped := 1))
  {
    hide Seal, AdOf, Chunks, Flatten, Fits, Word, IsInvalid;
    var m, P1 := L.mdh, Chunks(L.c1);
    var (siv, c1) := Seal(s, AdOf(m, s.lst), false, P1, Clear1(s, m, |P1|));
    Word(m.(dropped := 1)) + siv + Zeros(256) + Flatten(c1) + rest
  }

  lemma PartsOfDropped(w: Block, siv: Block, a: Bits, rest: Bits)
    ensures var img := w + siv + Zeros(256) + a + rest;
            Slice(img, 0, 128) == w && Slice(img, 128, 128) == siv && Part(img, 512, 512 + |a|) == a
  {
    var img := w + siv + Zeros(256) + a + rest;
    assert Slice(img, 0, 128) == w;
    assert Slice(img, 128, 128) == siv;
    assert Part(img, 512, 512 + |a|) == a;
  }

  lemma DroppedContents(s: Setting, L: Locker, rest: Bits)
    requires Exportable(L) && L.mdh.auxLen >= 2 && |s.lst| == 11 && Fits(L.mdh.(dropped := 1))
    ensures var m1 := L.mdh.(dropped := 1);
            Slice(Dropped(s, L, rest), 0, 128) == Word(m1) &&
            ImportContents(s, Dropped(s, L, rest), m1) == Success(Locker(WithoutAds(L.mdh), L.c1, []))
  {
    hide Seal, Open, AdOf, Flatten, Chunks, Fits, First, Part, Slice, Word, IsInvalid, RoundUp;
    var m, P1 := L.mdh, Chunks(L.c1);
    FirstSegment(s, L);
    var (siv, c1) := Seal(s, AdOf(m, s.lst), false, P1, Clear1(s, m, |P1|));
    PartsOfDropped(Word(m.(dropped := 1)), siv, Flatten(c1), rest);
    OpenIgnoresDropped(s, m, siv, Chunks(Flatten(c1)), Clear1(s, m, |P1|));
  }

  /** It is imported with its first content, and without the fields of the second section. */
  lemma DroppedImport(s: Setting, L: Locker, rest: Bits, maxAds: nat, zk: bool)
    requires Exportable(L) && L.mdh.auxLen >= 2 && |s.lst| == 11
    ensures Fits(L.mdh.(dropped := 1))
    ensures Import(s, Dropped(s, L, rest), maxAds, None, zk) == Success(Locker(WithoutAds(L.mdh), L.c1, []))
  {
    hide ImportContents, Dropped, ToWord, FromWord, Fits, Slice;
    MarkedFits(L.mdh);
    var m1 := L.mdh.(dropped := 1);
    DroppedContents(s, L, rest);
    UnpackPack(m1);
    assert WorkMdh(m1, None, maxAds) == m1;
  }

  // ---------------------------------------------------------------- the second segment

  /** The bits of the image that belong to the metadata and the first segment agree. */
  ghost predicate SameFirst(img: Bits, img': Bits) {
    Slice(img, 0, 256) == Slice(img', 0, 256) &&
    var m := FromWord(Slice(img, 0, 128));
    var start := if m.auxLen >= 2 then 512 else 256;
    var end := start + 8 * RoundUp(Content1Size(m));
    Part(img, start, end) == Part(img', start, end)
  }

  /** The same outcome, the same Content1, the same metadata but for the second segment's fields. */
  ghost predicate SameFirstOutcome(r: Imported, r': Imported) {
    if r.Success? then r'.Success? && r.L.c1 == r'.L.c1 && WithoutAds(r.L.mdh) == WithoutAds(r'.L.mdh) else r == r'
  }

  lemma ContentsIndependent(s: Setting, impq': Block, img: Bits, img': Bits, work: Mdh)
    requires Fits(work) && |s.lst| == 11 && Slice(img, 128, 128) == Slice(img', 128, 128)
    requires var start := if work.auxLen >= 2 then 512 else 256;
             var end := start + 8 * RoundUp(Content1Size(work)); Part(img, start, end) == Part(img', start, end)
    ensures SameFirstOutcome(ImportContents(s, img, work), ImportContents(s.(impq := impq'), img', work))
  {
    hide Open, AdOf, Flatten, Chunks, Fits, First, Part, Slice, ImportSecond, RoundUp;
    var start := if work.auxLen >= 2 then 512 else 256;
    var c1 := Chunks(Part(img, start, start + 8 * RoundUp(Content1Size(work))));
    OpenIgnoresQualifier(s, impq', AdOf(work, s.lst), Slice(img, 128, 128), c1, Clear1(s, work, |c1|));
  }

  lemma OpenIgnoresQualifier(s: Setting, impq': Block, AD: seq<Block>, siv: Block, c: seq<Block>, n: nat)
    requires 0 < |AD| <= 7
    ensures Open(s, AD, false, siv, c, n) == Open(s.(impq := impq'), AD, false, siv, c, n)
  {
    hide Decrypt;
  }

  /** No change confined to the qualifier, the second synthetic IV or Content2 alters what the first segment yields. */
  lemma FirstSegmentIndependent(s: Setting, impq': Block, img: Bits, img': Bits, maxAds: nat, mlState: Option<nat>,
      zk: bool)
    requires |s.lst| == 11 && (mlState.Some? ==> mlState.value < 64) && SameFirst(img, img')
    ensures SameFirstOutcome(Import(s, img, maxAds, mlState, zk), Import(s.(impq := impq'), img', maxAds, mlState, zk))
  {
    hide ImportContents, ToWord, FromWord, Fits, Part, Slice, RoundUp;
    HeaderParts(img, img');
    var w := Slice(img, 0, 128);
    PackUnpack(w);
    var work := WorkMdh(FromWord(w), mlState, maxAds);
    WorkFits(FromWord(w), mlState, maxAds);
    ContentsIndependent(s, impq', img, img', work);
  }

  lemma HeaderParts(img: Bits, img': Bits)
    requires Slice(img, 0, 256) == Slice(img', 0, 256)
    ensures Slice(img, 0, 128) == Slice(img', 0, 128) && Slice(img, 128, 128) == Slice(img', 128, 128)
  {
    assert Slice(img, 0, 128) == Slice(img, 0, 256)[..128] && Slice(img', 0, 128) == Slice(img', 0, 256)[..128];
    assert Slice(img, 128, 128) == Slice(img, 0, 256)[128..] && Slice(img', 128, 128) == Slice(img', 0, 256)[128..];
  }
}
