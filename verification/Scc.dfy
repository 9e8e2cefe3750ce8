/**
 Sealed containers: a locker's metadata and contents printed as an authenticated image of two segments, and parsed back.
 The second segment, with its qualifier, is optional and may be dropped at import.
 */
module Scc {
  import opened Wrappers
  import opened Modular
  import opened BitStrings
  import opened Gf128
  import opened AeadBase
  import opened Metadata

  /** The block cipher with 256-bit keys. */
  type Aes = (Bits, Block) -> Block

  /** What an image carries: the metadata and the two contents. */
  datatype Locker = Locker(mdh: Mdh, c1: Bits, c2: Bits)

  /**
   What both sides of a transfer have: the cipher, the sealing key, the Locality table, the qualifier of the
   implementation.
   */
  datatype Setting = Setting(aes: Aes, key: Bits, lst: seq<Block>, impq: Block, clear1: nat, clear2: nat)

  datatype Imported = Success(L: Locker) | Invalid | Unsupported | AuthFail(L: Locker)

  // ---------------------------------------------------------------- sealing

  function KeyPart(aes: Aes, key: Bits, i: nat): (r: Bits)
    ensures |r| == 64
  {
    aes(key, FromNat(i, 128))[..64]
  }

  function EncKey(aes: Aes, key: Bits): Bits {
    KeyPart(aes, key, 2) + KeyPart(aes, key, 3) + KeyPart(aes, key, 4) + KeyPart(aes, key, 5)
  }

  function AuthKey(aes: Aes, key: Bits): (r: Block) {
    KeyPart(aes, key, 0) + KeyPart(aes, key, 1)
  }

  /** The i-th counter block; sep separates the two segments. */
  function Counter(sep: bool, siv: Block, i: nat): (r: Block) {
    hide ToNat, Pow2;
    FromNat((ToNat(siv[..32]) + i) % Pow2(32), 32) + siv[32..126] + [sep] + [true]
  }

  /** The blocks with the keystream from block i on added. */
  function Keystreamed(aes: Aes, ek: Bits, sep: bool, siv: Block, x: seq<Block>, i: nat): (r: seq<Block>)
    ensures |r| == |x|
  {
    if x == [] then [] else [Xor(x[0], aes(ek, Counter(sep, siv, i)))] + Keystreamed(aes, ek, sep, siv, x[1..], i + 1)
  }

  /** The associated data of the first segment, with ADSDropped cleared. */
  function Normalized(AD: seq<Block>, sep: bool): (r: seq<Block>)
    requires AD != []
  {
    if sep then AD else [AD[0][47 := false]] + AD[1..]
  }

  function Siv(aes: Aes, key: Bits, AD: seq<Block>, sep: bool, P: seq<Block>): (r: Block)
    requires AD != []
  {
    hide PolyvalFrom, EncKey, Zeros;
    var t := PolyvalFrom(Zeros(128), Normalized(AD, sep) + P, AuthKey(aes, key));
    aes(EncKey(aes, key), t[..126] + [sep] + [false])
  }

  function Encrypt(aes: Aes, key: Bits, AD: seq<Block>, sep: bool, P: seq<Block>): (Block, seq<Block>)
    requires AD != []
  {
    var siv := Siv(aes, key, AD, sep, P);
    (siv, Keystreamed(aes, EncKey(aes, key), sep, siv, P, 0))
  }

  /** The plaintext, if it has this synthetic IV; at most seven blocks besides the clear ones are associated data. */
  function Decrypt(aes: Aes, key: Bits, AD: seq<Block>, sep: bool, siv: Block, C: seq<Block>,
      nclear: nat): (r: Option<seq<Block>>)
    requires 0 < |AD| <= 7 + nclear
  {
    var P := Keystreamed(aes, EncKey(aes, key), sep, siv, C, 0);
    if Siv(aes, key, AD, sep, P) == siv then Some(P) else None
  }

  // ---------------------------------------------------------------- the tables

  predicate IsSupported(m: Mdh) {
    m.machine == 0x20 || m.machine == 0
  }

  predicate IsInvalid(m: Mdh) {
    || m.version != 0 || m.keyType == 2 || m.keyType == 3 || m.scProt >= 4 || m.loc.high == 3
    || (m.transparent == 1 && m.keyType == 1) || m.res46 != 0 || m.res78 != 0 || m.res116 != 0
    || m.stateExt != 0 || m.state == 0 || m.state == 61 || m.state == 62 || m.state == 63 || m.expDate != 0 ||
        m.auxLen == 1
  }

  /** The bytes of Content1: the key, or its identifier. */
  function Content1Size(m: Mdh): nat {
    if m.keyType == 1 then 16 else if m.machine == 0x20 then 32 else 16
  }

  function Content2Size(m: Mdh): nat {
    if m.auxLen >= 2 && m.dropped == 0 then 16 * (m.auxLen - 2) else 0
  }

  /** kl.size. */
  function Size(m: Mdh): nat {
    if m.state == 61 || m.state == 62 || m.state == 63 || (m.state == 0 && m.stateExt >= 7) then 0
    else if m.state == 0 && m.stateExt >= 1 then 16
    else if IsInvalid(m) || !IsSupported(m) then 0
    else if m.auxLen == 0 then 32 + Content1Size(m)
    else 64 + Content1Size(m) + Content2Size(m)
  }

  /** Whether the Locality field names entry j. */
  predicate Includes(loc: Locality, j: nat) {
    if j < 3 then loc.low == j + 1
    else if j < 6 then loc.mid == j - 2
    else if j < 8 then loc.high == j - 5
    else loc.flags / Pow2(j - 8) % 2 == 1
  }

  /** Entry j of the table, or the next one that is set in its chain of three. */
  function Effective(lst: seq<Block>, j: nat): (r: Block)
    requires |lst| == 11 && j < 11
  {
    var end := if j < 3 then 3 else if j < 6 then 6 else j + 1;
    if lst[j] != Zeros(128) then lst[j]
    else if j + 1 < end && lst[j + 1] != Zeros(128) then lst[j + 1]
    else if j + 2 < end && lst[j + 2] != Zeros(128) then lst[j + 2]
    else lst[j]
  }

  /** The entries from j on that the Locality field names. */
  function Named(lst: seq<Block>, loc: Locality, j: nat): (r: seq<Block>)
    requires |lst| == 11 && j <= 11
    decreases 11 - j
  {
    if j == 11 then []
    else (if Includes(loc, j) then [Effective(lst, j)] else []) + Named(lst, loc, j + 1)
  }

  /** The metadata as a block. */
  function Word(m: Mdh): (r: Block)
    requires Fits(m)
  {
    hide Fits, ToWord, FromWord;
    UnpackPack(m);
    ToWord(m)
  }

  /** Each selector of the Locality field names one entry at most, so there are never more than six. */
  lemma NamedIsShort(lst: seq<Block>, loc: Locality)
    requires |lst| == 11
    ensures |Named(lst, loc, 0)| <= 6
  {
    hide Effective, Includes, Named;
    NamedShort(lst, loc, 8);
    NamedStep(lst, loc, 0);
    NamedStep(lst, loc, 1);
    NamedStep(lst, loc, 2);
    NamedStep(lst, loc, 3);
    NamedStep(lst, loc, 4);
    NamedStep(lst, loc, 5);
    NamedStep(lst, loc, 6);
    NamedStep(lst, loc, 7);
    Exclusive(loc);
  }

  lemma Exclusive(loc: Locality)
    ensures !(Includes(loc, 0) && Includes(loc, 1)) && !(Includes(loc, 0) && Includes(loc, 2)) && !(Includes(loc, 1) &&
            Includes(loc, 2))
    ensures !(Includes(loc, 3) && Includes(loc, 4)) && !(Includes(loc, 3) && Includes(loc, 5)) && !(Includes(loc, 4) &&
            Includes(loc, 5))
    ensures !(Includes(loc, 6) && Includes(loc, 7))
  {
  }

  lemma NamedStep(lst: seq<Block>, loc: Locality, j: nat)
    requires |lst| == 11 && j < 11
    ensures |Named(lst, loc, j)| == (if Includes(loc, j) then 1 else 0) + |Named(lst, loc, j + 1)|
  {
  }

  lemma {:induction false} NamedShort(lst: seq<Block>, loc: Locality, j: nat)
    requires |lst| == 11 && j <= 11
    ensures |Named(lst, loc, j)| <= 11 - j
    decreases 11 - j
  {
    if j < 11 {
      NamedShort(lst, loc, j + 1);
    }
  }

  /** The associated data of the first segment: never more than seven blocks. */
  function AdOf(m: Mdh, lst: seq<Block>): (r: seq<Block>)
    requires Fits(m) && |lst| == 11
    ensures 0 < |r| <= 7
  {
    hide Fits, Named;
    NamedIsShort(lst, m.loc);
    [Word(m)] + Named(lst, m.loc, 0)
  }

  // ---------------------------------------------------------------- printing

  /** The bytes as blocks, the last one zero-padded. */
  function Chunks(v: Bits): (r: seq<Block>)
    decreases |v|
  {
    if v == [] then [] else [Slice(v, 0, 128)] + Chunks(if |v| < 128 then [] else v[128..])
  }

  function Take(x: seq<Block>, n: nat): seq<Block> {
    if n < |x| then x[..n] else x
  }

  function Drop(x: seq<Block>, n: nat): seq<Block> {
    if n < |x| then x[n..] else []
  }

  /** The blocks of both contents that stay in the clear: the whole contents of a Transparent locker. */
  function Clear1(s: Setting, m: Mdh, n: nat): nat {
    if m.transparent != 0 then n else s.clear1
  }

  function Clear2(s: Setting, m: Mdh, n: nat): nat {
    if m.transparent != 0 then n else s.clear2
  }

  /** One segment: its synthetic IV, and its blocks with the first n in the clear. */
  function Seal(s: Setting, AD: seq<Block>, sep: bool, P: seq<Block>, n: nat): (Block, seq<Block>)
    requires AD != []
  {
    var (siv, c) := Encrypt(s.aes, s.key, AD + Take(P, n), sep, Drop(P, n));
    (siv, Take(P, n) + c)
  }

  /** A locker in an Error State is its metadata alone; ADSDropped must be clear. */
  function Export(s: Setting, L: Locker): Bits
    requires Fits(L.mdh) && |s.lst| == 11 && L.mdh.dropped == 0
  {
    var m := L.mdh;
    if m.state == 0 && 1 <= m.stateExt <= 6 then Word(m)
    else
      var P1, P2 := Chunks(L.c1), Chunks(L.c2);
      var (siv, c1) := Seal(s, AdOf(m, s.lst), false, P1, Clear1(s, m, |P1|));
      if m.auxLen >= 2 then
        var (siv2, c2) := Seal(s, [s.impq, siv], true, P2, Clear2(s, m, |P2|));
        Word(m) + siv + (s.impq + siv2) + Flatten(c1) + Flatten(c2)
      else Word(m) + siv + Flatten(c1)
  }

  // ---------------------------------------------------------------- parsing

  /** Bits a to b of the image, as far as there are any. */
  function Part(img: Bits, a: nat, b: nat): Bits
    requires a <= b
  {
    if |img| <= a then [] else if |img| <= b then img[a..] else img[a..b]
  }

  function Open(s: Setting, AD: seq<Block>, sep: bool, siv: Block, c: seq<Block>, n: nat): Option<seq<Block>>
    requires 0 < |AD| <= 7
  {
    match Decrypt(s.aes, s.key, AD + Take(c, n), sep, siv, Drop(c, n), n)
    case None => None
    case Some(P) => Some(Take(c, n) + P)
  }

  function First(v: Bits, n: nat): Bits {
    if n < |v| then v[..n] else v
  }

  /** The import of an Error State keeps the metadata, without the second segment's fields. */
  function ImportError(m: Mdh): Imported {
    if IsInvalid(m.(state := 1, stateExt := 0)) then Success(Locker(ZERO.(stateExt := SE_INVALID), [], []))
    else Success(Locker(m.(auxLen := 0, dropped := 0), [], []))
  }

  function RoundUp(n: nat): nat {
    (n + 15) / 16 * 16
  }

  /** The second segment's fields cleared. */
  function WithoutAds(m: Mdh): Mdh {
    m.(use := 0, auxInfo := 0, dropped := 0, auxLen := 0)
  }

  /** The second segment, if it is there, wanted and authentic. */
  function ImportSecond(s: Setting, m: Mdh, siv: Block, head: Bits, c2: seq<Block>): Option<seq<Block>> {
    var iq, siv2 := Slice(head, 0, 128), Slice(head, 128, 128);
    if iq != s.impq then None else Open(s, [iq, siv], true, siv2, c2, Clear2(s, m, |c2|))
  }

  /** The metadata under which the image is opened: the State asked for, and whether the second segment is dropped. */
  function WorkMdh(m: Mdh, mlState: Option<nat>, maxAds: nat): Mdh {
    m.(state := if mlState.Some? then mlState.value else m.state,
       dropped := if m.auxLen >= 2 && (m.dropped == 1 || m.auxLen > maxAds) then 1 else 0)
  }

  function ImportContents(s: Setting, img: Bits, work: Mdh): Imported
    requires Fits(work) && |s.lst| == 11
  {
    var ads := work.auxLen >= 2;
    var start := if ads then 512 else 256;
    var siv := Slice(img, 128, 128);
    var end1 := start + 8 * RoundUp(Content1Size(work));
    var c1 := Chunks(Part(img, start, end1));
    match Open(s, AdOf(work, s.lst), false, siv, c1, Clear1(s, work, |c1|))
    case None => AuthFail(Locker(work.(state := 0, stateExt := SE_MGMT_AUTH, auxLen := 0, dropped := 0), [], []))
    case Some(P1) =>
      var content1 := First(Flatten(P1), 8 * Content1Size(work));
      if ads && work.dropped == 0 then
        match ImportSecond(s, work, siv, Slice(img, 256, 256), Chunks(Part(img, end1, end1 + 128 * (work.auxLen - 2))))
        case None => Success(Locker(WithoutAds(work), content1, []))
        case Some(P2) => Success(Locker(work, content1, Flatten(P2)))
      else Success(Locker(if work.auxLen == 0 || work.dropped == 1 then WithoutAds(work) else work, content1, []))
  }

  /** mlState is the State the completing instruction asks for, if it does; zk: the unit knows expiration. */
  function Import(s: Setting, img: Bits, maxAds: nat, mlState: Option<nat>, zk: bool): Imported
    requires |s.lst| == 11 && (mlState.Some? ==> mlState.value < 64)
  {
    var w := Slice(img, 0, 128);
    PackUnpack(w);
    var m := FromWord(w);
    var work := WorkMdh(m, mlState, maxAds);
    WorkFits(m, mlState, maxAds);
    if m.state == 0 && 1 <= m.stateExt <= (if zk then 6 else 5) then ImportError(m)
    else if !IsSupported(m) && !IsInvalid(m) then Unsupported
    else if IsInvalid(work.(state := 1)) then Invalid
    else if !IsSupported(m) then Unsupported
    else ImportContents(s, img, work)
  }

  lemma WorkFits(m: Mdh, mlState: Option<nat>, maxAds: nat)
    requires Fits(m) && (mlState.Some? ==> mlState.value < 64)
    ensures Fits(WorkMdh(m, mlState, maxAds))
  {
    assert Pow2(6) == 64 && Pow2(1) == 2;
    var w := WorkMdh(m, mlState, maxAds);
    assert Values0(w) == Values0(m)[5 := w.state] && Values1(w) == Values1(m)[2 := w.dropped];
  }
}
