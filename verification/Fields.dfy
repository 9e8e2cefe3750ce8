/** Values packed side by side into one value, and read back: pack and unpack of the Serialized Content. */
module BitFields {
  import opened Modular
  import opened BitStrings

  /** pack: bit strings of the field widths, the first one lowest. */
  function Fields(parts: seq<Bits>): Bits {
    if parts == [] then [] else parts[0] + Fields(parts[1..])
  }

  /** unpack: the fields of the given widths, read one after the other. */
  function Cut(v: Bits, widths: seq<nat>): (parts: seq<Bits>)
    ensures |parts| == |widths| && forall i :: 0 <= i < |parts| ==> |parts[i]| == widths[i]
    decreases |widths|
  {
    if widths == [] then []
    else [Slice(v, 0, widths[0])] + Cut(Slice(v, widths[0], Less(|v|, widths[0])), widths[1..])
  }

  function Less(n: nat, w: nat): nat {
    if w <= n then n - w else 0
  }

  function Widths(parts: seq<Bits>): (w: seq<nat>)
    ensures |w| == |parts|
  {
    seq(|parts|, i requires 0 <= i < |parts| => |parts[i]|)
  }

  function Total(widths: seq<nat>): nat {
    if widths == [] then 0 else widths[0] + Total(widths[1..])
  }

  /** Fields are read back as they were packed. */
  lemma {:induction false} CutFields(parts: seq<Bits>, widths: seq<nat>)
    requires |widths| == |parts| && forall i :: 0 <= i < |parts| ==> |parts[i]| == widths[i]
    ensures Cut(Fields(parts), widths) == parts && |Fields(parts)| == Total(widths)
  {
    if parts != [] {
      var v, rest := Fields(parts), Fields(parts[1..]);
      assert Slice(v, 0, |parts[0]|) == parts[0];
      assert Slice(v, |parts[0]|, Less(|v|, |parts[0]|)) == rest;
      CutFields(parts[1..], widths[1..]);
    }
  }

  /** Packing the fields that were read from a whole image gives the image. */
  lemma {:induction false} FieldsCut(v: Bits, widths: seq<nat>)
    requires |v| == Total(widths)
    ensures Fields(Cut(v, widths)) == v
    decreases |widths|
  {
    if widths != [] {
      var w := widths[0];
      var head, tail := Slice(v, 0, w), Slice(v, w, Less(|v|, w));
      FieldsCut(tail, widths[1..]);
      assert v == head + tail;
      assert Cut(v, widths)[1..] == Cut(tail, widths[1..]);
    }
  }
}
