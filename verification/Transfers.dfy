/**
 The transfer of whole blocks that the AEAD Machines have in common: block by block, up to the end, to a halt or to a
 failure.  `step` is what the Machine does with one block.
 */
module Transfers {
  import opened Wrappers
  import opened BitStrings
  import opened AeadBase

  datatype End = Done | Halted | Failed

  /** The Machine behind the transfer, the value of OUTPUT, and the number of the block that was reached. */
  datatype Transfer<S> = Transfer(s: S, out: Bits, reached: nat, end: End)

  /** Blocks i.. of the input up to block n; k is where this instruction started. */
  function TransferFrom<S>(step: (S, Block) -> Option<(S, Block)>, s: S, inp: Bits, i: nat, n: nat, k: nat,
                           haltAt: Option<nat>, out: Bits): Transfer<S>
    requires i <= n
    decreases n - i
  {
    if i == n then Transfer(s, out, i, Done)
    else if HaltsAt(haltAt, 128 * i) && i > k then Transfer(s, out, i, Halted)
    else
      match step(s, Slice(inp, 128 * i, 128))
      case None => Transfer(s, out, i, Failed)
      case Some((s1, o)) => TransferFrom(step, s1, inp, i + 1, n, k, haltAt, out + o)
  }

  /** What every block keeps of the Machine, the blocks in and the blocks out, a transfer keeps however it ends. */
  lemma {:induction false} TransferKeeps<S(!new)>(step: (S, Block) -> Option<(S, Block)>,
                                                 keeps: (S, seq<Block>, seq<Block>) -> bool, s: S, xs: seq<Block>,
                                                 ys: seq<Block>, inp: Bits, i: nat, n: nat, k: nat, haltAt: Option<nat>,
                                                 out: Bits)
    returns (outs: seq<Block>)
    requires i <= n && keeps(s, xs, ys)
    requires forall s, xs, ys, x: Block :: keeps(s, xs, ys) && step(s, x).Some? ==>
               keeps(step(s, x).value.0, xs + [x], ys + [step(s, x).value.1])
    ensures var t := TransferFrom(step, s, inp, i, n, k, haltAt, out);
            i <= t.reached <= n && |outs| == t.reached - i && t.out == out + Flatten(outs) &&
            keeps(t.s, xs + InputBlocks(inp, i, t.reached), ys + outs)
    decreases n - i
  {
    hide Slice;
    outs := [];
    assert out + [] == out && xs + [] == xs && ys + [] == ys;
    if i < n && !(HaltsAt(haltAt, 128 * i) && i > k) {
      var x := Slice(inp, 128 * i, 128);
      match step(s, x)
      case None =>
      case Some((s1, o)) =>
        var rest := TransferKeeps(step, keeps, s1, xs + [x], ys + [o], inp, i + 1, n, k, haltAt, out + o);
        outs := [o] + rest;
        var r := TransferFrom(step, s1, inp, i + 1, n, k, haltAt, out + o).reached;
        InputBlocksCons(inp, i, r);
        assert xs + [x] + InputBlocks(inp, i + 1, r) == xs + InputBlocks(inp, i, r) && ys + [o] + rest == ys + outs;
        assert outs[1..] == rest;
        assert out + o + Flatten(rest) == out + Flatten(outs);
    }
  }

  /** What the output starts with changes nothing else, and a start at another block matters to the halt only. */
  lemma {:induction false} TransferOutput<S>(step: (S, Block) -> Option<(S, Block)>, s: S, inp: Bits, i: nat, n: nat,
                                            k: nat, k': nat, haltAt: Option<nat>, out: Bits, out': Bits)
    returns (tail: Bits)
    requires i <= n && forall t: nat :: i <= t < n && HaltsAt(haltAt, 128 * t) ==> (t > k <==> t > k')
    ensures var t, t' := TransferFrom(step, s, inp, i, n, k, haltAt, out), TransferFrom(step, s, inp, i, n, k', haltAt,
            out');
            t.out == out + tail && t' == t.(out := out' + tail)
    decreases n - i
  {
    hide Slice, HaltsAt;
    tail := [];
    assert out + [] == out && out' + [] == out';
    if i < n && !(HaltsAt(haltAt, 128 * i) && i > k) {
      match step(s, Slice(inp, 128 * i, 128))
      case None =>
      case Some((s1, o)) =>
        var rest := TransferOutput(step, s1, inp, i + 1, n, k, k', haltAt, out + o, out' + o);
        tail := o + rest;
        assert out + o + rest == out + tail && out' + o + rest == out' + tail;
    }
  }

  /** No halt is requested at or before block r. */
  predicate LaterThan(haltAt: Option<nat>, r: nat) {
    haltAt.Some? ==> 8 * haltAt.value > 128 * r
  }

  /** After a halt, the rest of the transfer is what the uninterrupted one still had to do. */
  lemma {:induction false} TransferContinues<S>(step: (S, Block) -> Option<(S, Block)>, s: S, inp: Bits, i: nat, n: nat,
                                               k: nat, haltAt: Option<nat>, later: Option<nat>, out: Bits)
    requires i <= n
    requires var t := TransferFrom(step, s, inp, i, n, k, haltAt, out); t.end == Halted && LaterThan(later, t.reached)
    ensures var t := TransferFrom(step, s, inp, i, n, k, haltAt, out);
            i <= t.reached < n && k < t.reached && HaltsAt(haltAt, 128 * t.reached) &&
            TransferFrom(step, s, inp, i, n, k, later, out) == TransferFrom(step, t.s, inp, t.reached, n, k, later,
                t.out)
    decreases n - i
  {
    hide Slice;
    if !(HaltsAt(haltAt, 128 * i) && i > k) {
      match step(s, Slice(inp, 128 * i, 128))
      case None =>
      case Some((s1, o)) =>
        TransferContinues(step, s1, inp, i + 1, n, k, haltAt, later, out + o);
    }
  }

  /**
   A transfer that is halted and resumed where it stopped ends as the uninterrupted one does, and the two outputs are
   the two parts of its output.
   */
  lemma TransferResumes<S>(step: (S, Block) -> Option<(S, Block)>, s: S, inp: Bits, n: nat, k: nat, haltAt: Option<nat>,
                           later: Option<nat>)
    returns (tail: Bits)
    requires k <= n
    requires var t := TransferFrom(step, s, inp, k, n, k, haltAt, Zeros(128 * k));
             t.end == Halted && LaterThan(later, t.reached)
    ensures var t := TransferFrom(step, s, inp, k, n, k, haltAt, Zeros(128 * k));
            k < t.reached < n &&
            var t2, whole := TransferFrom(step, t.s, inp, t.reached, n, t.reached, later, Zeros(128 * t.reached)),
                             TransferFrom(step, s, inp, k, n, k, later, Zeros(128 * k));
            whole.out == t.out + tail && t2 == whole.(out := Zeros(128 * t.reached) + tail)
  {
    TransferContinues(step, s, inp, k, n, k, haltAt, later, Zeros(128 * k));
    var t := TransferFrom(step, s, inp, k, n, k, haltAt, Zeros(128 * k));
    tail := TransferOutput(step, t.s, inp, t.reached, n, k, t.reached, later, t.out, Zeros(128 * t.reached));
  }

  /** A transfer ends behind its last block, or where it was to be interrupted. */
  lemma {:induction false} TransferReaches<S>(step: (S, Block) -> Option<(S, Block)>, s: S, inp: Bits, i: nat, n: nat,
                                             k: nat, haltAt: Option<nat>, out: Bits)
    requires i <= n && |out| == 128 * i
    ensures var t := TransferFrom(step, s, inp, i, n, k, haltAt, out);
            |t.out| == 128 * t.reached && (t.end.Done? ==> t.reached == n) &&
            (t.end.Halted? ==> HaltsAt(haltAt, 128 * t.reached) && k < t.reached < n)
    decreases n - i
  {
    hide Slice;
    if i < n && !(HaltsAt(haltAt, 128 * i) && i > k) {
      match step(s, Slice(inp, 128 * i, 128))
      case None =>
      case Some((s1, o)) => TransferReaches(step, s1, inp, i + 1, n, k, haltAt, out + o);
    }
  }
}
