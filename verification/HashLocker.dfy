/**
 The hash locker object: its loops fill and compress the block in place, and make exactly the steps of HashMachine.
 */
module HashLocker {
  import opened Wrappers
  import opened Modular
  import opened BitStrings
  import opened HashMachine

  class Locker {
    const g: Config
    var st: St
    var policy: nat
    var S: Bits
    var blk: Bits
    var bb: nat
    var cum: nat
    var lbl: nat
    var outl: nat
    var tagLen: nat
    var nn: nat
    var kk: nat

    function TheCore(): (c: Core)
      reads this
    {
      Core(S, blk, bb, cum)
    }

    function State(): (m: Hash)
      reads this
    {
      Hash(st, policy, TheCore(), lbl, outl, tagLen, nn, kk)
    }

    constructor (g: Config, policy: nat)
      requires ConfigOk(g)
      ensures this.g == g && State() == Create(g, policy)
    {
      this.g, this.policy := g, policy;
      nn, kk := if g.f.Blake? then g.f.w else 0, if g.sk.Some? then g.kk else 0;
      S := Iv(g.f, if g.sk.Some? then g.kk else 0, if g.f.Blake? then g.f.w else 0);
      blk, bb, cum := Zeros(B(g.f)), 0, 0;
      lbl, outl, tagLen := 0, 0, 0;
      st := if g.key.Some? && !AdmitsTagLen(g) then Invalid else Ready;
    }

    method Compress(final: bool)
      requires FnOk(g.f)
      modifies this`S
      ensures S == Compressed(g.f, old(TheCore()), final)
    {
      S := Compressed(g.f, TheCore(), final);
    }

    /** One piece into the block, which is compressed when it is full and not held back. */
    method PutPiece(x: Bits, count: bool)
      requires CoreOk(g.f, TheCore()) && bb + |x| <= B(g.f)
      modifies this`S, this`blk, this`bb, this`cum
      ensures TheCore() == Put(g.f, old(TheCore()), x, count)
    {
      hide Compressed, Xor, PlacedIn;
      if g.f.Sponge? {
        S := Xor(S, PlacedIn(1600, x, bb));
      } else {
        blk := blk[..bb] + x + blk[bb + |x|..];
      }
      bb := bb + |x|;
      if count {
        cum := cum + |x|;
      }
      if bb == B(g.f) && !g.f.Blake? {
        Compress(false);
        bb := 0;
      }
    }

    /** The absorbing loop; where it stopped. */
    method AbsorbBits(X: Bits, from: nat, kl: nat, count: bool, halt: bool) returns (ib: nat)
      requires CoreOk(g.f, TheCore())
      modifies this`S, this`blk, this`bb, this`cum
      ensures CoreOk(g.f, TheCore()) && (TheCore(), ib) == Vli(g.f, old(TheCore()), X, from, kl, count, halt)
    {
      hide Put, Compressed;
      ib := from;
      while ib < kl
        invariant CoreOk(g.f, TheCore())
        invariant Vli(g.f, TheCore(), X, ib, kl, count, halt) == Vli(g.f, old(TheCore()), X, from, kl, count, halt)
      {
        if g.f.Blake? && bb == B(g.f) {
          Compress(false);
          bb := 0;
        }
        var a := Min(kl - ib, B(g.f) - bb);
        PutPiece(Slice(X, ib, a), count);
        ib := ib + a;
        if halt && ib < kl {
          return;
        }
      }
    }

    method PutBytes(data: Bits)
      requires CoreOk(g.f, TheCore())
      modifies this`S, this`blk, this`bb, this`cum
      ensures TheCore() == PutAll(g.f, old(TheCore()), data)
    {
      hide Vli;
      var ib := AbsorbBits(data, 0, |data|, false, false);
    }

    /** The key block of a keyed BLAKE2 goes first. */
    method PutKey()
      requires CoreOk(g.f, TheCore()) && ConfigOk(g)
      modifies this`S, this`blk, this`cum
      ensures TheCore() == Keyed(g.f, g.sk, old(TheCore()))
    {
      if g.sk.Some? && cum == 0 {
        blk, cum := g.sk.value, B(g.f);
        Compress(false);
        blk := Zeros(B(g.f));
      }
    }

    // -------------------------------------------------------------- finalizing

    method FinishMd(ell: nat)
      requires CoreOk(g.f, TheCore()) && g.f.Md? && bb % 8 == 0
      modifies this`S, this`blk, this`bb, this`cum
      ensures TheCore() == FinalMd(g.f, old(TheCore()), ell)
    {
      hide PutAll;
      BytesPut(g.f, TheCore());
      if cum % 8 == 0 {
        PutBytes(Byte80());
      }
      ghost var c := TheCore();
      while bb != B(g.f) - 2 * g.f.w
        invariant CoreOk(g.f, TheCore()) && bb % 8 == 0 && Filled(g.f, TheCore()) == Filled(g.f, c)
        decreases if bb <= B(g.f) - 2 * g.f.w then B(g.f) - 2 * g.f.w - bb else 2 * B(g.f) - 2 * g.f.w - bb
      {
        ZeroStep(g.f, TheCore());
        PlaceBound(g.f, TheCore());
        PutBytes(ZeroByte());
      }
      PutBytes(ByteSwap(FromNat(ell, 2 * g.f.w)));
    }

    method FinishBlake() returns (ok: bool)
      requires CoreOk(g.f, TheCore()) && ConfigOk(g) && g.f.Blake?
      modifies this`S, this`blk, this`bb, this`cum
      ensures ok == FinalBlake(g.f, g.sk, kk, old(TheCore())).Some?
      ensures ok ==> TheCore() == FinalBlake(g.f, g.sk, kk, old(TheCore())).value
    {
      hide Compressed;
      ok := true;
      if bb > 0 {
        blk := blk[..bb] + Zeros(B(g.f) - bb);
        Compress(true);
      } else if g.sk.Some? {
        blk, cum := g.sk.value, B(g.f);
        Compress(true);
        blk := Zeros(B(g.f));
      } else if kk == 0 {
        blk := Zeros(B(g.f));
        Compress(true);
      } else {
        return false;
      }
      bb := 0;
    }

    /** The least length that ends the padding at the end of a block. */
    method PadLength() returns (n: nat)
      requires FnOk(g.f) && g.f.Sponge? && bb < g.f.rate
      ensures n == PadLen(g.f, bb)
    {
      n := |g.f.D| + 2;
      ghost var top := PadLen(g.f, bb);
      Multiples(g.f.rate);
      while (bb + n) % g.f.rate != 0
        invariant |g.f.D| + 2 <= n <= top
        decreases top - n
      {
        n := n + 1;
      }
      MultipleBelow(bb + n, g.f.rate);
    }

    method FinishSponge()
      requires CoreOk(g.f, TheCore()) && g.f.Sponge?
      modifies this`S, this`bb
      ensures TheCore() == FinalSponge(g.f, old(TheCore()))
    {
      hide Compressed, Xor, PlacedIn, PadLen;
      var n := PadLength();
      PadRoom(g.f, bb);
      var p, room := g.f.D + [true] + Zeros(n - |g.f.D| - 2) + [true], g.f.rate - bb;
      S := Xor(S, PlacedIn(1600, p[..room], bb));
      Compress(false);
      if n > room {
        S := Xor(S, PlacedIn(1600, p[room..], 0));
        bb := 0;
        Compress(false);
      }
      bb := 0;
    }

    method Finish(extra: nat) returns (ok: bool)
      requires CoreOk(g.f, TheCore()) && ConfigOk(g)
      modifies this`S, this`blk, this`bb, this`cum
      ensures ok == Finalized(g, old(TheCore()), kk, extra).Some?
      ensures ok ==> TheCore() == Finalized(g, old(TheCore()), kk, extra).value
    {
      hide FinalMd, FinalBlake, FinalSponge;
      ok := true;
      if g.f.Md? {
        if bb % 8 != 0 {
          return false;
        }
        FinishMd(extra + cum);
      } else if g.f.Blake? {
        ok := FinishBlake();
      } else {
        FinishSponge();
      }
    }

    method ResetCore()
      requires ConfigOk(g)
      modifies this`S, this`blk, this`bb, this`cum
      ensures TheCore() == Core(Iv(g.f, kk, nn), Zeros(B(g.f)), 0, 0) && CoreOk(g.f, TheCore())
    {
      S, blk, bb, cum := Iv(g.f, kk, nn), Zeros(B(g.f)), 0, 0;
    }

    /** The inner hash is finished and the outer one computed. */
    method FinishHmac() returns (ok: bool)
      requires CoreOk(g.f, TheCore()) && ConfigOk(g) && g.key.Some?
      modifies this`S, this`blk, this`bb, this`cum
      ensures ok == HmacOuter(g, old(TheCore()), kk, nn).Some?
      ensures ok ==> TheCore() == HmacOuter(g, old(TheCore()), kk, nn).value
    {
      hide Finalized, PutAll, Vli, KeyPad, Iv;
      ok := Finish(B(g.f));
      if ok {
        var inner := S[..T(g.f)];
        ResetCore();
        PutBytes(KeyPad(g.key.value, OPAD));
        var ib := AbsorbBits(inner, 0, |inner|, true, false);
        ok := Finish(B(g.f));
      }
    }

    method Close() returns (ok: bool)
      requires Ok(g, State()) && CoreOk(g.f, TheCore())
      modifies this`S, this`blk, this`bb, this`cum, this`lbl
      ensures ok == Closed(g, old(State())).Some? && (ok ==> State() == Closed(g, old(State())).value)
    {
      hide HmacOuter, Finalized;
      if g.key.Some? {
        ok := FinishHmac();
      } else {
        ok := Finish(0);
      }
      bb, lbl := 0, 0;
    }

    // -------------------------------------------------------------- kl.setst

    method GoReady()
      requires ConfigOk(g) && Ok(g, State())
      modifies this
      ensures State() == EnterReady(g, old(State()))
    {
      hide Iv, Zeros;
      ResetCore();
      st, lbl, outl, tagLen := Ready, 0, 0, 0;
    }

    method StartAbsorb()
      requires ConfigOk(g) && Ok(g, State())
      modifies this
      ensures State() == EnterAbsorb(g, old(State()))
    {
      hide Iv, Zeros, PutAll, KeyPad;
      ResetCore();
      if g.key.Some? {
        PutBytes(KeyPad(g.key.value, IPAD));
      }
      st, lbl := Absorb, B(g.f);
    }

    method GoOutput(form: Form, xs: nat)
      requires Ok(g, State())
      modifies this
      ensures Same(State(), SetOutput(g, old(State()), form, xs))
    {
      hide Closed;
      if !OutputAdmitted(g, State(), form, xs) {
        st := Invalid;
        return;
      }
      var full := FullOut(g, State());
      var ok := Close();
      if ok {
        outl, st := if xs != 0 then xs else full, Output;
      } else {
        st := Invalid;
      }
    }

    method GoVerify(form: Form, xs: nat)
      requires Ok(g, State())
      modifies this
      ensures Same(State(), SetVerify(g, old(State()), form, xs))
    {
      hide Closed;
      if !(st == Absorb || (st == Last && lbl == 0)) || g.key.None? || form != FormB || policy / 2 % 2 != 1 ||
         xs % 8 != 0 || xs < 64 || Min(xs, T(g.f)) != g.tagLenP {
        st := Invalid;
        return;
      }
      var ok := Close();
      if ok {
        tagLen, st := Min(xs, T(g.f)), Verify;
      } else {
        st := Invalid;
      }
    }

    method GoBits(form: Form, xs: nat)
      requires Ok(g, State())
      modifies this
      ensures Same(State(), SetBits(g, old(State()), form, xs))
    {
      hide SetOutput;
      if st == Absorb || st == Last {
        GoOutput(FormA, 0);
      }
      if (st == Output || st == OutBits) && form == FormB && 0 < xs < 65536 {
        lbl, st := xs, OutBits;
      } else {
        st := Invalid;
      }
    }

    method SetSt(target: St, form: Form, xs: nat)
      requires Ok(g, State())
      modifies this
      ensures Same(State(), DoSetSt(g, old(State()), target, form, xs))
    {
      hide SetOutput, SetVerify, SetBits, EnterAbsorb, EnterReady;
      if st == Invalid {
        return;
      }
      if target == Ready {
        if form == FormA {
          GoReady();
        } else {
          st := Invalid;
        }
      } else if st == Success || st == Failure {
        st := Invalid;
      } else if target == OutBits {
        GoBits(form, xs);
      } else if target == Absorb && form == FormA && st == Ready {
        StartAbsorb();
      } else if target == Last && st == Absorb && (form == FormA || form == FormB) && xs <= B(g.f) && (xs % 8 == 0 ||
          !g.f.Blake?) {
        lbl, st := xs, Last;
      } else if target == Output {
        GoOutput(form, xs);
      } else if target == Verify {
        GoVerify(form, xs);
      } else {
        st := Invalid;
      }
    }

    // -------------------------------------------------------------- kl.exec

    method TakeLast(data: Bits)
      requires Ok(g, State()) && st == Last && lbl <= |data| && |data| % 8 == 0
      modifies this
      ensures State() == DoLast(g, old(State()), data)
    {
      hide Vli, PutAll, LastBytes, Keyed;
      if g.f.Md? {
        PutBytes(LastBytes(data, lbl));
        cum := cum + lbl;
      } else {
        PutKey();
        var ib := AbsorbBits(data[..lbl], 0, lbl, true, false);
      }
      lbl := 0;
    }

    method TakeData(data: Bits, klstart: nat, halt: bool) returns (halted: Option<nat>)
      requires Ok(g, State()) && st == Absorb && |data| % 8 == 0
      modifies this
      ensures Same(State(), DoAbsorb(g, old(State()), data, klstart, halt).m)
      ensures halted == DoAbsorb(g, old(State()), data, klstart, halt).halted &&
              DoAbsorb(g, old(State()), data, klstart, halt).out == []
    {
      hide Vli, Keyed;
      halted := None;
      if Empty(|data|, klstart) {
        return;
      }
      if klstart != 0 && !AtBoundary(g.f, TheCore()) {
        st := Invalid;
        return;
      }
      PutKey();
      var e := AbsorbBits(data, 8 * klstart, |data|, true, halt);
      halted := if e < |data| then Some(e / 8) else None;
    }

    /** The output loop. */
    method Read(klstart: nat, kl: nat, halt: bool) returns (out: Bits, halted: Option<nat>)
      requires Emits(g, State()) && 8 * klstart < kl
      modifies this
      ensures var o := OutFrom(g, old(State()), 8 * klstart, kl, halt, []);
              State() == o.m && out == o.out && halted == o.halted
    {
      hide OutFrom, Squeezed, T, StopsHere, Amount;
      out, halted := [], None;
      var ob := 8 * klstart;
      while ob < kl
        invariant ob < kl && Emits(g, State()) && halted.None?
        invariant OutFrom(g, State(), ob, kl, halt, out) == OutFrom(g, old(State()), 8 * klstart, kl, halt, [])
        decreases kl - ob
      {
        ghost var m := State();
        ghost var turn := OutTurn(g, m, ob, kl, halt, out);
        var a := Amount(g, State(), kl - ob, ob, halt);
        var bounded := outl != 0;
        out := out + S[bb..bb + a];
        TakeBits(a);
        ob := ob + a;
        if bounded && outl == 0 {
          st := Success;
          return;
        }
        var full := bb == T(g.f);
        Squeeze();
        if StopsHere(State(), full, ob, kl, halt) {
          halted := Some(ob / 8);
          return;
        }
        if ob >= kl || (st == OutBits && lbl == 0) {
          return;
        }
      }
    }

    method TakeBits(a: nat)
      requires FnOk(g.f) && bb + a <= T(g.f) && (outl != 0 ==> a <= outl) && (st == OutBits ==> a <= lbl)
      modifies this`bb, this`lbl, this`outl
      ensures State() == Taken(g, old(State()), a)
    {
      bb := bb + a;
      if st == OutBits {
        lbl := lbl - a;
      }
      if outl != 0 {
        outl := outl - a;
      }
    }

    method Squeeze()
      requires ConfigOk(g) && |S| == StateLen(g.f) && |blk| == B(g.f) && bb <= T(g.f)
      modifies this`S, this`bb
      ensures TheCore() == Squeezed(g, old(TheCore()))
    {
      if bb == T(g.f) {
        if g.f.Sponge? {
          Compress(false);
        }
        bb := 0;
      }
    }

    method SetAux(form: Form, xs: nat)
      requires Ok(g, State())
      modifies this
      ensures Same(State(), DoSetAux(g, old(State()), form, xs))
    {
      hide Iv;
      if st == Invalid {
        return;
      }
      if st == Ready && g.f.Blake? && form == FormB && AuxOk(g, xs) {
        nn := xs % 256;
        if g.sk.None? {
          kk := xs / 256;
        }
        S := Iv(g.f, kk, nn);
      } else {
        st := Invalid;
      }
    }

    method CompareTag(data: Bits, klstart: nat)
      requires Ok(g, State()) && st == Verify
      modifies this`st
      ensures State() == DoVerify(g, old(State()), data, klstart)
    {
      if !Empty(|data|, klstart) {
        if |data| < tagLen {
          st := Invalid;
        } else {
          st := if Slice(data, 0, tagLen) == Slice(S, 0, tagLen) then Success else Failure;
        }
      }
    }

    method Emit(kl: nat, klstart: nat, halt: bool) returns (out: Bits, halted: Option<nat>)
      requires Ok(g, State()) && (st == Output || st == OutBits) && bb < T(g.f) && (st == OutBits ==> lbl > 0)
      modifies this
      ensures var o := DoOutput(g, old(State()), kl, klstart, halt);
              State() == o.m && out == o.out && halted == o.halted
    {
      hide OutFrom, T;
      out, halted := [], None;
      if Empty(kl, klstart) {
        return;
      }
      if klstart != 0 && bb != 0 && st == Output {
        st := Invalid;
      } else {
        out, halted := Read(klstart, kl, halt);
      }
    }

    method Exec(form: Form, data: Bits, kllen: nat, klstart: nat, halt: bool) returns (out: Bits, halted: Option<nat>)
      requires Readable(g, State()) && |data| % 8 == 0
      modifies this
      ensures var o := DoExec(g, old(State()), form, data, kllen, klstart, halt);
              Same(State(), o.m) && out == o.out && halted == o.halted
    {
      hide DoOutput, DoVerify, DoLast, DoAbsorb, T;
      out, halted := [], None;
      if st == Invalid {
        return;
      }
      var ok := Permitted(g, State());
      if ok && (st == Output || st == OutBits) {
        ok := form == FormC && !(st == OutBits && lbl == 0);
        if ok {
          out, halted := Emit(kllen, klstart, halt);
        }
      } else if ok {
        ok := form == FormB && (st == Verify || st == Last || st == Absorb);
        if ok && st == Verify {
          CompareTag(data, klstart);
        } else if ok && st == Last {
          ok := lbl != 0 && (Empty(|data|, klstart) || (|data| >= lbl && klstart == 0));
          if ok && !Empty(|data|, klstart) {
            TakeLast(data);
          }
        } else if ok {
          halted := TakeData(data, klstart, halt);
        }
      }
      if !ok {
        st := Invalid;
      }
    }

    method Restrict(mask: nat)
      requires Ok(g, State())
      modifies this`policy, this`st
      ensures Same(State(), DoRestrict(g, old(State()), mask))
    {
      if st != Invalid {
        policy := And2(policy, mask);
        if g.key.Some? && policy == 0 {
          st := Invalid;
        }
      }
    }
  }

  /** The same locker, where everything in an invalid one is forgotten. */
  ghost predicate Same(a: Hash, b: Hash) {
    a == b || (a.st == Invalid && b.st == Invalid)
  }

  lemma PadRoom(f: Fn, bb: nat)
    requires FnOk(f) && f.Sponge? && bb < f.rate
    ensures |f.D| + 2 <= PadLen(f, bb) && f.rate - bb <= PadLen(f, bb) <= f.rate - bb + 1600
  {
  }

  lemma PlaceBound(f: Fn, c: Core)
    requires CoreOk(f, c) && f.Md?
    ensures c.bb < B(f) && 0 < 2 * f.w < B(f) && CoreOk(f, PutAll(f, c, ZeroByte()))
  {
  }
}
