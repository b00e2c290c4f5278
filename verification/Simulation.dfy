/** What every step of the builder keeps: sizes and counters agree with the packets built,
    and the server's decoder is in the builder's own context after every command. */
module Simulation {
  import opened Words
  import opened Protocol
  import opened Semantics
  import opened Encoder

  /** Write index and packet start are the lengths of the words they stand for. */
  ghost predicate SizesOk(st: Enc) {
    st.hdr == StreamLen(st.closed) && st.wi == st.hdr + 3 + CmdsLen(st.cmds)
  }

  lemma FinalizeSizes(st: Enc)
    requires SizesOk(st)
    ensures SizesOk(Finalize(st))
  {
    var p := OpenPacket(st);
    StreamAppend(st.closed, [p]);
    assert StreamLen([p]) == PacketLen(p) by { assert [p][1..] == []; }
  }

  lemma CmdsLen1(c: Cmd)
    ensures CmdsLen([c]) == CmdLen(c)
  {
    assert [c][1..] == [];
  }

  lemma BaseBelow(addr: nat)
    ensures addr / TWO16 * TWO16 < TWO32 <==> addr < TWO32
  {}

  lemma CtxCmdsLen(ctx: Ctx, a: Access)
    ensures 4 * CmdsLen(CtxCmds(ctx, a)) == CtxBytes(ctx, a)
  {
    var m := if a.am != ctx.am then [SetMap(a.am)] else [];
    var d := if a.mode != ctx.mode then [SetMode(a.mode)] else [];
    var b := if NeedsBase(ctx, a.addr) then [SetBase(BaseOf(ctx, a.addr))] else [];
    BaseBelow(a.addr);
    CmdsAppend(m + d, b);
    CmdsAppend(m, d);
    CmdsLen1(SetMap(a.am));
    CmdsLen1(SetMode(a.mode));
    CmdsLen1(SetBase(BaseOf(ctx, a.addr)));
  }

  lemma CmdsLenMore(cmds: seq<Cmd>, cc: seq<Cmd>, c: Cmd)
    ensures CmdsLen(cmds + cc + [c]) == CmdsLen(cmds) + CmdsLen(cc) + CmdLen(c)
  {
    hide CmdLen;
    CmdsAppend(cmds + cc, [c]);
    CmdsAppend(cmds, cc);
    CmdsLen1(c);
  }

  lemma CmdLenSame(kind: Kind, offset: nat, n: nat, data: seq<byte>)
    ensures CmdLen(Rw(kind, offset, n, data)) == CmdLen(Rw(kind, 0, n, []))
  {}

  lemma EmitSizes(cfg: Config, st: Enc, p: Trans)
    requires SizesOk(st)
    ensures SizesOk(Emit(cfg, st, p))
  {
    hide CtxCmds, CtxBytes, BaseOf, OnWire, SetBit, RspBytes, CmdLen, CmdsLen, StreamLen;
    var a := p.acc;
    var c := Rw(a.kind, a.addr % TWO16, a.n, OnWire(cfg, st.wi + CtxBytes(st.ctx, a) / 4, a).data);
    CtxCmdsLen(st.ctx, a);
    CmdsLenMore(st.cmds, CtxCmds(st.ctx, a), c);
    CmdLenSame(a.kind, c.offset, a.n, c.data);
  }

  /** The decoder's state after the open packet's commands: its context is the builder's,
      and the accesses it has seen are the ones sent, one per PL0 record. */
  ghost predicate DecoderOk(st: Enc) {
    && ExecCmds(st.cmds).ctx == st.ctx
    && |ExecCmds(st.cmds).accs| == st.num
    && st.wire == StreamAccesses(st.closed) + ExecCmds(st.cmds).accs
    && |st.wire| == |st.pl0|
    && st.ctx.base % TWO16 == 0 && st.ctx.base < TWO64
  }

  lemma StreamAccesses1(p: Packet)
    ensures StreamAccesses([p]) == Accesses(p)
  {
    assert [p][1..] == [];
  }

  lemma FinalizeDecoder(st: Enc)
    requires DecoderOk(st)
    ensures DecoderOk(Finalize(st))
  {
    StreamAccessesAppend(st.closed, [OpenPacket(st)]);
    StreamAccesses1(OpenPacket(st));
    assert Accesses(OpenPacket(st)) == ExecCmds(st.cmds).accs;
  }

  lemma AppendOpt(cmds: seq<Cmd>, c: bool, cmd: Cmd)
    ensures ExecCmds(cmds + (if c then [cmd] else [])) == if c then StepCmd(ExecCmds(cmds), cmd) else ExecCmds(cmds)
  {
    if c {
      ExecAppend(cmds, cmd);
    } else {
      assert cmds + [] == cmds;
    }
  }

  /** The context commands bring the decoder to the access's map, mode and base. */
  lemma CtxExec(cmds: seq<Cmd>, a: Access)
    ensures var x := ExecCmds(cmds);
      ExecCmds(cmds + CtxCmds(x.ctx, a)) == Exec(Ctx(a.am, a.mode, BaseOf(x.ctx, a.addr)), x.accs)
  {
    var ctx := ExecCmds(cmds).ctx;
    var m := if a.am != ctx.am then [SetMap(a.am)] else [];
    var d := if a.mode != ctx.mode then [SetMode(a.mode)] else [];
    var b := if NeedsBase(ctx, a.addr) then [SetBase(BaseOf(ctx, a.addr))] else [];
    hide ExecCmds, NeedsBase;
    AppendOpt(cmds, a.am != ctx.am, SetMap(a.am));
    AppendOpt(cmds + m, a.mode != ctx.mode, SetMode(a.mode));
    AppendOpt(cmds + m + d, NeedsBase(ctx, a.addr), SetBase(BaseOf(ctx, a.addr)));
    assert cmds + CtxCmds(ctx, a) == cmds + m + d + b;
  }

  /** Base plus the 16-bit offset rebuilds the full address. */
  lemma BaseOffset(ctx: Ctx, addr: nat)
    requires ctx.base % TWO16 == 0 && addr < TWO64
    ensures var b := BaseOf(ctx, addr);
      b % TWO16 == 0 && b <= addr && b + addr % TWO16 == addr
  {
    if !NeedsBase(ctx, addr) {
      assert ctx.base == ctx.base / TWO16 * TWO16;
      assert addr / TWO16 == ctx.base / TWO16;
    }
  }

  lemma EmitDecoder(cfg: Config, st: Enc, p: Trans)
    requires DecoderOk(st) && p.acc.addr < TWO64
    ensures DecoderOk(Emit(cfg, st, p))
  {
    var a := p.acc;
    var s := Emit(cfg, st, p);
    var c := s.cmds[|s.cmds| - 1];
    CtxExec(st.cmds, a);
    ExecAppend(st.cmds + CtxCmds(st.ctx, a), c);
    BaseOffset(st.ctx, a.addr);
    var w := s.wire[|st.wire|];
    assert ExecCmds(s.cmds) == Exec(s.ctx, ExecCmds(st.cmds).accs + [w]);
    assert s.wire == StreamAccesses(st.closed) + (ExecCmds(st.cmds).accs + [w]);
  }

  /** Commands and counters fit their fields. */
  ghost predicate FieldsOk(st: Enc) {
    && ValidCmds(st.cmds) && st.mask < TWO16 && st.last < TWO16
    && forall i :: 0 <= i < |st.closed| ==>
        ValidCmds(st.closed[i].cmds) && st.closed[i].cnt < TWO16 && st.closed[i].mask < TWO16 && st.closed[i].numRw < TWO16
  }

  lemma FinalizeFields(st: Enc)
    requires FieldsOk(st)
    ensures FieldsOk(Finalize(st))
  {}

  function Pow2(k: nat): nat {
    if k == 0 then 1 else 2 * Pow2(k - 1)
  }

  lemma {:induction false} SetBitBound(m: nat, i: nat, k: nat)
    requires m < Pow2(k) && i < k
    ensures SetBit(m, i) < Pow2(k)
  {
    if i != 0 {
      SetBitBound(m / 2, i - 1, k - 1);
    }
  }

  lemma Powers()
    ensures Pow2(16) == TWO16 && Pow2(12) == 0x1000
  {
    assert Pow2(4) == 16;
    assert Pow2(8) == 256;
    assert Pow2(12) == 4096;
  }

  lemma CtxCmdsValid(ctx: Ctx, a: Access)
    requires a.am < 16 && a.mode < TWO16 && a.addr < TWO64 && ctx.base % TWO16 == 0
    ensures ValidCmds(CtxCmds(ctx, a))
  {
    BaseOffset(ctx, a.addr);
  }

  lemma EmitFields(cfg: Config, st: Enc, p: Trans)
    requires FieldsOk(st) && DecoderOk(st) && ValidPiece(p)
    ensures FieldsOk(Emit(cfg, st, p))
  {
    CtxCmdsValid(st.ctx, p.acc);
    Powers();
    SetBitBound(st.mask, p.acc.am, 16);
  }

  /** The predicted reply size is that of an error-free reply, per packet and in all. */
  function AccsRsp(accs: seq<Access>): nat {
    if accs == [] then 0 else AccsRsp(accs[..|accs| - 1]) + RspBytes(accs[|accs| - 1].kind, accs[|accs| - 1].n)
  }

  /** PL2 length, START, the accesses' replies, END. */
  function PacketRsp(p: Packet): nat {
    12 + AccsRsp(Accesses(p))
  }

  function StreamRsp(ps: seq<Packet>): nat {
    if ps == [] then 0 else StreamRsp(ps[..|ps| - 1]) + PacketRsp(ps[|ps| - 1])
  }

  ghost predicate ReplyOk(st: Enc) {
    st.rspStart == StreamRsp(st.closed) && st.rsp == st.rspStart + 8 + AccsRsp(ExecCmds(st.cmds).accs)
  }

  lemma FinalizeReply(st: Enc)
    requires ReplyOk(st)
    ensures ReplyOk(Finalize(st))
  {
    var ps := Packets(st);
    assert ps[..|ps| - 1] == st.closed;
  }

  lemma EmitReply(cfg: Config, st: Enc, p: Trans)
    requires ReplyOk(st) && DecoderOk(st)
    ensures ReplyOk(Emit(cfg, st, p))
  {
    var s := Emit(cfg, st, p);
    var c := s.cmds[|s.cmds| - 1];
    CtxExec(st.cmds, p.acc);
    ExecAppend(st.cmds + CtxCmds(st.ctx, p.acc), c);
    var accs := ExecCmds(s.cmds).accs;
    assert accs[..|accs| - 1] == ExecCmds(st.cmds).accs;
  }

  /** PL1 counts are consecutive modulo 2^16, from the one after cnt0. */
  ghost predicate CountsOk(cnt0: nat, st: Enc) {
    && st.last == (cnt0 + |st.closed|) % TWO16
    && forall i :: 0 <= i < |st.closed| ==> st.closed[i].cnt == (cnt0 + i + 1) % TWO16
  }

  lemma NextMod(x: nat)
    ensures NextCnt(x % TWO16) == (x + 1) % TWO16
  {}

  lemma FinalizeCounts(cnt0: nat, st: Enc)
    requires CountsOk(cnt0, st)
    ensures CountsOk(cnt0, Finalize(st))
  {
    assert NextCnt(st.last) == (cnt0 + |st.closed| + 1) % TWO16;
  }

  /** END of a closed packet carries the number of accesses of the request so far, in 16 bits. */
  ghost predicate TotalsOk(st: Enc) {
    forall i :: 0 <= i < |st.closed| ==> st.closed[i].numRw == |StreamAccesses(st.closed[..i + 1])| % TWO16
  }

  lemma FinalizeTotals(st: Enc)
    requires TotalsOk(st) && DecoderOk(st)
    ensures TotalsOk(Finalize(st))
  {
    hide StreamAccesses, ExecCmds;
    var ps, n := Packets(st), |st.closed|;
    FinalizeDecoder(st);
    forall i | 0 <= i < |ps| ensures ps[i].numRw == |StreamAccesses(ps[..i + 1])| % TWO16 {
      if i < n {
        assert ps[..i + 1] == st.closed[..i + 1];
      } else {
        assert ps[..i + 1] == ps && ExecCmds([]).accs == [] by { NoneExecuted(); }
      }
    }
  }

  lemma NoneExecuted()
    ensures ExecCmds([]) == Exec(CTX0, [])
  {}

  // ---- Address maps of a packet ----

  ghost function Maps(accs: seq<Access>): set<nat> {
    set i | 0 <= i < |accs| :: accs[i].am
  }

  ghost predicate MaskIs(mask: nat, accs: seq<Access>) {
    forall i: nat :: TestBit(mask, i) <==> i in Maps(accs)
  }

  /** Maps 12 to 15 are used alone, the others may be mixed. */
  ghost predicate Disciplined(accs: seq<Access>) {
    (forall a :: a in Maps(accs) ==> a < 12) || (exists a :: Maps(accs) == {a})
  }

  ghost predicate FrameOk(mask: nat, accs: seq<Access>, maxRw: nat) {
    MaskIs(mask, accs) && Disciplined(accs) && |accs| <= (if maxRw == 0 then 1 else maxRw)
  }

  ghost predicate FramesOk(cfg: Config, st: Enc) {
    && FrameOk(st.mask, ExecCmds(st.cmds).accs, cfg.maxRw)
    && forall i :: 0 <= i < |st.closed| ==> FrameOk(st.closed[i].mask, Accesses(st.closed[i]), cfg.maxRw)
  }

  lemma {:induction false} SetBitTest(m: nat, i: nat, j: nat)
    ensures TestBit(SetBit(m, i), j) <==> i == j || TestBit(m, j)
    decreases i
  {
    if i == 0 {
    } else if j == 0 {
    } else {
      SetBitTest(m / 2, i - 1, j - 1);
      assert SetBit(m, i) / 2 == SetBit(m / 2, i - 1);
    }
  }

  lemma {:induction false} ZeroTest(j: nat)
    ensures !TestBit(0, j)
  {
    if j != 0 {
      ZeroTest(j - 1);
    }
  }

  lemma {:induction false} BitBound(m: nat, i: nat, k: nat)
    requires m < Pow2(k) && TestBit(m, i)
    ensures i < k
  {
    if k == 0 {
      ZeroTest(i);
    } else if i != 0 {
      BitBound(m / 2, i - 1, k - 1);
    }
  }

  lemma {:induction false} SetBitTwice(m: nat, i: nat)
    ensures SetBit(SetBit(m, i), i) == SetBit(m, i)
  {
    if i != 0 {
      SetBitTwice(m / 2, i - 1);
      assert SetBit(m, i) / 2 == SetBit(m / 2, i - 1);
    }
  }

  /** Once an access to map am is in, another one may follow. */
  lemma RulesKept(mask: nat, am: nat)
    requires Rules(mask, am)
    ensures Rules(SetBit(mask, am), am)
  {
    SetBitTwice(0, am);
    Powers();
    if am < 12 && mask < 0x1000 {
      SetBitBound(mask, am, 12);
    }
  }

  lemma MapsAppend(accs: seq<Access>, a: Access)
    ensures Maps(accs + [a]) == Maps(accs) + {a.am}
  {
    var all := accs + [a];
    forall m | m in Maps(accs) + {a.am} ensures m in Maps(all) {
      if m in Maps(accs) {
        var i :| 0 <= i < |accs| && accs[i].am == m;
        assert all[i].am == m;
      } else {
        assert all[|accs|].am == m;
      }
    }
  }

  lemma FrameStep(mask: nat, accs: seq<Access>, a: Access)
    requires MaskIs(mask, accs) && Disciplined(accs) && Rules(mask, a.am)
    ensures MaskIs(SetBit(mask, a.am), accs + [a]) && Disciplined(accs + [a])
  {
    MapsAppend(accs, a);
    forall j: nat ensures TestBit(SetBit(mask, a.am), j) <==> j in Maps(accs + [a]) {
      SetBitTest(mask, a.am, j);
    }
    if mask == 0 || mask == SetBit(0, a.am) {
      forall j: nat ensures j in Maps(accs) ==> j == a.am {
        ZeroTest(j);
        SetBitTest(0, a.am, j);
      }
      assert Maps(accs + [a]) == {a.am};
    } else {
      Powers();
      forall j | j in Maps(accs) ensures j < 12 {
        BitBound(mask, j, 12);
      }
    }
  }

  /** The rules refuse no access that would keep the frame disciplined. */
  lemma RulesExactly(mask: nat, accs: seq<Access>, a: Access)
    requires MaskIs(mask, accs) && Disciplined(accs)
    ensures Rules(mask, a.am) <==> Disciplined(accs + [a])
  {
    if Rules(mask, a.am) {
      FrameStep(mask, accs, a);
    } else {
      MapsAppend(accs, a);
      MaskZero(mask);
      var m: nat :| TestBit(mask, m);
      assert m in Maps(accs) && {m, a.am} <= Maps(accs + [a]);
      if forall x :: x in Maps(accs) ==> x == a.am {
        forall j: nat ensures TestBit(mask, j) <==> TestBit(SetBit(0, a.am), j) {
          ZeroTest(j);
          SetBitTest(0, a.am, j);
        }
        SameBits(mask, SetBit(0, a.am));
      } else if a.am < 12 {
        if forall y :: y in Maps(accs) ==> y < 12 {
          forall j: nat | TestBit(mask, j) ensures j < 12 {
            assert j in Maps(accs);
          }
          BitsBelow(mask, 12);
          Powers();
        }
      }
    }
  }

  /** A mask other than 0 has a bit. */
  lemma {:induction false} MaskZero(mask: nat)
    requires mask != 0
    ensures exists i: nat :: TestBit(mask, i)
    decreases mask
  {
    if mask % 2 == 1 {
      assert TestBit(mask, 0);
    } else {
      MaskZero(mask / 2);
      var i: nat :| TestBit(mask / 2, i);
      assert TestBit(mask, i + 1);
    }
  }

  lemma {:induction false} SameBits(a: nat, b: nat)
    requires forall j: nat :: TestBit(a, j) <==> TestBit(b, j)
    ensures a == b
    decreases a + b
  {
    assert TestBit(a, 0) <==> TestBit(b, 0);
    if a != 0 || b != 0 {
      forall j: nat ensures TestBit(a / 2, j) <==> TestBit(b / 2, j) {
        assert TestBit(a, j + 1) <==> TestBit(b, j + 1);
      }
      SameBits(a / 2, b / 2);
    }
  }

  lemma {:induction false} BitsBelow(mask: nat, k: nat)
    requires forall j: nat :: TestBit(mask, j) ==> j < k
    ensures mask < Pow2(k)
    decreases k
  {
    if k == 0 {
      if mask != 0 {
        MaskZero(mask);
      }
    } else {
      forall j: nat | TestBit(mask / 2, j) ensures j < k - 1 {
        assert TestBit(mask, j + 1);
      }
      BitsBelow(mask / 2, k - 1);
    }
  }

  lemma EmptyFrame(maxRw: nat)
    ensures FrameOk(0, [], maxRw)
  {
    forall i: nat ensures !TestBit(0, i) {
      ZeroTest(i);
    }
  }

  lemma FinalizeFrames(cfg: Config, st: Enc)
    requires FramesOk(cfg, st)
    ensures FramesOk(cfg, Finalize(st))
  {
    EmptyFrame(cfg.maxRw);
  }

  lemma EmitFrames(cfg: Config, st: Enc, p: Trans)
    requires FramesOk(cfg, st) && DecoderOk(st) && Rules(st.mask, p.acc.am)
    requires st.num < cfg.maxRw || st.num == 0
    ensures FramesOk(cfg, Emit(cfg, st, p))
  {
    var s := Emit(cfg, st, p);
    var c := s.cmds[|s.cmds| - 1];
    CtxExec(st.cmds, p.acc);
    ExecAppend(st.cmds + CtxCmds(st.ctx, p.acc), c);
    var accs := ExecCmds(st.cmds).accs;
    var w := ExecCmds(s.cmds).accs[|accs|];
    FrameStep(st.mask, accs, w);
  }
}
