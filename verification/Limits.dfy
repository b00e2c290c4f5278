/** Packet limits, the rules on address maps, and where the builder does not keep its promises. */
module Limits {
  import opened Words
  import opened Protocol
  import opened Semantics
  import opened Encoder
  import opened Tiling
  import opened Simulation
  import opened Invariant
  import opened Request
  import opened Compiler

  // ---- Where the configuration comes from ----

  const MAX_PL2_PKT: nat := 0x1_0008
  const PKT_BUF_SIZE: nat := 0x1_0000
  const BUF_ALLOWANCE: nat := 64

  /** Packet limits a ping or session reply may announce. */
  predicate PingAccepts(maxRq: nat, maxRsp: nat) {
    && maxRq % 4 == 0 && MIN_PKT <= maxRq <= MAX_PL2_PKT
    && maxRsp % 4 == 0 && MIN_PKT <= maxRsp <= MAX_PL2_PKT
  }

  /** The handler's configuration with its default buffers. */
  function DefaultConfig(maxRq: nat, maxRsp: nat, maxRw: nat, stale: nat -> byte): Config {
    Config(maxRq, maxRsp, maxRw, (PKT_BUF_SIZE - BUF_ALLOWANCE) / 4, PKT_BUF_SIZE - BUF_ALLOWANCE, maxRw, stale)
  }

  ghost predicate GoodFrame(cfg: Config, cnt: nat, p: Packet) {
    && (forall m: nat :: TestBit(p.mask, m) <==> m in Maps(Accesses(p)))
    && Disciplined(Accesses(p))
    && |Accesses(p)| <= (if cfg.maxRw == 0 then 1 else cfg.maxRw)
    && p.cnt == cnt
  }

  lemma FrameAt(cfg: Config, cnt0: nat, st: Enc, i: nat)
    requires FramesOk(cfg, st) && CountsOk(cnt0, st) && DecoderOk(st) && i <= |st.closed|
    ensures GoodFrame(cfg, (cnt0 + i + 1) % TWO16, Packets(st)[i])
    ensures |Accesses(Packets(st)[|st.closed|])| == st.num
  {
    hide ExecCmds, Disciplined, Maps, TestBit, NextCnt;
    var p := Packets(st)[i];
    NextMod(cnt0 + |st.closed|);
    if i < |st.closed| {
      assert p == st.closed[i];
    }
    assert FrameOk(p.mask, Accesses(p), cfg.maxRw);
  }

  lemma TotalAt(st: Enc, i: nat)
    requires TotalsOk(st) && DecoderOk(st) && i < |Packets(st)|
    ensures Packets(st)[i].numRw == |StreamAccesses(Packets(st)[..i + 1])| % TWO16
  {
    hide StreamAccesses, ExecCmds;
    FinalizeTotals(st);
    assert Finalize(st).closed == Packets(st);
  }

  /** Every frame of an accepted request: the START mask is exactly the set of maps used, maps 12 to
      15 are used alone, the access count respects the limit, PL1 counts are consecutive modulo 2^16,
      END carries the number of accesses of all frames so far, and the last frame holds an access. */
  lemma FramesDisciplined(cfg: Config, last: nat, ts: seq<Trans>, i: nat)
    requires Legal(cfg) && last < TWO16 && ValidAll(ts) && SetTrans(cfg, last, ts).ok
    requires i < |Packets(SetTrans(cfg, last, ts).st)|
    ensures var ps := Packets(SetTrans(cfg, last, ts).st);
      && GoodFrame(cfg, (last + i + 1) % TWO16, ps[i])
      && ps[i].numRw == |StreamAccesses(ps[..i + 1])| % TWO16
      && Accesses(ps[|ps| - 1]) != []
  {
    var st := SetTrans(cfg, last, ts).st;
    SetTransInv(cfg, last, true, ts);
    hide *;
    InvParts(cfg, last, st);
    PacketsCount(st);
    FrameAt(cfg, last, st, i);
    TotalAt(st, i);
  }

  lemma AddZero(a: nat, b: nat)
    ensures (a + b) % TWO16 == b % TWO16 <==> a % TWO16 == 0
  {}

  /** END carries the frame's own number of accesses exactly if those of the frames before it add up to
      a multiple of 2^16: for requests of a size that can occur, only in the first frame. */
  lemma EndCountExactly(cfg: Config, last: nat, ts: seq<Trans>, i: nat)
    requires Legal(cfg) && last < TWO16 && ValidAll(ts) && SetTrans(cfg, last, ts).ok
    requires i < |Packets(SetTrans(cfg, last, ts).st)|
    ensures var ps := Packets(SetTrans(cfg, last, ts).st);
      ps[i].numRw == |Accesses(ps[i])| % TWO16 <==> |StreamAccesses(ps[..i])| % TWO16 == 0
  {
    hide *;
    var ps := Packets(SetTrans(cfg, last, ts).st);
    FramesDisciplined(cfg, last, ts, i);
    assert ps[..i + 1] == ps[..i] + [ps[i]];
    StreamAccessesAppend(ps[..i], [ps[i]]);
    StreamAccesses1(ps[i]);
    AddZero(|StreamAccesses(ps[..i])|, |Accesses(ps[i])|);
  }

  lemma PacketsCount(st: Enc)
    ensures |Packets(st)| == |st.closed| + 1
  {}

  lemma {:induction false} StreamRspAt(ps: seq<Packet>, p: Packet)
    ensures StreamRsp(ps + [p]) == StreamRsp(ps) + PacketRsp(p)
  {
    assert (ps + [p])[..|ps|] == ps;
  }

  /** Request packets respect the limit when it is at least 1060 bytes, with fills up to 4 bytes more;
      reply packets respect it always, and the predicted reply size is exact. */
  lemma PacketSizes(cfg: Config, last: nat, fills: bool, ts: seq<Trans>, i: nat)
    requires Legal(cfg) && last < TWO16 && ValidAll(ts) && FillsIn(ts, fills) && SetTrans(cfg, last, ts).ok
    requires i < |Packets(SetTrans(cfg, last, ts).st)|
    ensures var st := SetTrans(cfg, last, ts).st; var p := Packets(st)[i];
      && 4 * PacketLen(p) <= Cap(cfg, fills)
      && (RqLimit(cfg) >= 1060 && !fills ==> 4 * PacketLen(p) <= RqLimit(cfg))
      && PacketRsp(p) <= RspLimit(cfg)
      && StreamRsp(Packets(st)) == RspSize(st)
  {
    var st := SetTrans(cfg, last, ts).st;
    SetTransInv(cfg, last, fills, ts);
    InvParts(cfg, last, st);
    PacketsValid(cfg, last, fills, st);
    hide SetTrans, Inv, ValidStream, GroupsOk;
    var ps := Packets(st);
    StreamRspAt(st.closed, OpenPacket(st));
    if i < |st.closed| {
      assert ps[i] == st.closed[i];
    } else {
      assert Accesses(ps[i]) == ExecCmds(st.cmds).accs;
    }
  }

  lemma AlignedEnds(t: Trans)
    requires t.acc.n % 8 == 0 && t.acc.addr % 8 == 0
    ensures HeadActs(t) == [] && HeadEnd(t) == 0 && TailActs(t) == []
  {
    assert !HeadCut(t, 0, 1) && !HeadCut(t, 0, 2) && !HeadCut(t, 0, 4);
    hide HeadCut;
    assert BlocksEnd(t) == t.acc.n;
  }

  lemma SubAll(t: Trans)
    requires ValidData(t.acc.kind, t.acc.n, t.acc.data)
    ensures Sub(t, 0, t.acc.n) == t
  {}

  lemma OneRound(cfg: Config, s: Enc, t: Trans)
    requires Legal(cfg) && Sane(s) && ValidTrans(t) && 8 <= t.acc.n && t.acc.n % 8 == 0
    requires Blk(cfg, s, t.acc.kind, t.acc.n, t.acc.addr) == t.acc.n
    ensures Blocks(cfg, s, t, 0) == [Add(t)]
  {
    BlkRoundProgress(cfg, s, t, 0);
    SubAll(t);
    hide Blk, Apply, Sub, ValidTrans, Legal, Sane;
    assert BlkRound(t, 0, t.acc.n) == [Add(t)];
  }

  lemma AlignedLadder(cfg: Config, s: Enc, t: Trans)
    requires Legal(cfg) && Sane(s) && ValidTrans(t)
    requires 8 <= t.acc.n && t.acc.n % 8 == 0 && t.acc.addr % 8 == 0
    requires Blk(cfg, s, t.acc.kind, t.acc.n, t.acc.addr) == t.acc.n
    ensures Ladder(cfg, s, t) == [Add(t)]
  {
    AlignedEnds(t);
    OneRound(cfg, s, t);
    hide Blk, Blocks, HeadActs, TailActs, HeadEnd, Legal, ValidTrans;
    assert Apply(cfg, s, []) == s;
  }

  // ---- The request limit below 1060 bytes ----

  function BigBlock(cfg: Config): nat
    requires Legal(cfg)
  {
    Min(RqLimit(cfg) - 28, BLK_SIZE) / 8 * 8
  }

  /** A block write that needs every context command and as much data as the builder allows. */
  function BigWrite(cfg: Config): (t: Trans)
    requires Legal(cfg)
    ensures |t.acc.data| == t.acc.n
  {
    var n := BigBlock(cfg);
    Trans(Access(Write, 1, 1, TWO32, n, seq(n, _ => 0)), 0)
  }

  predicate Fresh(s: Enc) {
    s.wi == s.hdr + 3 && s.rsp == s.rspStart + 8 && s.ctx == CTX0 && s.num == 0
  }

  /** A fresh packet takes a block. */
  lemma FreshTakes(cfg: Config, s: Enc, kind: Kind, nb: nat, addr: nat)
    requires Legal(cfg) && s.wi == s.hdr + 3 && s.rsp == s.rspStart + 8 && nb >= 8
    ensures Blk(cfg, s, kind, nb, addr) > 0
  {}

  lemma FinsFresh(cfg: Config, first: seq<Act>)
    requires first == [] || first == [Fin]
    ensures var s := Apply(cfg, Start(0), first); Fresh(s) && s.mask == 0
  {
    if first == [Fin] {
      assert first[1..] == [];
    }
  }

  lemma BigFits(cfg: Config, s: Enc)
    requires Legal(cfg) && Fresh(s) && s.mask == 0
    ensures !NewPacket(cfg, s, BigWrite(cfg), 1)
  {}

  lemma BigAdmitted(cfg: Config)
    requires Legal(cfg)
    ensures Admitted(cfg, Start(0), BigWrite(cfg))
    ensures ValidTrans(BigWrite(cfg)) && Mapped(BigWrite(cfg)) == BigWrite(cfg)
  {}

  lemma BigOpening(cfg: Config)
    requires Legal(cfg)
    ensures Fresh(Apply(cfg, Start(0), Opening(cfg, Start(0), BigWrite(cfg))))
  {
    hide Manageable, NewPacket, BigWrite, Apply, Start, Legal;
    var t := BigWrite(cfg);
    var first := FinIf(!Manageable(cfg, Start(0), t));
    var s := Apply(cfg, Start(0), first);
    FinsFresh(cfg, first);
    BigFits(cfg, s);
    BigAdmitted(cfg);
    assert t.acc.am == 1 by { BigMap(cfg); }
    assert Opening(cfg, Start(0), t) == first + [];
    assert first + [] == first;
  }

  lemma BigMap(cfg: Config)
    requires Legal(cfg)
    ensures BigWrite(cfg).acc.am == 1 && BigWrite(cfg).acc.kind == Write
  {}

  lemma BigLadder(cfg: Config, s: Enc)
    requires Legal(cfg) && RqLimit(cfg) < 1060 && Fresh(s)
    ensures Ladder(cfg, s, BigWrite(cfg)) == [Add(BigWrite(cfg))]
  {
    BigAdmitted(cfg);
    assert WrBlk(cfg, s, BigBlock(cfg), TWO32) == BigBlock(cfg);
    AlignedLadder(cfg, s, BigWrite(cfg));
  }

  lemma BigPacket(cfg: Config, s: Enc)
    requires Legal(cfg) && RqLimit(cfg) < 1060 && Fresh(s)
    ensures var r := AddPiece(cfg, s, BigWrite(cfg));
      4 * (r.wi - r.hdr + 1) > RqLimit(cfg)
  {}

  lemma BigBody(cfg: Config, s: Enc)
    requires Legal(cfg) && RqLimit(cfg) < 1060 && Fresh(s)
    ensures Sane(s) && BodyActs(cfg, s, BigWrite(cfg)) == [Add(BigWrite(cfg))]
  {
    BigMap(cfg);
    BigAdmitted(cfg);
    hide BigWrite, Ladder;
    BigLadder(cfg, s);
  }

  lemma BigCompiled(cfg: Config)
    requires Legal(cfg) && RqLimit(cfg) < 1060
    ensures Sane(Start(0))
    ensures var r := Apply(cfg, Start(0), Compile(cfg, Start(0), BigWrite(cfg)));
      4 * (r.wi - r.hdr + 1) > RqLimit(cfg)
  {
    assert Sane(Start(0));
    hide *;
    var t, s0 := BigWrite(cfg), Start(0);
    var open := Opening(cfg, s0, t);
    var s := Apply(cfg, s0, open);
    BigOpening(cfg);
    BigBody(cfg, s);
    CompileIs(cfg, s0, t);
    ApplyAppend(cfg, s0, open, [Add(t)]);
    BigPacket(cfg, s);
    ApplyOne(cfg, s, t);
  }

  lemma ApplyOne(cfg: Config, s: Enc, t: Trans)
    ensures Apply(cfg, s, [Add(t)]) == AddPiece(cfg, s, t)
  {
    hide AddPiece;
    assert [Add(t)][1..] == [];
  }

  lemma OpenLen(st: Enc)
    requires SizesOk(st)
    ensures PacketLen(Packets(st)[|st.closed|]) == st.wi - st.hdr + 1
  {}

  /** Below 1060 bytes the limit is not kept: one block write exceeds it. */
  lemma BoundFails(cfg: Config)
    requires Legal(cfg) && RqLimit(cfg) < 1060
    ensures var b := SetTrans(cfg, 0, [BigWrite(cfg)]);
      && ValidAll([BigWrite(cfg)]) && FillsIn([BigWrite(cfg)], false)
      && b.ok && 4 * PacketLen(Packets(b.st)[|b.st.closed|]) > RqLimit(cfg)
  {
    var t := BigWrite(cfg);
    BigMap(cfg);
    BigAdmitted(cfg);
    BigCompiled(cfg);
    hide BigWrite, Compile, Apply, RqLimit, PacketLen, Legal, Admitted, SetTrans, Inv, BoundOk, GroupsOk;
    OneTrans(cfg, 0, t);
    var st := SetTrans(cfg, 0, [t]).st;
    SetTransInv(cfg, 0, false, [t]);
    InvParts(cfg, 0, st);
    OpenLen(st);
  }

  /** The request limit is kept by all lists of reads and writes exactly if it is at least 1060. */
  lemma BoundExactly(cfg: Config)
    requires Legal(cfg)
    ensures (forall ts: seq<Trans>, i: nat :: ValidAll(ts) && FillsIn(ts, false) && SetTrans(cfg, 0, ts).ok
              && i < |Packets(SetTrans(cfg, 0, ts).st)|
              ==> 4 * PacketLen(Packets(SetTrans(cfg, 0, ts).st)[i]) <= RqLimit(cfg))
      <==> RqLimit(cfg) >= 1060
  {
    hide SetTrans, Legal, PacketLen, ValidAll, FillsIn, Packets, RqLimit;
    if RqLimit(cfg) >= 1060 {
      forall ts: seq<Trans>, i: nat | ValidAll(ts) && FillsIn(ts, false) && SetTrans(cfg, 0, ts).ok
        && i < |Packets(SetTrans(cfg, 0, ts).st)|
        ensures 4 * PacketLen(Packets(SetTrans(cfg, 0, ts).st)[i]) <= RqLimit(cfg)
      {
        PacketSizes(cfg, 0, false, ts, i);
      }
    } else {
      BoundFails(cfg);
      var b := SetTrans(cfg, 0, [BigWrite(cfg)]);
      assert |b.st.closed| < |Packets(b.st)| by { assert |Packets(b.st)| == |b.st.closed| + 1 by { PacketsCount(b.st); } }
    }
  }

  /** Whatever a server announces, a client that accepts it builds requests under a legal configuration;
      its packets of reads and writes keep to the limit exactly if the announced one is at least 1060. */
  lemma PingLegal(maxRq: nat, maxRsp: nat, maxRw: nat, stale: nat -> byte)
    requires PingAccepts(maxRq, maxRsp)
    ensures var cfg := DefaultConfig(maxRq, maxRsp, maxRw, stale);
      && Legal(cfg)
      && ((forall ts: seq<Trans>, i: nat :: ValidAll(ts) && FillsIn(ts, false) && SetTrans(cfg, 0, ts).ok
              && i < |Packets(SetTrans(cfg, 0, ts).st)|
            ==> 4 * PacketLen(Packets(SetTrans(cfg, 0, ts).st)[i]) <= RqLimit(cfg))
          <==> maxRq >= 1060)
  {
    var cfg := DefaultConfig(maxRq, maxRsp, maxRw, stale);
    assert Legal(cfg) && (RqLimit(cfg) >= 1060 <==> maxRq >= 1060);
    hide *;
    BoundExactly(cfg);
  }

  // ---- Blocks in exclusive maps ----

  /** The longest write block a fresh packet takes; wide: with a 64-bit address, which needs 8 bytes more. */
  function FreshWrBlk(cfg: Config, wide: bool): nat
    requires Legal(cfg)
  {
    Min(Min(cfg.maxRq - 24, RqLimit(cfg) - if wide then 28 else 20), BLK_SIZE) / 8 * 8
  }

  function FreshRdBlk(cfg: Config): nat
    requires Legal(cfg)
  {
    Min(cfg.maxRsp - 24, BLK_SIZE) / 8 * 8
  }

  /** A fresh packet has room for 1 KB, or for every block that can be admitted. */
  predicate WriteRoom(cfg: Config, wide: bool)
    requires Legal(cfg)
  {
    FreshWrBlk(cfg, wide) == BLK_SIZE || FreshWrBlk(cfg, wide) + 24 >= 4 * cfg.rqWiMax
  }

  predicate ReadRoom(cfg: Config)
    requires Legal(cfg)
  {
    FreshRdBlk(cfg) == BLK_SIZE || FreshRdBlk(cfg) + 20 >= cfg.maxRspSize
  }

  predicate Roomy(cfg: Config, wide: bool)
    requires Legal(cfg)
  {
    WriteRoom(cfg, wide) && ReadRoom(cfg)
  }

  /** An 8-aligned read or write of a multiple of 8 up to 1 KB, on an exclusive map; these maps have 32-bit
      addresses only, but the code takes wide ones too. */
  predicate Exclusive(t: Trans, wide: bool) {
    && ValidTrans(t) && !t.acc.kind.Fill? && t.acc.am >= AM12 && (wide || t.acc.addr < TWO32)
    && 8 <= t.acc.n <= BLK_SIZE && t.acc.n % 8 == 0 && t.acc.addr % 8 == 0
  }

  /** A state that may occur: sums with it do not wrap. */
  predicate Sizable(st: Enc) {
    Sane(st) && st.rsp < 0x1000_0000 && 4 * st.wi < 0x1000_0000
  }

  /** What room for writes means in bytes. */
  lemma WriteRoomIs(cfg: Config)
    requires Legal(cfg)
    ensures WriteRoom(cfg, true) <==> RqLimit(cfg) >= 1052
    ensures WriteRoom(cfg, false) <==>
      (cfg.maxRq >= 1048 && RqLimit(cfg) >= 1044) || Min(cfg.maxRq - 24, RqLimit(cfg) - 20) / 8 * 8 + 24 >= 4 * cfg.rqWiMax
    ensures ReadRoom(cfg) <==> cfg.maxRsp >= 1048 || (cfg.maxRsp - 24) / 8 * 8 + 20 >= cfg.maxRspSize
    ensures WriteRoom(cfg, true) ==> WriteRoom(cfg, false)
  {}

  lemma {:induction false} FinsFreshAny(cfg: Config, st: Enc, first: seq<Act>)
    requires first == [Fin]
    ensures Fresh(Apply(cfg, st, first))
  {
    assert first[1..] == [];
  }

  /** After the opening steps the packet is fresh or was found large enough. */
  lemma OpenedRoom(cfg: Config, st: Enc, t: Trans)
    requires Legal(cfg)
    ensures var s := Apply(cfg, st, Opening(cfg, st, t));
      Fresh(s) || !NewPacket(cfg, s, Mapped(t), t.acc.am)
  {
    hide Manageable, NewPacket, Fresh;
    var first := FinIf(!Manageable(cfg, st, t));
    var s := Apply(cfg, st, first);
    var second := FinIf(NewPacket(cfg, s, Mapped(t), t.acc.am));
    ApplyAppend(cfg, st, first, second);
    if NewPacket(cfg, s, Mapped(t), t.acc.am) {
      FinsFreshAny(cfg, s, second);
    }
  }

  lemma Multiple8(n: nat, x: nat)
    requires n % 8 == 0 && n < x / 8 * 8 + 8
    ensures n <= x
  {}

  lemma WholeRead(cfg: Config, s: Enc, t: Trans, am: nat)
    requires Legal(cfg) && ReadRoom(cfg) && Sane(s) && am >= AM12 && t.acc.kind.Read?
    requires 8 <= t.acc.n <= BLK_SIZE && t.acc.n % 8 == 0 && t.acc.n + 12 < cfg.maxRspSize
    requires Fresh(s) || !NewPacket(cfg, s, t, am)
    ensures RdBlk(cfg, s, t.acc.n) == t.acc.n
  {
    assert t.acc.n <= cfg.maxRsp - 24 by {
      if cfg.maxRsp < 1048 {
        Multiple8(t.acc.n, cfg.maxRsp - 24);
      }
    }
    assert t.acc.n + 16 <= cfg.maxRspSize;
    assert RemRsp(cfg, s) >= t.acc.n + 8;
  }

  lemma WriteFits(cfg: Config, n: nat, wide: bool)
    requires Legal(cfg) && WriteRoom(cfg, wide) && n <= BLK_SIZE && n % 8 == 0 && n + 16 < 4 * cfg.rqWiMax
    ensures n <= cfg.maxRq - 24 && n + (if wide then 28 else 20) <= RqLimit(cfg)
  {
    Multiple8(n, Min(Min(cfg.maxRq - 24, RqLimit(cfg) - if wide then 28 else 20), BLK_SIZE));
  }

  lemma WholeWrite(cfg: Config, s: Enc, t: Trans, am: nat, wide: bool)
    requires Legal(cfg) && Sane(s) && am >= AM12 && t.acc.kind.Write? && (wide || t.acc.addr < TWO32)
    requires 8 <= t.acc.n <= BLK_SIZE && t.acc.n % 8 == 0
    requires t.acc.n <= cfg.maxRq - 24 && t.acc.n + (if wide then 28 else 20) <= RqLimit(cfg)
    requires Fresh(s) || !NewPacket(cfg, s, t, am)
    ensures WrBlk(cfg, s, t.acc.n, t.acc.addr) == t.acc.n
  {
    OpenRoom(cfg, s, t, am);
    hide RemRq, Fresh, NewPacket, Sane, WrBlk;
    assert RqLimit(cfg) < TWO32;
    BlkFits(cfg, s, t.acc.n, t.acc.addr);
  }

  lemma OpenRoom(cfg: Config, s: Enc, t: Trans, am: nat)
    requires Legal(cfg) && Sane(s) && am >= AM12 && t.acc.kind.Write? && t.acc.n <= BLK_SIZE && t.acc.n % 8 == 0
    requires Fresh(s) || !NewPacket(cfg, s, t, am)
    ensures RemRq(cfg, s) <= RqLimit(cfg) && (RemRq(cfg, s) == RqLimit(cfg) - 12 || RemRq(cfg, s) >= t.acc.n + 32)
  {}

  lemma BlkFits(cfg: Config, s: Enc, n: nat, addr: nat)
    requires 8 <= n <= BLK_SIZE && n % 8 == 0 && n + 24 <= cfg.maxRq
    requires n + (if addr >= TWO32 then 16 else 8) <= RemRq(cfg, s) < TWO32
    ensures WrBlk(cfg, s, n, addr) == n
  {
    hide RemRq;
  }

  /** Is the payload of an admitted transaction less than what the buffers hold? */
  predicate Within(cfg: Config, t: Trans) {
    if t.acc.kind.Read? then t.acc.n + 12 < cfg.maxRspSize else t.acc.n + 16 < 4 * cfg.rqWiMax
  }

  /** A block that may not be split fits the packet the opening steps leave. */
  lemma WholeBlock(cfg: Config, s: Enc, t: Trans, am: nat, wide: bool)
    requires Legal(cfg) && Roomy(cfg, wide) && Sane(s) && am >= AM12 && !t.acc.kind.Fill? && (wide || t.acc.addr < TWO32)
    requires 8 <= t.acc.n <= BLK_SIZE && t.acc.n % 8 == 0 && Within(cfg, t)
    requires Fresh(s) || !NewPacket(cfg, s, t, am)
    ensures Blk(cfg, s, t.acc.kind, t.acc.n, t.acc.addr) == t.acc.n
  {
    hide RdBlk, WrBlk, NewPacket, Fresh, WriteRoom, ReadRoom, Legal, Sane;
    if t.acc.kind.Read? {
      WholeRead(cfg, s, t, am);
    } else {
      WriteFits(cfg, t.acc.n, wide);
      WholeWrite(cfg, s, t, am, wide);
    }
  }

  lemma AdmittedWithin(cfg: Config, st: Enc, t: Trans)
    requires Sizable(st) && Admitted(cfg, st, t) && !t.acc.kind.Fill? && t.acc.n <= BLK_SIZE
    ensures Within(cfg, t)
  {}

  lemma ExclusiveParts(t: Trans, wide: bool)
    requires Exclusive(t, wide)
    ensures var m := Mapped(t);
      && ValidTrans(m) && !m.acc.kind.Fill? && t.acc.am >= AM12 && (wide || m.acc.addr < TWO32)
      && 8 <= m.acc.n <= BLK_SIZE && m.acc.n % 8 == 0 && m.acc.addr % 8 == 0
      && m.acc.n == t.acc.n && m.acc.kind == t.acc.kind && !t.acc.kind.Fill?
  {}

  lemma ExclusiveWhole(cfg: Config, st: Enc, t: Trans, wide: bool)
    requires Legal(cfg) && Roomy(cfg, wide) && Sizable(st) && Exclusive(t, wide) && Admitted(cfg, st, t)
    ensures Sane(st) && Pieces(Compile(cfg, st, t)) == [Mapped(t)]
  {
    SizableSane(st);
    ExclusiveParts(t, wide);
    hide *;
    var m := Mapped(t);
    var open := Opening(cfg, st, t);
    var s := Apply(cfg, st, open);
    CompileIs(cfg, st, t);
    OpenedRoom(cfg, st, t);
    OpeningPieces(cfg, st, t);
    AdmittedWithin(cfg, st, t);
    WithinSame(cfg, t, m);
    WholeBlock(cfg, s, m, t.acc.am, wide);
    AlignedLadder(cfg, s, m);
    LadderBody(cfg, s, t);
    PrefixFree(open, [Add(m)]);
    OnePiece(m);
  }

  lemma WithinSame(cfg: Config, t: Trans, m: Trans)
    requires Within(cfg, t) && m.acc.n == t.acc.n && m.acc.kind == t.acc.kind
    ensures Within(cfg, m)
  {}

  lemma LadderBody(cfg: Config, s: Enc, t: Trans)
    requires Legal(cfg) && Sane(s) && !t.acc.kind.Fill?
    ensures BodyActs(cfg, s, t) == Ladder(cfg, s, Mapped(t))
  {}

  lemma OnePiece(p: Trans)
    requires p.acc.n >= 8
    ensures Pieces([Add(p)]) == [p]
  {
    assert [Add(p)][1..] == [];
  }

  /** The first block of an aligned transfer is smaller than the transfer: it is split. */
  lemma SplitLadder(cfg: Config, s: Enc, t: Trans)
    requires Legal(cfg) && Sane(s) && ValidTrans(t) && t.acc.n >= 8 && t.acc.n % 8 == 0 && t.acc.addr % 8 == 0
    requires 0 < Blk(cfg, s, t.acc.kind, t.acc.n, t.acc.addr) < t.acc.n
    ensures Pieces(Ladder(cfg, s, t)) != [t]
  {
    hide Blk, Apply, HeadActs, TailActs, HeadEnd, Legal, ValidTrans, Pieces, BlkRound;
    AlignedEnds(t);
    var k := Blk(cfg, s, t.acc.kind, t.acc.n, t.acc.addr);
    BlkRoundProgress(cfg, s, t, 0);
    RoundPieces(t, 0, k);
    NoActs(cfg, s);
    var rest := Blocks(cfg, Apply(cfg, s, BlkRound(t, 0, k)), t, k);
    PiecesAppend(BlkRound(t, 0, k), rest);
    assert Ladder(cfg, s, t) == BlkRound(t, 0, k) + rest;
    assert Pieces(Ladder(cfg, s, t))[0] == Sub(t, 0, k);
  }

  lemma NoActs(cfg: Config, s: Enc)
    ensures Apply(cfg, s, []) == s
  {}

  /** A block the configuration admits and splits. */
  function Splittable(cfg: Config, wide: bool): Trans
    requires Legal(cfg)
  {
    if !WriteRoom(cfg, wide) then
      var n := FreshWrBlk(cfg, wide) + 8;
      Trans(Access(Write, AM12, 0, if wide then TWO32 else 0, n, seq(n, _ => 0)), 0)
    else
      Trans(Access(Read, AM12, 0, 0, FreshRdBlk(cfg) + 8, []), 0)
  }

  lemma FreshSizes(cfg: Config, wide: bool)
    requires Legal(cfg)
    ensures var k := FreshWrBlk(cfg, wide); k % 8 == 0 && (!WriteRoom(cfg, wide) ==> k + 8 <= BLK_SIZE && 12 + k + 8 + 4 < 4 * cfg.rqWiMax)
    ensures var k := FreshRdBlk(cfg); k % 8 == 0 && (!ReadRoom(cfg) ==> k + 8 <= BLK_SIZE && 8 + k + 8 + 4 < cfg.maxRspSize)
  {}

  lemma SplitAdmitted(cfg: Config, wide: bool)
    requires Legal(cfg) && !Roomy(cfg, wide)
    ensures var t := Splittable(cfg, wide);
      Exclusive(t, wide) && Sizable(Start(0)) && Admitted(cfg, Start(0), t) && Mapped(t) == t
  {
    FreshSizes(cfg, wide);
    hide FreshWrBlk, FreshRdBlk, WriteRoom, ReadRoom;
  }

  lemma FreshWrite8(cfg: Config, s: Enc, wide: bool)
    requires Legal(cfg) && Fresh(s)
    ensures var k := FreshWrBlk(cfg, wide); WrBlk(cfg, s, k + 8, if wide then TWO32 else 0) == k > 0
  {
    var room, a := RqLimit(cfg) - (if wide then 28 else 20), cfg.maxRq - 24;
    assert RemRq(cfg, s) == RqLimit(cfg) - 12 && 0 < room < TWO32 && W32(room) == room;
    assert 8 <= Min(Min(a, room), BLK_SIZE);
    hide RemRq, Fresh, RqLimit, WriteRoom, Legal, W32;
    NextEight(Min(Min(a, room), BLK_SIZE));
    assert Min(Min(FreshWrBlk(cfg, wide) + 8, room), Min(a, BLK_SIZE)) == Min(FreshWrBlk(cfg, wide) + 8, Min(Min(a, room), BLK_SIZE));
  }

  lemma NextEight(x: nat)
    requires x >= 8
    ensures Min(x / 8 * 8 + 8, x) / 8 * 8 == x / 8 * 8 > 0
  {}

  lemma FreshRead8(cfg: Config, s: Enc)
    requires Legal(cfg) && !ReadRoom(cfg) && Fresh(s)
    ensures var k := FreshRdBlk(cfg); RdBlk(cfg, s, k + 8) == k > 0
  {
    assert RemRsp(cfg, s) == RspLimit(cfg) - 8;
    hide RemRsp, Fresh;
  }

  lemma SplitBlock(cfg: Config, s: Enc, wide: bool)
    requires Legal(cfg) && !Roomy(cfg, wide) && Fresh(s)
    ensures var t := Splittable(cfg, wide); 0 < Blk(cfg, s, t.acc.kind, t.acc.n, t.acc.addr) < t.acc.n
  {
    hide WrBlk, RdBlk, WriteRoom, ReadRoom, FreshWrBlk, FreshRdBlk, Fresh, Legal;
    if !WriteRoom(cfg, wide) {
      FreshWrite8(cfg, s, wide);
    } else {
      FreshRead8(cfg, s);
    }
  }

  lemma OpenedFresh(cfg: Config, t: Trans)
    requires Legal(cfg)
    ensures Fresh(Apply(cfg, Start(0), Opening(cfg, Start(0), t)))
  {
    hide Manageable, NewPacket;
    var st := Start(0);
    var first := FinIf(!Manageable(cfg, st, t));
    var s := Apply(cfg, st, first);
    var second := FinIf(NewPacket(cfg, s, Mapped(t), t.acc.am));
    ApplyAppend(cfg, st, first, second);
    NoActs(cfg, st);
    NoActs(cfg, s);
    assert [Fin][1..] == [] && Apply(cfg, Finalize(st), []) == Finalize(st) && Apply(cfg, Finalize(s), []) == Finalize(s);
  }

  lemma ExclusiveSplit(cfg: Config, wide: bool)
    requires Legal(cfg) && !Roomy(cfg, wide)
    ensures var t := Splittable(cfg, wide); var st := Start(0);
      Sizable(st) && Exclusive(t, wide) && Admitted(cfg, st, t) && Pieces(Compile(cfg, st, t)) != [Mapped(t)]
  {
    hide *;
    var t, st := Splittable(cfg, wide), Start(0);
    SplitAdmitted(cfg, wide);
    SizableSane(st);
    ExclusiveParts(t, wide);
    var open := Opening(cfg, st, t);
    var s := Apply(cfg, st, open);
    OpenedFresh(cfg, t);
    SplitBlock(cfg, s, wide);
    CompileIs(cfg, st, t);
    OpeningPieces(cfg, st, t);
    SplitLadder(cfg, s, t);
    LadderBody(cfg, s, t);
    PrefixFree(open, Ladder(cfg, s, t));
  }

  /** Exclusive maps are never split exactly in these configurations: whatever was packed before, every
      8-aligned read or write of a multiple of 8 up to 1 KB that is admitted is one PL0 access. */
  lemma ExclusiveExactly(cfg: Config, wide: bool)
    requires Legal(cfg)
    ensures (forall st: Enc, t: Trans :: Sizable(st) && Exclusive(t, wide) && Admitted(cfg, st, t) ==> Pieces(Compile(cfg, st, t)) == [Mapped(t)])
      <==> Roomy(cfg, wide)
  {
    hide Sizable, Exclusive, Admitted, Compile, Roomy, Legal, Mapped, Pieces, Splittable, Start;
    if Roomy(cfg, wide) {
      forall st: Enc, t: Trans | Sizable(st) && Exclusive(t, wide) && Admitted(cfg, st, t)
        ensures Sane(st) && Pieces(Compile(cfg, st, t)) == [Mapped(t)]
      {
        SizableSane(st);
        ExclusiveWhole(cfg, st, t, wide);
      }
    } else {
      ExclusiveSplit(cfg, wide);
    }
  }

  lemma SizableSane(st: Enc)
    requires Sizable(st)
    ensures Sane(st)
  {}

  // ---- Accesses of at most 8 bytes ----

  lemma CutCount(c: bool, t: Trans, off: nat, k: nat)
    requires k > 0
    ensures |Pieces(Cut(c, t, off, k))| == if c then 1 else 0
  {
    if c {
      assert [Add(Sub(t, off, k))][1..] == [];
    }
  }

  lemma HeadCount(t: Trans)
    ensures var o1 := Skip(HeadCut(t, 0, 1), 0, 1); var o2 := Skip(HeadCut(t, o1, 2), o1, 2);
      |Pieces(HeadActs(t))| == (if HeadCut(t, 0, 1) then 1 else 0) + (if HeadCut(t, o1, 2) then 1 else 0)
        + (if HeadCut(t, o2, 4) then 1 else 0)
  {
    var o1 := Skip(HeadCut(t, 0, 1), 0, 1);
    var o2 := Skip(HeadCut(t, o1, 2), o1, 2);
    hide HeadCut;
    CutCount(HeadCut(t, 0, 1), t, 0, 1);
    CutCount(HeadCut(t, o1, 2), t, o1, 2);
    CutCount(HeadCut(t, o2, 4), t, o2, 4);
    Pieces3(Cut(HeadCut(t, 0, 1), t, 0, 1), Cut(HeadCut(t, o1, 2), t, o1, 2), Cut(HeadCut(t, o2, 4), t, o2, 4));
  }

  lemma TailCount(t: Trans)
    ensures var o1 := BlocksEnd(t); var o2 := Skip(TailCut(t, o1, 4), o1, 4); var o3 := Skip(TailCut(t, o2, 2), o2, 2);
      |Pieces(TailActs(t))| == (if TailCut(t, o1, 4) then 1 else 0) + (if TailCut(t, o2, 2) then 1 else 0)
        + (if TailCut(t, o3, 1) then 1 else 0)
  {
    var o1 := BlocksEnd(t);
    var o2 := Skip(TailCut(t, o1, 4), o1, 4);
    var o3 := Skip(TailCut(t, o2, 2), o2, 2);
    hide TailCut, BlocksEnd;
    CutCount(TailCut(t, o1, 4), t, o1, 4);
    CutCount(TailCut(t, o2, 2), t, o2, 2);
    CutCount(TailCut(t, o3, 1), t, o3, 1);
    Pieces3(Cut(TailCut(t, o1, 4), t, o1, 4), Cut(TailCut(t, o2, 2), t, o2, 2), Cut(TailCut(t, o3, 1), t, o3, 1));
  }

  /** Pieces of at least 8 bytes cover at least 8 bytes each. */
  lemma {:induction false} BlocksCount(cfg: Config, st: Enc, t: Trans, off: nat)
    requires Legal(cfg) && Sane(st) && off <= t.acc.n
    ensures 8 * |Pieces(Blocks(cfg, st, t, off))| <= t.acc.n - off
    decreases t.acc.n - off, Used(st)
  {
    hide Apply, Blk, BlkRound, Legal, Sub;
    if t.acc.n - off >= 8 {
      var nb := Blk(cfg, st, t.acc.kind, t.acc.n - off, t.acc.addr + off);
      var round := BlkRound(t, off, nb);
      BlkRoundProgress(cfg, st, t, off);
      BlocksCount(cfg, Apply(cfg, st, round), t, off + nb);
      RoundPieces(t, off, nb);
      PiecesAppend(round, Blocks(cfg, Apply(cfg, st, round), t, off + nb));
    }
  }

  /** The number of pieces of a small transfer, from its cuts. */
  lemma SmallAtMost4(t: Trans)
    requires 0 < t.acc.n <= 8
    ensures |Pieces(HeadActs(t))| + (if t.acc.n - HeadEnd(t) >= 8 then 1 else 0) + |Pieces(TailActs(t))| <= 4
  {
    hide HeadCut, HeadActs, TailActs;
    HeadCount(t);
    TailCount(t);
  }

  lemma SmallAligned(t: Trans)
    requires 0 < t.acc.n <= 8 && (NaturallyAligned(t.acc.addr, t.acc.n) || (t.acc.n == 8 && t.acc.addr % 8 == 4))
    ensures |Pieces(HeadActs(t))| + (if t.acc.n - HeadEnd(t) >= 8 then 1 else 0) + |Pieces(TailActs(t))|
         <= SmallPieces(t.acc.addr, t.acc.n)
  {
    hide HeadActs, TailActs;
    HeadCount(t);
    TailCount(t);
  }

  lemma SmallCounts(t: Trans)
    requires 0 < t.acc.n <= 8
    ensures |Pieces(HeadActs(t))| + (if t.acc.n - HeadEnd(t) >= 8 then 1 else 0) + |Pieces(TailActs(t))|
         <= SmallPieces(t.acc.addr, t.acc.n)
  {
    hide HeadActs, TailActs, HeadEnd;
    SmallAtMost4(t);
    if NaturallyAligned(t.acc.addr, t.acc.n) || (t.acc.n == 8 && t.acc.addr % 8 == 4) {
      SmallAligned(t);
    }
  }

  /** The builder's estimate for transfers of at most 8 bytes is an upper bound: 1 if naturally
      aligned, 2 for 8 bytes at a multiple of 4, else 4. */
  lemma SmallPiecesBound(cfg: Config, st: Enc, t: Trans)
    requires Legal(cfg) && Sane(st) && Admitted(cfg, st, t) && !t.acc.kind.Fill? && t.acc.n <= 8
    ensures |Pieces(Compile(cfg, st, t))| <= SmallPieces(t.acc.addr, t.acc.n)
  {
    var m := Mapped(t);
    var s := Apply(cfg, st, Opening(cfg, st, t));
    assert t.acc.n > 0 && m.acc.n == t.acc.n && m.acc.addr == t.acc.addr;
    CompileIs(cfg, st, t);
    OpeningPieces(cfg, st, t);
    SmallCounts(m);
    hide Admitted, Opening, Apply, Compile, HeadActs, TailActs, HeadEnd, Mapped, SmallPieces;
    ApplySane(cfg, s, HeadActs(m));
    var blocks := Blocks(cfg, Apply(cfg, s, HeadActs(m)), m, HeadEnd(m));
    BlocksCount(cfg, Apply(cfg, s, HeadActs(m)), m, HeadEnd(m));
    Pieces3(HeadActs(m), blocks, TailActs(m));
    PrefixFree(Opening(cfg, st, t), Ladder(cfg, s, m));
  }

  // ---- What every configuration can do ----

  /** An aligned 64-bit access. */
  predicate Access64(t: Trans) {
    ValidTrans(t) && !t.acc.kind.Fill? && t.acc.n == 8 && t.acc.addr % 8 == 0 && MapOf(t.acc.am) <= AM15
  }

  lemma Open64(cfg: Config, last: nat, t: Trans)
    requires Legal(cfg) && Access64(t)
    ensures Sane(Start(last)) && Admitted(cfg, Start(last), t)
    ensures var s := Apply(cfg, Start(last), Opening(cfg, Start(last), t));
      Fresh(s) && s.num == 0 && s.wi <= 7 && s.rsp <= 20 && s.ctx == CTX0 && s.mask == 0 && Sane(s)
  {
    var st := Start(last);
    var first := FinIf(!Manageable(cfg, st, t));
    var s := Apply(cfg, st, first);
    assert Fresh(s) && s.num == 0 && s.wi <= 7 && s.rsp <= 20 && s.ctx == CTX0 && s.mask == 0 by {
      hide Manageable;
      assert Apply(cfg, st, []) == st;
      assert [Fin][1..] == [] && Apply(cfg, Finalize(st), []) == Finalize(st);
    }
    assert !NewPacket(cfg, s, Mapped(t), t.acc.am);
    assert Opening(cfg, st, t) == first + [];
    assert first + [] == first;
  }

  lemma Piece64(cfg: Config, s: Enc, t: Trans)
    requires Legal(cfg) && Access64(t) && Fresh(s) && s.num == 0 && s.wi <= 7 && s.rsp <= 20 && s.ctx == CTX0
    ensures Sane(s) && Blk(cfg, s, t.acc.kind, t.acc.n, t.acc.addr) == 8
    ensures var r := AddPiece(cfg, s, t); RqSize(r) <= 128 && RspSize(r) <= 128
  {}

  /** An aligned word is one piece. */
  lemma WordLadder(cfg: Config, s: Enc, t: Trans)
    requires Legal(cfg) && Sane(s) && !t.acc.kind.Fill? && t.acc.n == 4 && t.acc.addr % 4 == 0
    requires ValidData(t.acc.kind, t.acc.n, t.acc.data)
    ensures Ladder(cfg, s, t) == [Add(t)]
  {
    SubAll(t);
    hide Sub, ValidData;
    assert !HeadCut(t, 0, 1) && !HeadCut(t, 0, 2);
    ApplySane(cfg, s, HeadActs(t));
    if t.acc.addr % 8 == 0 {
      assert !HeadCut(t, 0, 4) && HeadActs(t) == [] && HeadEnd(t) == 0;
      assert TailActs(t) == [Add(t)];
    } else {
      assert HeadCut(t, 0, 4) && HeadActs(t) == [Add(t)] && HeadEnd(t) == 4;
      assert TailActs(t) == [];
    }
  }

  /** In every legal configuration an aligned 64-bit read or write is accepted as a request of its own,
      which fits request buffer and reply buffer. */
  lemma AccessGoesThrough(cfg: Config, last: nat, t: Trans)
    requires Legal(cfg) && Access64(t)
    ensures var b := SetTrans(cfg, last, [t]);
      b.ok && RqSize(b.st) <= 4 * cfg.rqWiMax && RspSize(b.st) <= cfg.maxRspSize
  {
    var st, m := Start(last), Mapped(t);
    var s := Apply(cfg, st, Opening(cfg, st, t));
    Open64(cfg, last, t);
    assert Access64(m) && (t.acc.kind.Read? <==> m.acc.kind.Read?);
    Piece64(cfg, s, m);
    hide Opening, Blk, AddPiece, Admitted, Fresh, Access64, Ladder, Mapped, Apply;
    CompileIs(cfg, st, t);
    AccessParts(m);
    AlignedLadder(cfg, s, m);
    assert BodyActs(cfg, s, t) == [Add(m)] by { KindKept(t); }
    ApplyAppend(cfg, st, Opening(cfg, st, t), [Add(m)]);
    ApplyOne(cfg, s, m);
    OneTrans(cfg, last, t);
  }

  lemma AccessParts(t: Trans)
    requires Access64(t)
    ensures ValidTrans(t) && t.acc.n == 8 && t.acc.addr % 8 == 0 && !t.acc.kind.Fill?
  {}

  lemma KindKept(t: Trans)
    ensures Mapped(t).acc.kind == t.acc.kind
  {}

  lemma OneTrans(cfg: Config, last: nat, t: Trans)
    requires Legal(cfg) && Admitted(cfg, Start(last), t)
    ensures SetTrans(cfg, last, [t]) == Built(true, Record(Apply(cfg, Start(last), Compile(cfg, Start(last), t)), Mapped(t)))
  {
    hide Compile, Admitted;
    TryAddSane(cfg, Start(last), t);
    var s := TryAdd(cfg, Start(last), t).value;
    assert [t][1..] == [];
    assert AddAll(cfg, s, []) == Built(true, s);
  }

  // ---- The count in END is a running total ----

  /** Eight bytes written to an exclusive map. */
  function WriteTo(am: nat): Trans {
    Trans(Access(Write, am, 0, 0, 8, [0, 0, 0, 0, 0, 0, 0, 0]), 0)
  }

  /** A packet that holds one access, to map 12. */
  predicate One12(s: Enc) {
    Sane(s) && s.mask == SetBit(0, 12) && s.num == 1 && |s.pl0| == 1 && s.wi <= 15 && s.rsp <= 36
  }

  lemma OtherMap(cfg: Config, r: Enc)
    requires Legal(cfg) && One12(r)
    ensures NewPacket(cfg, r, WriteTo(13), 13) && !NewPacket(cfg, Finalize(r), WriteTo(13), 13)
  {
    assert SetBit(0, 12) == 4096 && SetBit(0, 13) == 8192;
    hide SetBit;
  }

  lemma SecondAdmitted(cfg: Config, r: Enc)
    requires Legal(cfg) && One12(r)
    ensures Admitted(cfg, r, WriteTo(13)) && Mapped(WriteTo(13)) == WriteTo(13) && WriteTo(13).acc.am == 13
  {
    hide SetBit;
  }

  /** Another exclusive map starts a new packet. */
  lemma SecondOpening(cfg: Config, r: Enc)
    requires Legal(cfg) && One12(r)
    ensures Admitted(cfg, r, WriteTo(13)) && Apply(cfg, r, Opening(cfg, r, WriteTo(13))) == Finalize(r)
  {
    hide NewPacket, Manageable, SetBit, WriteTo, Admitted, Mapped, Finalize, One12, Legal;
    OtherMap(cfg, r);
    SecondAdmitted(cfg, r);
    NoActs(cfg, r);
    NoActs(cfg, Finalize(r));
    assert [Fin][1..] == [] && [Fin] + [] == [Fin] && [] + [Fin] == [Fin];
    assert Apply(cfg, r, [Fin]) == Finalize(r);
  }

  lemma FreshPiece(cfg: Config, s: Enc, am: nat)
    requires Legal(cfg) && Fresh(s) && Sane(s) && (am == 12 || am == 13) && s.mask == 0
    ensures Blk(cfg, s, Write, 8, 0) == 8
    ensures var r := AddPiece(cfg, s, WriteTo(am));
      r.num == 1 && |r.pl0| == |s.pl0| + 1 && r.mask == SetBit(0, am) && Sane(r) && r.wi <= s.wi + 8 && r.rsp <= s.rsp + 16
  {
    hide SetBit;
  }

  lemma FreshWrite(cfg: Config, st: Enc, am: nat)
    requires Legal(cfg) && Sane(st) && (am == 12 || am == 13)
    requires var s := Apply(cfg, st, Opening(cfg, st, WriteTo(am))); Fresh(s) && Sane(s) && s.mask == 0
    ensures Apply(cfg, st, Compile(cfg, st, WriteTo(am))) == AddPiece(cfg, Apply(cfg, st, Opening(cfg, st, WriteTo(am))), WriteTo(am))
  {
    var t := WriteTo(am);
    var s := Apply(cfg, st, Opening(cfg, st, t));
    assert ValidTrans(t) && Mapped(t) == t && t.acc.n == 8 && t.acc.addr == 0 && t.acc.kind == Write;
    hide *;
    FreshPiece(cfg, s, am);
    CompileIs(cfg, st, t);
    AlignedLadder(cfg, s, t);
    assert BodyActs(cfg, s, t) == [Add(t)] by { WriteBody(cfg, s, t); }
    ApplyAppend(cfg, st, Opening(cfg, st, t), [Add(t)]);
    ApplyOne(cfg, s, t);
  }

  lemma WriteBody(cfg: Config, s: Enc, t: Trans)
    requires Legal(cfg) && Sane(s) && t.acc.kind == Write && Mapped(t) == t
    ensures BodyActs(cfg, s, t) == Ladder(cfg, s, t)
  {}

  lemma FirstOf12(cfg: Config, last: nat)
    requires Legal(cfg)
    ensures Sane(Start(last)) && Admitted(cfg, Start(last), WriteTo(12))
    ensures One12(Record(Apply(cfg, Start(last), Compile(cfg, Start(last), WriteTo(12))), WriteTo(12)))
  {
    var t, st := WriteTo(12), Start(last);
    StartEmpty(cfg, last);
    hide *;
    Open64(cfg, last, t);
    FreshWrite(cfg, st, 12);
    OpeningPieces(cfg, st, t);
    ApplyRecords(cfg, st, Opening(cfg, st, t));
    var s := Apply(cfg, st, Opening(cfg, st, t));
    assert s.pl0 == [] + [];
    FreshPiece(cfg, s, 12);
    OneRecorded(AddPiece(cfg, s, t), s, t);
  }

  lemma StartEmpty(cfg: Config, last: nat)
    requires Legal(cfg)
    ensures Access64(WriteTo(12)) && Start(last).pl0 == [] && Sane(Start(last))
  {}

  lemma OneRecorded(r: Enc, s: Enc, t: Trans)
    requires r.num == 1 && |r.pl0| == |s.pl0| + 1 && s.pl0 == [] && r.mask == SetBit(0, 12) && Sane(r)
    requires s.wi <= 7 && s.rsp <= 20 && r.wi <= s.wi + 8 && r.rsp <= s.rsp + 16
    ensures One12(Record(r, t))
  {
    hide SetBit;
  }

  lemma SecondOf13(cfg: Config, r: Enc)
    requires Legal(cfg) && One12(r)
    ensures Sane(r) && Admitted(cfg, r, WriteTo(13))
    ensures var s := Apply(cfg, r, Compile(cfg, r, WriteTo(13))); s.num == 1 && |s.pl0| == 2 && Sane(s)
  {
    assert |Finalize(r).pl0| == 1 && Fresh(Finalize(r)) && Sane(Finalize(r)) && Finalize(r).mask == 0;
    hide Admitted, Opening, Apply, Compile, Fresh, SetBit, WriteTo, AddPiece, Blk, Legal, Finalize;
    SecondOpening(cfg, r);
    FreshWrite(cfg, r, 13);
    FreshPiece(cfg, Finalize(r), 13);
  }

  /** In every legal configuration writing to maps 12 and 13 takes a packet each, and the END of the last
      one says 2 for its single access. */
  lemma EndCountDiffers(cfg: Config, last: nat)
    requires Legal(cfg) && last < TWO16
    ensures var ts := [WriteTo(12), WriteTo(13)]; var b := SetTrans(cfg, last, ts);
      && ValidAll(ts) && b.ok
      && var p := Packets(b.st)[|b.st.closed|]; p.numRw == 2 && |Accesses(p)| == 1
  {
    var ts := [WriteTo(12), WriteTo(13)];
    assert ts[1..] == [ts[1]] && ts[1..][1..] == [] && ts != [];
    assert ValidAll(ts) && Mapped(ts[0]) == ts[0] && Mapped(ts[1]) == ts[1];
    hide Admitted, Compile, Apply, WriteTo, ValidAll, Mapped, One12, Legal, Sane, DecoderOk, Accesses, Inv, BoundOk, GroupsOk;
    FirstOf12(cfg, last);
    var r := Record(Apply(cfg, Start(last), Compile(cfg, Start(last), ts[0])), ts[0]);
    SecondOf13(cfg, r);
    var s := Apply(cfg, r, Compile(cfg, r, ts[1]));
    TryAddSane(cfg, Start(last), ts[0]);
    TryAddSane(cfg, r, ts[1]);
    assert AddAll(cfg, r, ts[1..]) == Built(true, Record(s, ts[1]));
    SetTransInv(cfg, last, true, ts);
    InvParts(cfg, last, Record(s, ts[1]));
    FrameAt(cfg, last, Record(s, ts[1]), 0);
  }

  // ---- A transaction that is accepted and loses its data ----

  const LOSSY := Config(128, 128, 8, 48, 192, 256, _ => 1)

  function LongWrite(): Trans {
    Trans(Access(Write, 0, 0, 0, 168, seq(168, _ => 0)), 0)
  }

  lemma LossyFirst()
    ensures var r := BlkRound(LongWrite(), 0, 104); var s := Apply(LOSSY, Start(0), r);
      && Blk(LOSSY, Start(0), Write, 168, 0) == 104
      && Fresh(s) && s.wi == 34 && |s.wire| == 1 && |s.pl0| == 1
  {
    var t := LongWrite();
    var p := Sub(t, 0, 104);
    assert BlkRound(t, 0, 104) == [Add(p), Fin];
    assert [Add(p), Fin][1..] == [Fin] && [Fin][1..] == [];
    var s := AddPiece(LOSSY, Start(0), p);
    assert s.wi == 30;
    assert Apply(LOSSY, Start(0), [Add(p), Fin]) == Finalize(s);
  }

  lemma LossySecond(s: Enc)
    requires Fresh(s) && s.wi == 34 && |s.wire| == 1 && |s.pl0| == 1
    ensures Blk(LOSSY, s, Write, 64, 104) == 64
    ensures var r := AddPiece(LOSSY, s, Sub(LongWrite(), 104, 64));
      |r.wire| == 2 && |r.pl0| == 2 && r.wire[1] != r.pl0[1].acc
  {
    var p := Sub(LongWrite(), 104, 64);
    assert p.acc.data[0] == 0;
    assert MakeRoom(LOSSY, s, p.acc) == s;
    assert OnWire(LOSSY, 34, p.acc).data[0] == 1;
  }

  lemma LossyOpening()
    ensures Legal(LOSSY) && Sane(Start(0)) && Admitted(LOSSY, Start(0), LongWrite())
    ensures Opening(LOSSY, Start(0), LongWrite()) == []
    ensures ValidTrans(LongWrite()) && Mapped(LongWrite()) == LongWrite()
    ensures LongWrite().acc.kind == Write && LongWrite().acc.n == 168 && LongWrite().acc.addr == 0
  {
    var t := LongWrite();
    assert Manageable(LOSSY, Start(0), t);
    assert FinIf(!Manageable(LOSSY, Start(0), t)) == [];
    assert Apply(LOSSY, Start(0), []) == Start(0);
    assert !NewPacket(LOSSY, Start(0), t, 0);
  }

  lemma LossyBlocks()
    ensures Legal(LOSSY) && Sane(Start(0))
    ensures Blocks(LOSSY, Start(0), LongWrite(), 0) == BlkRound(LongWrite(), 0, 104) + [Add(Sub(LongWrite(), 104, 64))]
  {
    LossyOpening();
    hide LongWrite, Blk, Apply, Sub, Start;
    var t := LongWrite();
    LossyFirst();
    var s := Apply(LOSSY, Start(0), BlkRound(t, 0, 104));
    LossySecond(s);
    BlkRoundProgress(LOSSY, Start(0), t, 0);
    BlkRoundProgress(LOSSY, s, t, 104);
    assert BlkRound(t, 104, 64) == [Add(Sub(t, 104, 64))];
    assert Blocks(LOSSY, s, t, 104) == [Add(Sub(t, 104, 64))];
  }

  lemma OnlyBlocks(cfg: Config, st: Enc, t: Trans)
    requires Legal(cfg) && Sane(st) && Opening(cfg, st, t) == [] && Mapped(t) == t && !t.acc.kind.Fill?
    requires HeadActs(t) == [] && HeadEnd(t) == 0 && TailActs(t) == []
    ensures Compile(cfg, st, t) == Blocks(cfg, st, t, 0)
  {
    hide Opening, Blocks, HeadActs, HeadEnd, TailActs, Mapped;
    assert Apply(cfg, st, []) == st;
  }

  lemma LossyCompile()
    ensures Legal(LOSSY) && Sane(Start(0)) && Admitted(LOSSY, Start(0), LongWrite())
    ensures Compile(LOSSY, Start(0), LongWrite()) == BlkRound(LongWrite(), 0, 104) + [Add(Sub(LongWrite(), 104, 64))]
  {
    hide *;
    LossyOpening();
    LossyBlocks();
    AlignedEnds(LongWrite());
    OnlyBlocks(LOSSY, Start(0), LongWrite());
  }

  /** Without the size check meaning is not preserved: on a legal configuration a 168-byte write is
      accepted, but the data of its second block is not copied into the request. */
  lemma AcceptedButLost()
    ensures Legal(LOSSY) && ValidTrans(LongWrite())
    ensures var b := SetTrans(LOSSY, 0, [LongWrite()]);
      b.ok && RqSize(b.st) > 4 * LOSSY.rqWiMax && StreamAccesses(Packets(b.st)) != Accs(b.st.pl0)
  {
    var t := LongWrite();
    LossyOpening();
    assert ValidAll([t]) && FillsIn([t], true);
    hide *;
    var round, last := BlkRound(t, 0, 104), Sub(t, 104, 64);
    LossyCompile();
    LossyFirst();
    var s := Apply(LOSSY, Start(0), round);
    LossySecond(s);
    ApplyAppend(LOSSY, Start(0), round, [Add(last)]);
    ApplyOne(LOSSY, s, last);
    OneTrans(LOSSY, 0, t);
    SetTransInv(LOSSY, 0, true, [t]);
    LostIn(SetTrans(LOSSY, 0, [t]).st, AddPiece(LOSSY, s, last), t);
  }

  lemma LostIn(st: Enc, r: Enc, t: Trans)
    requires st == Record(r, t) && Inv(LOSSY, 0, st)
    requires |r.wire| == 2 && |r.pl0| == 2 && r.wire[1] != r.pl0[1].acc
    ensures RqSize(st) > 4 * LOSSY.rqWiMax && StreamAccesses(Packets(st)) != Accs(st.pl0)
  {
    InvParts(LOSSY, 0, st);
    PacketsAccesses(st);
    if RqSize(st) <= 4 * LOSSY.rqWiMax {
      WireIsRecords(LOSSY, st);
      FitsIsCopied(LOSSY, st);
    }
    assert Accs(st.pl0)[1] == r.pl0[1].acc;
  }
}
