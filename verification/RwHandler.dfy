/** The read/write packet handler as an object: requests are built and replies parsed in place.
    Each method is proved against the functions of Encoder, Reply and Aggregate. */
module RwHandler {
  import opened Words
  import opened Errors
  import opened Protocol
  import opened Semantics
  import opened Encoder
  import opened Simulation
  import opened Tiling
  import opened Compiler
  import Limits
  import opened Reply
  import opened Aggregate
  import opened EndToEnd
  import opened Acceptance

  /** Outcome of one round of the reply parser: go on, done, or rejected. */
  datatype Flow = Go | Stop | Fail

  /** The PL1 count a new handler starts from. */
  const FIRST_CNT: nat := 0xFFC0

  /** Limits of a handler with explicit buffer sizes. */
  function SizedConfig(maxRqSize: nat, maxRspSize: nat, maxNumRw: nat, stale: nat -> byte): Config
    requires maxRqSize >= 256 && maxRspSize >= 256
  {
    var rq, rsp := maxRqSize - Limits.BUF_ALLOWANCE, maxRspSize - Limits.BUF_ALLOWANCE;
    Config(rq, rsp, maxNumRw, rq / 4, rsp, maxNumRw, stale)
  }

  class RwPacketHandler {
    const cfg: Config

    // Request buffer (grows with the request), write index and start of the open packet, in words
    var rqBuf: seq<Word>
    var rqBufWi: nat
    var pl2HdrWi: nat
    var numPl2Pkt: nat
    var pl2NumTrans: nat

    // Predicted reply size and start of the open packet's reply, in bytes
    var rspSize: nat
    var pl2RspPktStart: nat

    // Context of the open packet
    var pl0AccMode: nat
    var pl0AddrMap: nat
    var pl0AddrMapMask: nat
    var pl0BaseAddr: nat

    // Transactions of the API and on PL0 level, with their results
    var rwTrans: seq<Trans>
    var rwTransRsp: seq<Rsp>
    var pl0Trans: seq<Trans>
    var pl0TransRsp: seq<Rsp>

    var pl1CntOutstandingOldest: nat
    var pl1CntOutstandingLast: nat
    var deviceResetCount: nat
    var getRqWasCalled: bool
    var tasErr: nat

    // What the fields above stand for
    ghost var enc: Enc

    function Context(): Ctx
      reads `pl0AddrMap, `pl0AccMode, `pl0BaseAddr
    {
      Ctx(pl0AddrMap, pl0AccMode, pl0BaseAddr)
    }

    ghost predicate Matches()
      reads this
    {
      && Context() == enc.ctx && pl0AddrMapMask == enc.mask && pl2NumTrans == enc.num
      && rqBufWi == enc.wi && pl2HdrWi == enc.hdr && rspSize == enc.rsp && pl2RspPktStart == enc.rspStart
      && pl1CntOutstandingLast == enc.last && pl0Trans == enc.pl0 && rwTrans == enc.rw && numPl2Pkt == |enc.closed|
      && pl0TransRsp == NoRsps(|enc.pl0|) && rwTransRsp == NoRsps(|enc.rw|)
    }

    /** A request is being built: the buffer holds the closed packets, room for the open packet's header,
        and its commands. */
    ghost predicate Valid()
      reads this
    {
      && Legal(cfg) && Sane(enc) && SizesOk(enc) && Matches() && !getRqWasCalled
      && rqBuf == BufferOf(enc) && |rqBuf| == rqBufWi && |StreamWords(enc.closed)| == pl2HdrWi
    }

    /** Request st is complete: the buffer holds the words of its packets. */
    ghost predicate Sealed(st: Enc)
      reads this
    {
      && getRqWasCalled && rqBuf == StreamWords(Packets(st)) && |rqBuf| == rqBufWi
      && numPl2Pkt == |Packets(st)| && rspSize == RspSize(st)
      && pl0Trans == st.pl0 && rwTrans == st.rw && pl1CntOutstandingLast == NextCnt(st.last)
      && pl0TransRsp == NoRsps(|st.pl0|) && rwTransRsp == NoRsps(|st.rw|)
    }

    /** Building a request leaves the reply side alone. */
    ghost predicate Outside(oldest: nat, resets: nat, err: nat)
      reads `pl1CntOutstandingOldest, `deviceResetCount, `tasErr
    {
      pl1CntOutstandingOldest == oldest && deviceResetCount == resets && tasErr == err
    }

    /** A handler with buffers of the given sizes, of which 64 bytes are kept as an allowance; until a ping they
        are the packet limits too. stale: what the request buffer holds before it is written. */
    constructor Sized(maxRqSize: nat, maxRspSize: nat, maxNumRw: nat, stale: nat -> byte)
      requires maxRqSize % 4 == 0 && 256 <= maxRqSize < 0x1000_0000 && maxRspSize % 4 == 0 && 256 <= maxRspSize < 0x1000_0000
      ensures cfg.maxRq == maxRqSize - 64 == 4 * cfg.rqWiMax && cfg.maxRsp == maxRspSize - 64 == cfg.maxRspSize
      ensures cfg.maxRw == cfg.numTransMax == maxNumRw && cfg.stale == stale && Legal(cfg) && Unused()
    {
      cfg := SizedConfig(maxRqSize, maxRspSize, maxNumRw, stale);
      rqBuf, rqBufWi, rspSize, pl2RspPktStart := [], 0, 0, 0;
      pl2NumTrans := 0;
      rwTrans, rwTransRsp, pl0Trans, pl0TransRsp := [], [], [], [];
      pl0AccMode, pl0AddrMap, pl0BaseAddr := 0, 0, 0;
      pl1CntOutstandingLast := FIRST_CNT;
      deviceResetCount, getRqWasCalled := 0, false;
      tasErr := ERR_NONE;
    }

    /** A handler with default buffers, for the limits agreed at the start of a session. */
    constructor FromConInfo(maxRq: nat, maxRsp: nat, maxNumRw: nat, stale: nat -> byte)
      ensures cfg == Limits.DefaultConfig(maxRq, maxRsp, maxNumRw, stale) && Unused()
      ensures cfg.maxRq == maxRq && cfg.maxRsp == maxRsp && 4 * cfg.rqWiMax == cfg.maxRspSize == 65472
      ensures cfg.maxRw == cfg.numTransMax == maxNumRw && cfg.stale == stale
      ensures Limits.PingAccepts(maxRq, maxRsp) ==> Legal(cfg)
    {
      cfg := SizedConfig(Limits.PKT_BUF_SIZE, Limits.PKT_BUF_SIZE, maxNumRw, stale).(maxRq := maxRq, maxRsp := maxRsp);
      rqBuf, rqBufWi, rspSize, pl2RspPktStart := [], 0, 0, 0;
      pl2NumTrans := 0;
      rwTrans, rwTransRsp, pl0Trans, pl0TransRsp := [], [], [], [];
      pl0AccMode, pl0AddrMap, pl0BaseAddr := 0, 0, 0;
      pl1CntOutstandingLast := FIRST_CNT;
      deviceResetCount, getRqWasCalled := 0, false;
      tasErr := ERR_NONE;
    }

    /** Nothing has been built or counted yet; a request has to be started first. */
    ghost predicate Unused()
      reads this
    {
      && rqBuf == [] && rqBufWi == rspSize == 0 && rwTrans == pl0Trans == [] && rwTransRsp == pl0TransRsp == []
      && pl1CntOutstandingLast == 0xFFC0 && deviceResetCount == tasErr == 0 && !getRqWasCalled
    }

    method StartRequest()
      requires Legal(cfg)
      modifies this
      ensures Valid() && enc == Start(old(pl1CntOutstandingLast))
      ensures Outside(NextCnt(pl1CntOutstandingLast), old(deviceResetCount), old(tasErr))
    {
      hide Valid, StreamWords, CmdsWords, NoRsps, SizesOk, Sane, Legal, BufferOf, NextCnt, Context, Start;
      Clear();
      PktInit();
      pl2RspPktStart := 0;
      enc := Start(pl1CntOutstandingLast);
      Started();
    }

    /** The fields of an empty request. */
    lemma Started()
      requires Legal(cfg) && !getRqWasCalled && enc == Start(pl1CntOutstandingLast) && numPl2Pkt == 0
      requires rqBuf == [] + [ZERO, ZERO, ZERO] && rqBufWi == 0 + 3 && pl2HdrWi == 0 && rspSize == 0 + 8 && pl2RspPktStart == 0
      requires pl2NumTrans == 0 && Context() == CTX0 && pl0AddrMapMask == 0
      requires pl0Trans == rwTrans == [] && pl0TransRsp == rwTransRsp == []
      ensures Valid()
    {
      EmptyRequest(pl1CntOutstandingLast);
      hide StreamWords, CmdsWords, NoRsps, SizesOk, Sane, Legal, BufferOf, Context;
    }

    method Clear()
      modifies `numPl2Pkt, `pl0Trans, `pl0TransRsp, `rwTrans, `rwTransRsp, `rqBuf, `rqBufWi, `rspSize,
               `pl1CntOutstandingOldest, `getRqWasCalled
      ensures numPl2Pkt == rqBufWi == rspSize == 0 && rqBuf == [] && !getRqWasCalled
      ensures pl0Trans == rwTrans == [] && pl0TransRsp == rwTransRsp == []
      ensures pl1CntOutstandingOldest == NextCnt(pl1CntOutstandingLast)
    {
      numPl2Pkt := 0;
      pl0Trans, pl0TransRsp := [], [];
      rwTrans, rwTransRsp := [], [];
      rqBuf, rqBufWi := [], 0;
      rspSize := 0;
      pl1CntOutstandingOldest := NextCnt(pl1CntOutstandingLast);
      getRqWasCalled := false;
    }

    /** Leaves room for a packet's PL2 length and START, and resets the context. */
    method PktInit()
      modifies `rqBuf, `rqBufWi, `pl2HdrWi, `pl2NumTrans, `rspSize, `pl2RspPktStart,
               `pl0AccMode, `pl0AddrMap, `pl0AddrMapMask, `pl0BaseAddr
      ensures rqBuf == old(rqBuf) + [ZERO, ZERO, ZERO] && rqBufWi == old(rqBufWi) + 3
      ensures pl2HdrWi == old(rqBufWi) && pl2NumTrans == 0
      ensures rspSize == old(rspSize) + 8 && pl2RspPktStart == old(rspSize)
      ensures Context() == CTX0 && pl0AddrMapMask == 0
    {
      pl2NumTrans := 0;
      pl2HdrWi := rqBufWi;
      rqBuf := rqBuf + [ZERO, ZERO, ZERO];
      rqBufWi := rqBufWi + 3;
      pl2RspPktStart := rspSize;
      rspSize := rspSize + 8;
      pl0AccMode, pl0AddrMap, pl0AddrMapMask, pl0BaseAddr := 0, 0, 0, 0;
    }

    /** Writes START, END and the PL2 length of the open packet. */
    method ClosePacket()
      requires Valid()
      modifies `rqBuf, `rqBufWi, `numPl2Pkt, `pl1CntOutstandingLast, `rspSize
      ensures rqBuf == StreamWords(Packets(enc)) && |rqBuf| == rqBufWi == old(rqBufWi) + 1
      ensures rspSize == old(rspSize) + 4 && numPl2Pkt == |Packets(enc)|
      ensures pl1CntOutstandingLast == NextCnt(old(pl1CntOutstandingLast))
    {
      numPl2Pkt := numPl2Pkt + 1;
      pl1CntOutstandingLast := NextCnt(pl1CntOutstandingLast);
      var start := StartWords(pl1CntOutstandingLast, pl0AddrMapMask);
      rqBuf := rqBuf[pl2HdrWi + 1 := start[0]][pl2HdrWi + 2 := start[1]];
      rqBuf := rqBuf + [Words.Head(0, CMD_PL0_END, |pl0Trans| % TWO16)];
      rqBufWi := rqBufWi + 1;
      rqBuf := rqBuf[pl2HdrWi := FromU32(4 * (rqBufWi - pl2HdrWi))];
      rspSize := rspSize + 4;
      ClosedWords(enc.closed, OpenPacket(enc), old(rqBuf), rqBuf);
    }

    method PktFinalize()
      requires Valid()
      modifies this
      ensures Valid() && enc == Finalize(old(enc))
      ensures Outside(old(pl1CntOutstandingOldest), old(deviceResetCount), old(tasErr))
    {
      hide StreamWords, CmdsWords, SizesOk, Sane, NoRsps, Legal, OpenPacket, BufferOf, NextCnt;
      FinalizeSizes(enc);
      FinalizeSane(enc);
      FinalizedWords(enc);
      ClosePacket();
      PktInit();
      enc := Finalize(enc);
      assert Matches();
    }

    method PktFinalizeIf(c: bool)
      requires Valid()
      modifies this
      ensures Valid() && enc == if c then Finalize(old(enc)) else old(enc)
      ensures Outside(old(pl1CntOutstandingOldest), old(deviceResetCount), old(tasErr))
    {
      hide Valid, Finalize;
      if c {
        PktFinalize();
      }
    }

    lemma ValidParts()
      requires Valid()
      ensures Legal(cfg) && Sane(enc) && SizesOk(enc)
    {}

    // ---- Queries ----

    function RemainingSizeInPktRq(): (r: nat)
      requires Valid()
      reads this
      ensures r == RemRq(cfg, enc)
    {
      var used := 4 * (rqBufWi - pl2HdrWi);
      var max := if cfg.maxRq > 4 * cfg.rqWiMax then 4 * cfg.rqWiMax else cfg.maxRq;
      if used < max then max - used else 0
    }

    function RemainingSizeInPktRsp(): (r: nat)
      requires Valid()
      reads this
      ensures r == RemRsp(cfg, enc)
    {
      var used := rspSize - pl2RspPktStart;
      var max := if cfg.maxRsp > cfg.maxRspSize then cfg.maxRspSize else cfg.maxRsp;
      if used < max then max - used else 0
    }

    predicate RemainingPktSizeSufficient(rq: nat, rsp: nat)
      requires Valid()
      reads this
      ensures RemainingPktSizeSufficient(rq, rsp) == Sufficient(cfg, enc, rq, rsp)
    {
      rq <= RemainingSizeInPktRq() && rsp <= RemainingSizeInPktRsp()
    }

    /** Room for the payload of a read of rd or a write of wr bytes? 32-bit sums. */
    predicate CheckLimits(rd: nat, wr: nat)
      requires Valid()
      reads this
      ensures CheckLimits(rd, wr) == WithinLimits(cfg, enc, rd, wr)
    {
      W32(rqBufWi * 4 + wr + 4) < cfg.rqWiMax * 4 && W32(rspSize + rd + 4) < cfg.maxRspSize
    }

    predicate NumTransManageable(t: Trans)
      requires Valid()
      reads this
      ensures NumTransManageable(t) == Manageable(cfg, enc, t)
    {
      var a := t.acc;
      var estimate := match a.kind
        case Read => Estimate(a.addr, a.n, a.n, cfg.maxRsp - 16)
        case Write => Estimate(a.addr, a.n, a.n + 16, cfg.maxRq - 20)
        case Fill => SmallPieces(a.addr, 8);
      pl2NumTrans + estimate <= cfg.numTransMax
    }

    /** Does the transaction have to start in a new packet? addrMap is its map as the caller gave it. */
    predicate NeedsNewPacket(t: Trans, addrMap: nat)
      requires Valid()
      reads this
      ensures NeedsNewPacket(t, addrMap) == NewPacket(cfg, enc, t, addrMap)
    {
      var n := W32(t.acc.n + 3) / 4 * 4;
      var whole := addrMap >= AM12 || t.acc.n <= 16;
      var enough := match t.acc.kind
        case Read => RemainingPktSizeSufficient(32, if whole then W32(16 + n) else 64)
        case Write => RemainingPktSizeSufficient(if whole then W32(32 + n) else 80, 32)
        case Fill => RemainingPktSizeSufficient(40, 32);
      !enough || !Rules(pl0AddrMapMask, t.acc.am)
    }

    /** A block of that size fits the open packet with its header and END, and for a write with a 64-bit
        base; unless the room for that base is subtracted from less. */
    function DataBlkSize(kind: Kind, nb: nat, addr: nat): (k: nat)
      requires Valid()
      reads this
      ensures k == Blk(cfg, enc, kind, nb, addr) && k % 8 == 0 && k <= nb && k <= BLK_SIZE
      ensures kind.Read? && k > 0 ==> k + 8 <= RemainingSizeInPktRsp()
      ensures !kind.Read? && k > 0 && addr < TWO32 ==> k + 8 <= RemainingSizeInPktRq()
      ensures !kind.Read? && k > 0 && addr >= TWO32 && RemainingSizeInPktRq() >= 16 ==> k + 16 <= RemainingSizeInPktRq()
    {
      var rem := if kind.Read? then RemainingSizeInPktRsp() else RemainingSizeInPktRq();
      if rem <= 8 then 0
      else
        var room := if !kind.Read? && addr >= TWO32 then W32(rem - 8 - 8) else rem - 8;
        Min(Min(nb, room), if kind.Read? then MaxRdBlk(cfg) else MaxWrBlk(cfg)) / 8 * 8
    }

    // ---- One PL0 access ----

    /** Writes the context commands an access needs. */
    method SetAddrMapAccModeBaseAddr(a: Access)
      modifies `rqBuf, `rqBufWi, `pl0AccMode, `pl0AddrMap, `pl0BaseAddr, `pl0AddrMapMask
      ensures rqBuf == old(rqBuf) + CmdsWords(CtxCmds(old(Context()), a))
      ensures rqBufWi == old(rqBufWi) + CtxBytes(old(Context()), a) / 4 && rqBufWi - old(rqBufWi) == |rqBuf| - old(|rqBuf|)
      ensures Context() == Ctx(a.am, a.mode, BaseOf(old(Context()), a.addr))
      ensures pl0AddrMapMask == SetBit(old(pl0AddrMapMask), a.am)
    {
      CtxWords(Context(), a);
      ContextLens(a);
      hide CmdsWords, CtxCmds, CmdWords, SetBit;
      pl0AddrMapMask := SetBit(pl0AddrMapMask, a.am);
      if a.am != pl0AddrMap {
        rqBuf, rqBufWi := rqBuf + CmdWords(SetMap(a.am)), rqBufWi + 1;
        pl0AddrMap := a.am;
      }
      if a.mode != pl0AccMode {
        rqBuf, rqBufWi := rqBuf + CmdWords(SetMode(a.mode)), rqBufWi + 1;
        pl0AccMode := a.mode;
      }
      if a.addr < pl0BaseAddr || a.addr > pl0BaseAddr + 0xFFFF {
        pl0BaseAddr := a.addr / TWO16 * TWO16;
        rqBuf, rqBufWi := rqBuf + CmdWords(SetBase(pl0BaseAddr)), rqBufWi + if a.addr < TWO32 then 1 else 2;
      }
    }

    /** Appends words to the request, and bytes to the size of its reply. */
    method Append(words: seq<Word>, rsp: nat)
      modifies `rqBuf, `rqBufWi, `rspSize
      ensures rqBuf == old(rqBuf) + words && |rqBuf| == old(|rqBuf|) + |words|
      ensures rqBufWi == old(rqBufWi) + |words| && rspSize == old(rspSize) + rsp
    {
      rqBuf, rqBufWi, rspSize := rqBuf + words, rqBufWi + |words|, rspSize + rsp;
    }

    method RdCmd(n: nat, a15to0: nat)
      requires ValidSize(Read, n)
      modifies `rqBuf, `rqBufWi, `rspSize
      ensures var ws := CmdWords(Rw(Read, a15to0, n, []));
        rqBuf == old(rqBuf) + ws && |rqBuf| == old(|rqBuf|) + |ws| && rqBufWi == old(rqBufWi) + |ws|
      ensures rspSize == old(rspSize) + RspBytes(Read, n)
    {
      var cmd := RwCode(Read, n);
      hide *;
      RdWords(a15to0, n);
      if n <= 8 {
        Append([Head(0, cmd, a15to0)], 4 + if cmd == 0x27 then 8 else 4);
      } else {
        Append([Head(1, cmd, a15to0), Word(n / 4 % 256, 0, 0, 0)], 4 + n);
      }
    }

    /** The copy of a block is skipped where the buffer would end; what it held before is then sent. */
    method WrCmd(n: nat, a15to0: nat, data: seq<byte>)
      requires ValidSize(Write, n) && |data| == n
      modifies `rqBuf, `rqBufWi, `rspSize
      ensures var d := if n > 8 && old(rqBufWi) + 1 + n / 4 >= cfg.rqWiMax then Held(cfg, old(rqBufWi) + 1, n) else data;
        var ws := CmdWords(Rw(Write, a15to0, n, d));
        rqBuf == old(rqBuf) + ws && |rqBuf| == old(|rqBuf|) + |ws| && rqBufWi == old(rqBufWi) + |ws|
      ensures rspSize == old(rspSize) + RspBytes(Write, n)
    {
      var cmd := RwCode(Write, n);
      hide *;
      if n <= 8 {
        WrWords(a15to0, n, data);
        Append([Head(if n > 4 then 2 else 1, cmd, a15to0)] + ToWords(data), 4);
      } else {
        var wl := if n / 4 % 256 == 0 then 256 else n / 4 % 256;
        BlockLen(n);
        var d := if rqBufWi + 1 + wl < cfg.rqWiMax then data else Held(cfg, rqBufWi + 1, n);
        WrWords(a15to0, n, d);
        Append([Head(n / 4 % 256, cmd, a15to0)] + ToWords(d), 4);
      }
    }

    method FillCmd(n: nat, a15to0: nat, data: seq<byte>)
      requires |data| == 8
      modifies `rqBuf, `rqBufWi, `rspSize
      ensures var ws := CmdWords(Rw(Fill, a15to0, n, data));
        rqBuf == old(rqBuf) + ws && |rqBuf| == old(|rqBuf|) + |ws| && rqBufWi == old(rqBufWi) + |ws|
      ensures rspSize == old(rspSize) + RspBytes(Fill, n)
    {
      var cmd := RwCode(Fill, n);
      hide *;
      FillWordsAre(a15to0, n, data);
      Append([Head(3, cmd, a15to0), Word(n / 4 % 256, 0, 0, 0)] + ToWords(data), 4);
    }

    /** Writes the command of an access. */
    method WriteCmd(a: Access)
      requires ValidSize(a.kind, a.n) && ValidData(a.kind, a.n, a.data)
      modifies `rqBuf, `rqBufWi, `rspSize
      ensures var w := OnWire(cfg, old(rqBufWi), a); var len := CmdLen(Rw(a.kind, 0, a.n, []));
        && rqBuf == old(rqBuf) + CmdWords(Rw(a.kind, a.addr % TWO16, a.n, w.data)) && |rqBuf| == old(|rqBuf|) + len
        && rqBufWi == old(rqBufWi) + len && rspSize == old(rspSize) + RspBytes(a.kind, a.n)
    {
      hide CmdWords, CmdLen, RspBytes, OnWire, ValidSize, ValidData, Held;
      var a15to0 := a.addr % TWO16;
      CopyRule(cfg, rqBufWi, a);
      CmdLength(a.kind, a15to0, a.n, OnWire(cfg, rqBufWi, a).data);
      match a.kind {
        case Read => RdCmd(a.n, a15to0);
        case Write => WrCmd(a.n, a15to0, a.data);
        case Fill => FillCmd(a.n, a15to0, a.data);
      }
    }

    /** Writes and records one access. */
    method PktWrite(p: Trans)
      requires Valid() && ValidSize(p.acc.kind, p.acc.n) && ValidData(p.acc.kind, p.acc.n, p.acc.data)
      modifies this
      ensures Valid() && enc == Emit(cfg, old(enc), p)
      ensures Outside(old(pl1CntOutstandingOldest), old(deviceResetCount), old(tasErr))
    {
      hide StreamWords, CmdsWords, CmdWords, SizesOk, Sane, NoRsps, Legal, CtxCmds, CtxBytes, BaseOf, SetBit, RspBytes, CmdLen, BufferOf, OnWire, ValidData;
      EmitSizes(cfg, enc, p);
      EmitSane(cfg, enc, p);
      EmitWords(cfg, enc, p);
      MoreRsps(|pl0Trans|);
      SetAddrMapAccModeBaseAddr(p.acc);
      WriteCmd(p.acc);
      pl0Trans, pl0TransRsp := pl0Trans + [p], pl0TransRsp + [NO_RSP];
      pl2NumTrans := pl2NumTrans + 1;
      enc := Emit(cfg, enc, p);
      assert rqBuf == BufferOf(enc);
    }

    method PktAdd(p: Trans)
      requires Valid() && (p.acc.n == 0 || ValidSize(p.acc.kind, p.acc.n)) && ValidData(p.acc.kind, p.acc.n, p.acc.data)
      modifies this
      ensures Valid() && enc == AddPiece(cfg, old(enc), p)
      ensures Outside(old(pl1CntOutstandingOldest), old(deviceResetCount), old(tasErr))
    {
      hide Finalize, Emit, NeedRq;
      if p.acc.n == 0 {
        return;
      }
      PktFinalizeIf(pl2NumTrans >= cfg.maxRw);
      PktFinalizeIf(!RemainingPktSizeSufficient(NeedRq(Context(), p.acc), RspBytes(p.acc.kind, p.acc.n) + 4));
      PktWrite(p);
    }

    // ---- One transaction ----

    method AddCut(c: bool, t: Trans, off: nat, k: nat) returns (next: nat)
      requires Valid() && ValidTrans(t) && !t.acc.kind.Fill? && (k == 1 || k == 2 || k == 4) && (c ==> off + k <= t.acc.n)
      modifies this
      ensures Valid() && enc == Apply(cfg, old(enc), Cut(c, t, off, k)) && next == Skip(c, off, k)
      ensures Outside(old(pl1CntOutstandingOldest), old(deviceResetCount), old(tasErr))
    {
      next := off;
      if c {
        hide AddPiece;
        ghost var p := Sub(t, off, k);
        SubData(t, off, k);
        Limits.ApplyOne(cfg, enc, p);
        PktAdd(Sub(t, off, k));
        next := off + k;
      }
    }

    method AddHead(t: Trans) returns (off: nat)
      requires Valid() && ValidTrans(t) && !t.acc.kind.Fill?
      modifies this
      ensures Valid() && enc == Apply(cfg, old(enc), HeadActs(t)) && off == HeadEnd(t)
      ensures Outside(old(pl1CntOutstandingOldest), old(deviceResetCount), old(tasErr))
    {
      hide ValidTrans, Apply, Cut, Valid;
      ghost var st := enc;
      off := AddCut(HeadCut(t, 0, 1), t, 0, 1);
      ghost var a := Cut(HeadCut(t, 0, 1), t, 0, 1);
      ghost var b := Cut(HeadCut(t, off, 2), t, off, 2);
      off := AddCut(HeadCut(t, off, 2), t, off, 2);
      ApplyAppend(cfg, st, a, b);
      ghost var c := Cut(HeadCut(t, off, 4), t, off, 4);
      off := AddCut(HeadCut(t, off, 4), t, off, 4);
      ApplyAppend(cfg, st, a + b, c);
    }

    method AddTail(t: Trans, start: nat)
      requires Valid() && ValidTrans(t) && !t.acc.kind.Fill? && start == BlocksEnd(t)
      modifies this
      ensures Valid() && enc == Apply(cfg, old(enc), TailActs(t))
      ensures Outside(old(pl1CntOutstandingOldest), old(deviceResetCount), old(tasErr))
    {
      hide ValidTrans, Apply, Cut, Valid, BlocksEnd;
      ghost var st := enc;
      var off := start;
      ghost var a := Cut(TailCut(t, off, 4), t, off, 4);
      off := AddCut(TailCut(t, off, 4), t, off, 4);
      ghost var b := Cut(TailCut(t, off, 2), t, off, 2);
      off := AddCut(TailCut(t, off, 2), t, off, 2);
      ApplyAppend(cfg, st, a, b);
      ghost var c := Cut(TailCut(t, off, 1), t, off, 1);
      off := AddCut(TailCut(t, off, 1), t, off, 1);
      ApplyAppend(cfg, st, a + b, c);
    }

    /** Adds the block of nb bytes at offset off. */
    method AddBlockPiece(t: Trans, off: nat, nb: nat)
      requires Valid() && ValidTrans(t) && !t.acc.kind.Fill? && off + nb <= t.acc.n && nb % 8 == 0 && nb <= BLK_SIZE
      modifies this
      ensures Valid() && Outside(old(pl1CntOutstandingOldest), old(deviceResetCount), old(tasErr))
      ensures enc == AddPiece(cfg, old(enc), Sub(t, off, nb))
    {
      hide *;
      SubData(t, off, nb);
      BlockSize(t.acc.kind, nb);
      PktAdd(Sub(t, off, nb));
    }

    /** One round of the block loop: a block as large as the packet has room for, or a new packet. */
    method AddBlock(t: Trans, off: nat) returns (next: nat)
      requires Valid() && ValidTrans(t) && !t.acc.kind.Fill? && off + 8 <= t.acc.n
      modifies this
      ensures Valid() && Outside(old(pl1CntOutstandingOldest), old(deviceResetCount), old(tasErr))
      ensures (enc, next) == RoundOf(cfg, old(enc), t, off)
    {
      ValidParts();
      hide *;
      var nb := DataBlkSize(t.acc.kind, t.acc.n - off, t.acc.addr + off);
      RoundDone(cfg, enc, t, off, nb);
      AddBlockPiece(t, off, nb);
      PktFinalizeIf(SwitchAfter(t, off, nb));
      next := off + nb;
    }

    /** What a round leaves to do. Without progress, less of the packet is used. */
    method AddBlockStep(t: Trans, off: nat) returns (next: nat)
      requires Valid() && ValidTrans(t) && !t.acc.kind.Fill? && off + 8 <= t.acc.n
      modifies this
      ensures Valid() && Outside(old(pl1CntOutstandingOldest), old(deviceResetCount), old(tasErr))
      ensures off <= next <= t.acc.n && BlocksFrom(t, next) == BlocksFrom(t, off)
      ensures AfterBlocks(cfg, enc, t, next) == AfterBlocks(cfg, old(enc), t, off)
      ensures next == off ==> 0 <= Used(enc) < Used(old(enc))
    {
      ValidParts();
      hide *;
      RoundKeeps(cfg, enc, t, off);
      next := AddBlock(t, off);
    }

    method AddBlocks(t: Trans, start: nat) returns (off: nat)
      requires Valid() && ValidTrans(t) && !t.acc.kind.Fill? && start == HeadEnd(t)
      modifies this
      ensures Valid() && enc == AfterBlocks(cfg, old(enc), t, start) && off == BlocksEnd(t)
      ensures Outside(old(pl1CntOutstandingOldest), old(deviceResetCount), old(tasErr))
    {
      hide Valid, AfterBlocks, BlocksFrom, BlocksEnd, HeadEnd, Used, ValidTrans;
      off := start;
      BlocksFromHead(t);
      while t.acc.n - off >= 8
        invariant Valid() && off <= t.acc.n && BlocksFrom(t, off) == BlocksEnd(t)
        invariant Outside(old(pl1CntOutstandingOldest), old(deviceResetCount), old(tasErr))
        invariant AfterBlocks(cfg, enc, t, off) == AfterBlocks(cfg, old(enc), t, start)
        decreases t.acc.n - off, Used(enc)
      {
        off := AddBlockStep(t, off);
      }
      BlocksStop(cfg, enc, t, off);
    }

    /** The splitting of a read or write: unaligned head, blocks, tail. */
    method AddLadder(t: Trans)
      requires Valid() && ValidTrans(t) && !t.acc.kind.Fill?
      modifies this
      ensures Valid() && enc == Apply(cfg, old(enc), Ladder(cfg, old(enc), t))
      ensures Outside(old(pl1CntOutstandingOldest), old(deviceResetCount), old(tasErr))
    {
      hide Apply, ValidTrans, HeadActs, TailActs, HeadEnd, BlocksEnd, Blocks;
      ghost var st := enc;
      ApplySane(cfg, st, HeadActs(t));
      var off := AddHead(t);
      ghost var blocks := Blocks(cfg, enc, t, off);
      off := AddBlocks(t, off);
      AddTail(t, off);
      ApplyAppend(cfg, st, HeadActs(t), blocks);
      ApplyAppend(cfg, st, HeadActs(t) + blocks, TailActs(t));
    }

    method AddFill1(t: Trans, off: nat) returns (next: nat)
      requires Valid() && ValidTrans(t) && t.acc.kind.Fill? && off < t.acc.n && off % 8 == 0 && t.acc.n % 8 == 0
      modifies this
      ensures Valid() && Outside(old(pl1CntOutstandingOldest), old(deviceResetCount), old(tasErr))
      ensures off < next <= t.acc.n && next % 8 == 0
      ensures Apply(cfg, enc, FillActs(t, next)) == Apply(cfg, old(enc), FillActs(t, off))
    {
      hide Apply, ValidTrans, AddPiece, FillActs, Valid, Outside, Sub, ValidData;
      var k := if t.acc.n - off > BLK_SIZE then BLK_SIZE else t.acc.n - off;
      SubData(t, off, k);
      FillRound(cfg, enc, t, off);
      PktAdd(Sub(t, off, k));
      next := off + k;
    }

    method AddFills(t: Trans)
      requires Valid() && ValidTrans(t) && t.acc.kind.Fill? && t.acc.n % 8 == 0
      modifies this
      ensures Valid() && enc == Apply(cfg, old(enc), FillActs(t, 0))
      ensures Outside(old(pl1CntOutstandingOldest), old(deviceResetCount), old(tasErr))
    {
      hide Apply, ValidTrans, FillActs, Valid;
      var off := 0;
      while off < t.acc.n
        invariant Valid() && off <= t.acc.n && off % 8 == 0
        invariant Outside(old(pl1CntOutstandingOldest), old(deviceResetCount), old(tasErr))
        invariant Apply(cfg, enc, FillActs(t, off)) == Apply(cfg, old(enc), FillActs(t, 0))
      {
        off := AddFill1(t, off);
      }
      FillsEnd(t);
      ApplyNone(cfg, enc);
    }

    lemma TakesNow(t: Trans)
      requires Valid()
      ensures Admitted(cfg, enc, t) <==> Takes(cfg, 4 * rqBufWi + 4, rspSize + 4, t)
    {
      hide Admitted, Takes;
      TakesIs(cfg, enc, t);
      assert 4 * rqBufWi + 4 == RqSize(enc) && rspSize + 4 == RspSize(enc);
    }

    /** rw_add_rd, rw_add_wr and rw_add_fill: adds a whole transaction, or changes nothing. */
    method AddTrans(t: Trans) returns (ok: bool)
      requires Valid() && ValidTrans(t)
      modifies this
      ensures Valid() && ok == TryAdd(cfg, old(enc), t).Some?
      ensures ok == Takes(cfg, 4 * old(rqBufWi) + 4, old(rspSize) + 4, t)
      ensures enc == if ok then TryAdd(cfg, old(enc), t).value else old(enc)
      ensures Outside(old(pl1CntOutstandingOldest), old(deviceResetCount), old(tasErr))
    {
      hide Apply, ValidTrans, WithinLimits, Compile, Mapped, Valid, Takes;
      TakesNow(t);
      var a := t.acc;
      if a.n == 0 || (a.kind.Fill? && (a.addr % 8 != 0 || a.n % 8 != 0 || a.mode != 0 || a.am >= AM12)) {
        return false;
      }
      if !CheckLimits(if a.kind.Read? then a.n else 0, if a.kind.Read? then 0 else a.n) || MapOf(a.am) > AM15 {
        return false;
      }
      AddBody(t);
      AddRecord(Mapped(t));
      return true;
    }

    method AddRecord(t: Trans)
      requires Valid()
      modifies `rwTrans, `rwTransRsp, `enc
      ensures Valid() && enc == Record(old(enc), t)
    {
      hide SizesOk, Sane, Legal, NoRsps, BufferOf, StreamWords;
      RecordKeeps(enc, t);
      MoreRsps(|rwTrans|);
      rwTrans, rwTransRsp := rwTrans + [t], rwTransRsp + [NO_RSP];
      enc := Record(enc, t);
    }

    /** The packet switches before a transaction, and its pieces. */
    method AddBody(t: Trans)
      requires Valid() && ValidTrans(t) && (t.acc.kind.Fill? ==> t.acc.n % 8 == 0)
      modifies this
      ensures Valid() && enc == Apply(cfg, old(enc), Compile(cfg, old(enc), t))
      ensures Outside(old(pl1CntOutstandingOldest), old(deviceResetCount), old(tasErr))
    {
      hide Apply, Ladder, FillActs, Manageable, NewPacket, Finalize;
      ghost var st := enc;
      ghost var first := FinIf(!Manageable(cfg, st, t));
      ApplyFinIf(cfg, st, !Manageable(cfg, st, t));
      PktFinalizeIf(!NumTransManageable(t));
      ghost var s1 := enc;
      ghost var second := FinIf(NewPacket(cfg, s1, Mapped(t), t.acc.am));
      ApplyFinIf(cfg, s1, NewPacket(cfg, s1, Mapped(t), t.acc.am));
      ApplyAppend(cfg, st, first, second);
      PktFinalizeIf(NeedsNewPacket(Mapped(t), t.acc.am));
      ghost var s2 := enc;
      if t.acc.kind.Fill? {
        ApplyAppend(cfg, st, first + second, FillActs(t, 0));
        AddFills(t);
      } else {
        ApplyAppend(cfg, st, first + second, Ladder(cfg, s2, Mapped(t)));
        AddLadder(Mapped(t));
      }
    }

    /** A request for a whole list; if one transaction is refused, an empty request is left. */
    method SetTransactions(ts: seq<Trans>) returns (succ: bool)
      requires Legal(cfg) && forall i :: 0 <= i < |ts| ==> ValidTrans(ts[i])
      modifies this
      ensures Valid() && succ == SetTrans(cfg, old(pl1CntOutstandingLast), ts).ok
      ensures ts == [] ==> !succ
      ensures |ts| == 1 ==> succ == Takes(cfg, 16, 12, ts[0])
      ensures enc == SetTrans(cfg, old(pl1CntOutstandingLast), ts).st
      ensures pl1CntOutstandingOldest == NextCnt(if succ then old(pl1CntOutstandingLast) else pl1CntOutstandingLast)
      ensures deviceResetCount == old(deviceResetCount) && tasErr == old(tasErr)
    {
      hide ValidTrans, TryAdd, NextCnt, Takes;
      if |ts| == 1 {
        OneAccepted(cfg, pl1CntOutstandingLast, ts[0]);
        assert [ts[0]] == ts;
      }
      StartRequest();
      ghost var last := pl1CntOutstandingLast;
      succ := false;
      var t := 0;
      while t < |ts|
        invariant t <= |ts| && Valid() && succ == (t > 0)
        invariant ts != [] ==> AddAll(cfg, enc, ts[t..]) == SetTrans(cfg, last, ts)
        invariant t == 0 ==> enc == Start(last)
        invariant Outside(NextCnt(last), old(deviceResetCount), old(tasErr))
      {
        TryAddSane(cfg, enc, ts[t]);
        succ := AddTrans(ts[t]);
        assert ts[t..][0] == ts[t] && ts[t..][1..] == ts[t + 1..];
        if !succ {
          StartRequest();
          break;
        }
        t := t + 1;
      }
    }

    function RqSizeNow(): nat
      reads this
    {
      if getRqWasCalled then 4 * rqBufWi else 4 * rqBufWi + 4
    }

    function RspSizeNow(): nat
      reads this
    {
      if getRqWasCalled then rspSize else rspSize + 4
    }

    /** Completes the request: its words, its size, the size of the reply and the number of packets. */
    method GetRq() returns (rq: seq<Word>, rqNumBytes: nat, rspNumBytesMax: nat, num: nat)
      requires Valid()
      modifies this
      ensures var st := old(enc);
        && Sealed(st)
        && rq == StreamWords(Packets(st)) && num == |Packets(st)|
        && rqNumBytes == old(RqSizeNow()) == RqSize(st) == 4 * |rq| && rspNumBytesMax == old(RspSizeNow()) == RspSize(st)
      ensures Outside(old(pl1CntOutstandingOldest), old(deviceResetCount), old(tasErr))
    {
      hide StreamWords;
      ClosePacket();
      getRqWasCalled := true;
      rq, rqNumBytes, rspNumBytesMax, num := rqBuf, RqSizeNow(), RspSizeNow(), numPl2Pkt;
    }

    // ---- Replies ----

    /** The parser's state: read index, next packet, record, client memory, and the fields. */
    ghost function Now(wi: nat, next: nat, i: nat, heap: Heap): Parse
      reads `pl1CntOutstandingOldest, `deviceResetCount, `pl0TransRsp, `tasErr
    {
      Parse(wi, next, pl1CntOutstandingOldest, deviceResetCount, Result(i, pl0TransRsp, heap, tasErr))
    }

    /** A rejected reply leaves the error code in tasErr; all else is as in the verdict's state. */
    ghost predicate Agrees(v: Verdict, flow: Flow, wi: nat, next: nat, i: nat, heap: Heap)
      reads `pl1CntOutstandingOldest, `deviceResetCount, `pl0TransRsp, `tasErr
    {
      match flow
      case Go => v == More(Now(wi, next, i, heap))
      case Stop => v == End(Now(wi, next, i, heap))
      case Fail => v.Bad? && v.code == tasErr && v.p == Now(wi, next, i, heap).(res := Result(i, pl0TransRsp, heap, v.p.res.err))
    }

    method ParseStart(rsp: seq<Word>, wi0: nat, next0: nat, ghost i: nat, ghost heap: Heap) returns (flow: Flow, wi: nat, next: nat)
      requires wi0 < |rsp|
      modifies `deviceResetCount, `tasErr
      ensures Agrees(StartStep(cfg.maxRspSize, rsp, old(Now(wi0, next0, i, heap))), flow, wi, next, i, heap)
    {
      flow, wi, next := Fail, wi0, next0;
      var len := U32(rsp[wi]);
      if len % 4 != 0 || len > cfg.maxRspSize || wi + 1 >= |rsp| {
        tasErr := ERR_SERVER_CON;
        return;
      }
      next := next + len / 4;
      var w := rsp[wi + 1];
      if w.b0 != 0 || w.b1 != CMD_PL0_START {
        tasErr := ERR_SERVER_CON;
        return;
      }
      if w.b3 == DEV_ACCESS {
        tasErr := ERR_DEVICE_ACCESS;
        return;
      } else if w.b3 == DEV_RESET {
        deviceResetCount := deviceResetCount + 1;
      } else if w.b3 != PL_NO_ERROR {
        tasErr := ERR_SERVER_CON;
        return;
      }
      wi := wi + 2;
      flow := Go;
    }

    method ParseEnd(w: Word, wi0: nat, ghost next: nat, i: nat, ghost heap: Heap) returns (flow: Flow, wi: nat)
      modifies `pl1CntOutstandingOldest, `tasErr
      ensures Agrees(EndStep(pl0Trans, w, old(Now(wi0, next, i, heap))), flow, wi, next, i, heap)
    {
      flow, wi := Fail, wi0;
      if w.b0 != 0 || Field16(w) != pl1CntOutstandingOldest {
        tasErr := ERR_SERVER_CON;
        return;
      }
      wi := wi + 1;
      if i == |pl0Trans| {
        flow := Stop;
      } else {
        pl1CntOutstandingOldest := NextCnt(pl1CntOutstandingOldest);
        flow := Go;
      }
    }

    method SetErrPl0Data(err: byte, kind: Kind)
      modifies `tasErr
      ensures tasErr == FirstErr(old(tasErr), err, kind)
    {
      if tasErr == ERR_NONE {
        tasErr := if err == DEV_LOCKED then ERR_DEVICE_LOCKED else if err == DEV_ACCESS then ERR_DEVICE_ACCESS
                  else if kind.Read? then ERR_RW_READ else ERR_RW_WRITE;
      }
    }

    method ParseWrite(w: Word, wi0: nat, ghost next: nat, i0: nat, ghost heap: Heap) returns (flow: Flow, wi: nat, i: nat)
      requires i0 < |pl0Trans| == |pl0TransRsp|
      modifies `pl0TransRsp, `tasErr
      ensures |pl0TransRsp| == |pl0Trans|
      ensures Agrees(WriteStep(pl0Trans[i0], w, old(Now(wi0, next, i0, heap))), flow, wi, next, i, heap)
    {
      flow, wi, i := Fail, wi0, i0;
      var t := pl0Trans[i].acc;
      var k := (t.n + 3) / 4;
      if w.b0 != 0 || t.kind.Read? {
        tasErr := ERR_SERVER_CON;
        return;
      }
      if w.b3 != NO_ERROR {
        pl0TransRsp := pl0TransRsp[i := pl0TransRsp[i].(err := w.b3)];
        if if w.b1 == CMD_WRBLK then w.b2 >= k else w.b2 != 0 {
          tasErr := ERR_SERVER_CON;
          return;
        }
        pl0TransRsp := pl0TransRsp[i := pl0TransRsp[i].(ok := 4 * w.b2)];
        SetErrPl0Data(w.b3, Write);
      } else {
        if w.b2 != k % 256 {
          tasErr := ERR_SERVER_CON;
          return;
        }
        pl0TransRsp := pl0TransRsp[i := Rsp(t.n, NO_ERROR)];
      }
      flow, wi, i := Go, wi + 1, i + 1;
    }

    method ParseRead(w: Word, rest: seq<Word>, wi0: nat, ghost next: nat, i0: nat, mem: Heap)
      returns (flow: Flow, wi: nat, i: nat, heap: Heap)
      requires i0 < |pl0Trans| == |pl0TransRsp|
      modifies `pl0TransRsp, `tasErr
      ensures |pl0TransRsp| == |pl0Trans|
      ensures Agrees(ReadStep(pl0Trans[i0], w, rest, old(Now(wi0, next, i0, mem))), flow, wi, next, i, heap)
    {
      hide Put, ToBytes;
      flow, wi, i, heap := Fail, wi0, i0, mem;
      var t := pl0Trans[i];
      var k := (t.acc.n + 3) / 4;
      var ok := t.acc.n;
      var skip: nat := w.b0;
      if w.b0 != w.b2 || !t.acc.kind.Read? {
        tasErr := ERR_SERVER_CON;
        return;
      }
      if w.b1 == CMD_RDBLK1KB {
        if k != 256 || w.b0 != 0 || w.b3 != NO_ERROR {
          tasErr := ERR_SERVER_CON;
          return;
        }
        ok, skip := BLK_SIZE, 256;
      } else if w.b3 != NO_ERROR {
        if if w.b1 == CMD_RDBLK then w.b2 > k else w.b2 != 0 {
          tasErr := ERR_SERVER_CON;
          return;
        }
        ok := 4 * w.b2;
      } else if w.b2 != k % 256 {
        tasErr := ERR_SERVER_CON;
        return;
      }
      if |ToBytes(rest)| < ok {
        tasErr := ERR_SERVER_CON;
        return;
      }
      if w.b3 != NO_ERROR {
        SetErrPl0Data(w.b3, Read);
      }
      pl0TransRsp := pl0TransRsp[i := Rsp(ok, w.b3)];
      heap := Put(heap, t.ptr, ToBytes(rest)[..ok]);
      flow, wi, i := Go, wi + 1 + skip, i + 1;
    }

    method ParseRound(rsp: seq<Word>, wi0: nat, next0: nat, i0: nat, mem: Heap)
      returns (flow: Flow, wi: nat, next: nat, i: nat, heap: Heap)
      requires wi0 < |rsp| && |pl0TransRsp| == |pl0Trans|
      modifies `pl0TransRsp, `pl1CntOutstandingOldest, `deviceResetCount, `tasErr
      ensures |pl0TransRsp| == |pl0Trans|
      ensures Agrees(Step(pl0Trans, cfg.maxRspSize, rsp, old(Now(wi0, next0, i0, mem))), flow, wi, next, i, heap)
    {
      hide StartStep, EndStep, WriteStep, ReadStep, IsWriteCmd, IsReadCmd;
      flow, wi, next, i, heap := Fail, wi0, next0, i0, mem;
      var w := rsp[wi];
      if wi == next {
        flow, wi, next := ParseStart(rsp, wi, next, i, heap);
      } else if w.b1 == CMD_PL0_END {
        flow, wi := ParseEnd(w, wi, next, i, heap);
      } else if i >= |pl0Trans| {
        tasErr := ERR_SERVER_CON;
      } else if IsWriteCmd(w.b1) {
        flow, wi, i := ParseWrite(w, wi, next, i, heap);
      } else if IsReadCmd(w.b1) {
        flow, wi, i, heap := ParseRead(w, rsp[wi + 1..], wi, next, i, heap);
      } else {
        tasErr := ERR_SERVER_CON;
      }
    }

    /** rw_set_rsp for the request st, built when the PL1 count was last: parses a reply, stores the results
        of the PL0 accesses and delivers the data read to the client's memory. */
    method SetResponse(ghost st: Enc, ghost last: nat, rsp: seq<Word>, mem: Heap) returns (err: nat, heap: Heap)
      requires Legal(cfg) && Sealed(st) && pl1CntOutstandingOldest == NextCnt(last)
      modifies `pl0TransRsp, `pl1CntOutstandingOldest, `deviceResetCount, `tasErr
      ensures var v := SetRsp(cfg, st, last, old(deviceResetCount), mem, rsp);
        && (v.Bad? || v.End?) && err == tasErr == (if v.Bad? then v.code else v.p.res.err)
        && heap == v.p.res.heap && pl0TransRsp == v.p.res.recs && |pl0TransRsp| == |pl0Trans|
        && pl1CntOutstandingOldest == v.p.oldest && deviceResetCount == v.p.resets
    {
      hide Step, NextCnt, NoRsps;
      heap := mem;
      if |rsp| < 2 || 4 * |rsp| > rspSize {
        tasErr := ERR_SERVER_CON;
        return tasErr, heap;
      }
      tasErr := ERR_NONE;
      ghost var v := SetRsp(cfg, st, last, old(deviceResetCount), mem, rsp);
      var wi, next, i := 0, 0, 0;
      while wi < |rsp|
        invariant |pl0TransRsp| == |pl0Trans| && ParseLoop(pl0Trans, cfg.maxRspSize, rsp, Now(wi, next, i, heap)) == v
        decreases |rsp| - wi
      {
        StepAdvances(pl0Trans, cfg.maxRspSize, rsp, Now(wi, next, i, heap));
        var flow;
        flow, wi, next, i, heap := ParseRound(rsp, wi, next, i, heap);
        if flow != Go {
          break;
        }
      }
      return tasErr, heap;
    }

    /** rw_get_trans_rsp: folds the PL0 results back to the transactions. */
    method GetTransRsp() returns (rsps: seq<Rsp>)
      requires 0 < |rwTrans| == |rwTransRsp| && |pl0Trans| == |pl0TransRsp|
      modifies `rwTransRsp
      ensures rsps == rwTransRsp == TransRsp(rwTrans, pl0Trans, pl0TransRsp, old(rwTransRsp)) && |rsps| == |rwTrans|
    {
      var addrEnd, addrNextPl0, t := 0, 0, 0;
      rwTransRsp := rwTransRsp[t := Rsp(0, NO_ERROR)];
      var p := 0;
      while p < |pl0Trans|
        invariant p <= |pl0Trans| && t < |rwTrans| == |rwTransRsp|
        invariant AggLoop(rwTrans, pl0Trans, pl0TransRsp, p, Agg(t, addrEnd, rwTransRsp))
               == TransRsp(rwTrans, pl0Trans, pl0TransRsp, old(rwTransRsp))
      {
        var a, b := rwTrans[t].acc, pl0Trans[p].acc;
        ghost var out := rwTransRsp;
        assert out[t := out[t]] == out;
        if b.addr == a.addr {
          addrEnd := W64(a.addr + a.n);
        }
        addrNextPl0 := W64(b.addr + b.n);
        if rwTransRsp[t].err == NO_ERROR {
          rwTransRsp := rwTransRsp[t := Rsp((rwTransRsp[t].ok + pl0TransRsp[p].ok) % TWO16, pl0TransRsp[p].err)];
        }
        assert rwTransRsp == out[t := Accumulate(out[t], pl0TransRsp[p])];
        if addrNextPl0 >= addrEnd {
          t := t + 1;
          if t == |rwTrans| {
            break;
          }
          rwTransRsp := rwTransRsp[t := Rsp(0, NO_ERROR)];
        }
        p := p + 1;
      }
      return rwTransRsp;
    }
  }

  /** Filling in the header words and END turns the open packet's words into the packet. */
  lemma ClosedWords(closed: seq<Packet>, p: Packet, before: seq<Word>, after: seq<Word>)
    requires before == StreamWords(closed) + [ZERO, ZERO, ZERO] + CmdsWords(p.cmds)
    requires var h := |StreamWords(closed)|; var start := StartWords(p.cnt, p.mask);
      && |before| + 1 == h + PacketLen(p)
      && after == (before[h + 1 := start[0]][h + 2 := start[1]] + [Words.Head(0, CMD_PL0_END, p.numRw)])[h := FromU32(4 * PacketLen(p))]
    ensures after == StreamWords(closed + [p])
  {
    hide StartWords;
    var s, h, c := StreamWords(closed), |StreamWords(closed)|, CmdsWords(p.cmds);
    StreamAppend(closed, [p]);
    StreamWords1(p);
    var start := StartWords(p.cnt, p.mask);
    StartLen(p.cnt, p.mask);
    hide StreamWords, CmdsWords, PacketWords, FromU32;
    FilledWords(s, c, start, Words.Head(0, CMD_PL0_END, p.numRw), FromU32(4 * PacketLen(p)), before, after);
    PacketWordsIs(p);
  }

  lemma StreamWords1(p: Packet)
    ensures StreamWords([p]) == PacketWords(p)
  {
    assert [p][1..] == [];
    assert StreamWords([]) == [];
  }

  lemma PacketWordsIs(p: Packet)
    ensures PacketWords(p) == [FromU32(4 * PacketLen(p))] + StartWords(p.cnt, p.mask) + CmdsWords(p.cmds) + [Words.Head(0, CMD_PL0_END, p.numRw)]
  {}

  lemma FilledWords(s: seq<Word>, c: seq<Word>, start: seq<Word>, end: Word, len: Word, before: seq<Word>, after: seq<Word>)
    requires |start| == 2 && before == s + [ZERO, ZERO, ZERO] + c
    requires after == (before[|s| + 1 := start[0]][|s| + 2 := start[1]] + [end])[|s| := len]
    ensures after == s + ([len] + start + c + [end])
  {
  }

  lemma StartLen(cnt: nat, mask: nat)
    ensures |StartWords(cnt, mask)| == 2
  {}

  lemma CmdsWords1(c: Cmd)
    ensures CmdsWords([c]) == CmdWords(c)
  {
    assert [c][1..] == [];
    assert CmdsWords([]) == [];
  }

  lemma CmdLength(kind: Kind, f: nat, n: nat, data: seq<byte>)
    requires ValidData(kind, n, data)
    ensures |CmdWords(Rw(kind, f, n, data))| == CmdLen(Rw(kind, 0, n, []))
  {}

  /** The words and reply size of a read command. */
  lemma RdWords(f: nat, n: nat)
    requires ValidSize(Read, n)
    ensures var ws := CmdWords(Rw(Read, f, n, [])); var cmd := RwCode(Read, n);
      && (n <= 8 ==> ws == [Head(0, cmd, f)] && RspBytes(Read, n) == 4 + if cmd == 0x27 then 8 else 4)
      && (n > 8 ==> ws == [Head(1, cmd, f), Word(n / 4 % 256, 0, 0, 0)] && RspBytes(Read, n) == 4 + n)
  {
    hide Head;
  }

  /** Those of a write command. */
  lemma WrWords(f: nat, n: nat, data: seq<byte>)
    requires ValidSize(Write, n) && |data| == n
    ensures var ws := CmdWords(Rw(Write, f, n, data)); var cmd := RwCode(Write, n);
      && RspBytes(Write, n) == 4
      && ws == [Head(if n <= 8 then (if n > 4 then 2 else 1) else n / 4 % 256, cmd, f)] + ToWords(data)
  {
    if n > 8 {
      HeadWraps(n, RwCode(Write, n), f);
    }
    hide Head, RwCode, ToWords;
  }

  lemma FillWordsAre(f: nat, n: nat, data: seq<byte>)
    requires |data| == 8
    ensures var ws := CmdWords(Rw(Fill, f, n, data));
      && ws == [Head(3, RwCode(Fill, n), f), Word(n / 4 % 256, 0, 0, 0)] + ToWords(data)
      && RspBytes(Fill, n) == 4
  {
    hide Head;
  }

  lemma BlockLen(n: nat)
    requires ValidSize(Write, n) && n > 8
    ensures (if n / 4 % 256 == 0 then 256 else n / 4 % 256) == n / 4
  {}

  /** What is copied, and the length of the data an access has. */
  lemma CopyRule(cfg: Config, wi: nat, a: Access)
    requires ValidSize(a.kind, a.n) && ValidData(a.kind, a.n, a.data)
    ensures OnWire(cfg, wi, a).data == if a.kind.Write? && a.n > 8 && wi + 1 + a.n / 4 >= cfg.rqWiMax then Held(cfg, wi + 1, a.n) else a.data
    ensures (a.kind.Write? ==> |a.data| == a.n) && (a.kind.Fill? ==> |a.data| == 8) && (a.kind.Read? ==> a.data == [])
    ensures ValidData(a.kind, a.n, OnWire(cfg, wi, a).data)
  {
    hide Held;
  }

  /** The word length of a block is cast to 8 bits. */
  lemma HeadWraps(n: nat, cmd: nat, field: nat)
    requires 8 < n <= BLK_SIZE && n % 8 == 0
    ensures Head(n / 4 % 256, cmd, field) == Head((n + 3) / 4, cmd, field)
  {}

  lemma ApplyNone(cfg: Config, st: Enc)
    ensures Apply(cfg, st, []) == st
  {}

  lemma ApplyFin(cfg: Config, st: Enc)
    ensures Apply(cfg, st, [Fin]) == Finalize(st)
  {
    assert [Fin][1..] == [];
  }

  lemma ApplyFinIf(cfg: Config, st: Enc, c: bool)
    ensures Apply(cfg, st, FinIf(c)) == if c then Finalize(st) else st
  {
    ApplyFin(cfg, st);
  }

  lemma BlockSize(kind: Kind, k: nat)
    requires k % 8 == 0 && k <= BLK_SIZE
    ensures k == 0 || ValidSize(kind, k)
  {}

  lemma SubData(t: Trans, off: nat, k: nat)
    requires ValidTrans(t) && off + k <= t.acc.n && (t.acc.kind.Fill? ==> off % 8 == 0)
    ensures var a := Sub(t, off, k).acc; a.n == k && a.kind == t.acc.kind && ValidData(a.kind, a.n, a.data)
  {
    SubOps(t, off, k);
  }

  /** Is a block of nb bytes followed by a new packet? */
  predicate SwitchAfter(t: Trans, off: nat, nb: nat)
    requires off <= t.acc.n
  {
    nb < BLK_SIZE && nb < (t.acc.n - off) / 8 * 8
  }

  lemma RoundDone(cfg: Config, st: Enc, t: Trans, off: nat, nb: nat)
    requires Legal(cfg) && off <= t.acc.n && nb == Blk(cfg, st, t.acc.kind, t.acc.n - off, t.acc.addr + off)
    ensures var s := AddPiece(cfg, st, Sub(t, off, nb));
      RoundOf(cfg, st, t, off) == (if SwitchAfter(t, off, nb) then Finalize(s) else s, off + nb)
  {
    hide Apply, AddPiece, Finalize, Sub, Blk, Legal;
    var p := Sub(t, off, nb);
    Limits.ApplyOne(cfg, st, p);
    assert [Add(p)] + [] == [Add(p)];
    ApplyAppend(cfg, st, [Add(p)], [Fin]);
    ApplyFin(cfg, AddPiece(cfg, st, p));
  }

  function BlocksFrom(t: Trans, off: nat): nat
    requires off <= t.acc.n
  {
    off + (t.acc.n - off) / 8 * 8
  }

  lemma BlocksFromHead(t: Trans)
    ensures BlocksFrom(t, HeadEnd(t)) == BlocksEnd(t)
  {
    hide HeadEnd;
  }

  ghost function AfterBlocks(cfg: Config, st: Enc, t: Trans, off: nat): Enc {
    if Legal(cfg) && Sane(st) && off <= t.acc.n then Apply(cfg, st, Blocks(cfg, st, t, off)) else st
  }

  lemma BlocksStop(cfg: Config, st: Enc, t: Trans, off: nat)
    requires off <= t.acc.n < off + 8
    ensures off == BlocksFrom(t, off) && AfterBlocks(cfg, st, t, off) == st
  {}

  /** Builder and offset after one round of the block loop. */
  ghost function RoundOf(cfg: Config, st: Enc, t: Trans, off: nat): (Enc, nat)
    requires Legal(cfg) && off <= t.acc.n
  {
    var nb := Blk(cfg, st, t.acc.kind, t.acc.n - off, t.acc.addr + off);
    (Apply(cfg, st, BlkRound(t, off, nb)), off + nb)
  }

  /** One round of the block loop: what is left to do, and why the loop ends. */
  lemma RoundKeeps(cfg: Config, st: Enc, t: Trans, off: nat)
    requires Legal(cfg) && Sane(st) && off + 8 <= t.acc.n
    ensures var (s, next) := RoundOf(cfg, st, t, off);
      && off <= next <= t.acc.n && BlocksFrom(t, next) == BlocksFrom(t, off) && (next == off ==> 0 <= Used(s) < Used(st))
      && AfterBlocks(cfg, st, t, off) == AfterBlocks(cfg, s, t, next)
  {
    hide Apply, Blk, BlkRound, Legal;
    BlkRoundProgress(cfg, st, t, off);
    BlocksRound(cfg, st, t, off);
  }

  /** The request buffer while the last packet is open. */
  function BufferOf(st: Enc): seq<Word> {
    StreamWords(st.closed) + [ZERO, ZERO, ZERO] + CmdsWords(st.cmds)
  }

  lemma EmptyRequest(last: nat)
    ensures BufferOf(Start(last)) == [ZERO, ZERO, ZERO] && StreamWords(Start(last).closed) == [] && NoRsps(0) == []
    ensures Sane(Start(last)) && SizesOk(Start(last))
  {}

  lemma FinalizedWords(st: Enc)
    ensures BufferOf(Finalize(st)) == StreamWords(Packets(st)) + [ZERO, ZERO, ZERO]
  {
    hide OpenPacket, StreamWords;
    assert CmdsWords([]) == [];
  }

  /** The words of the context commands, one after the other. */
  lemma CtxWords(ctx: Ctx, a: Access)
    ensures CmdsWords(CtxCmds(ctx, a)) ==
      (if a.am != ctx.am then CmdWords(SetMap(a.am)) else [])
      + (if a.mode != ctx.mode then CmdWords(SetMode(a.mode)) else [])
      + (if NeedsBase(ctx, a.addr) then CmdWords(SetBase(a.addr / TWO16 * TWO16)) else [])
  {
    var m := if a.am != ctx.am then [SetMap(a.am)] else [];
    var d := if a.mode != ctx.mode then [SetMode(a.mode)] else [];
    var b := if NeedsBase(ctx, a.addr) then [SetBase(BaseOf(ctx, a.addr))] else [];
    hide CmdWords, NeedsBase;
    CmdsAppend(m + d, b);
    CmdsAppend(m, d);
    CmdsWords1(SetMap(a.am));
    CmdsWords1(SetMode(a.mode));
    CmdsWords1(SetBase(BaseOf(ctx, a.addr)));
  }

  lemma ContextLens(a: Access)
    ensures |CmdWords(SetMap(a.am))| == |CmdWords(SetMode(a.mode))| == 1
    ensures |CmdWords(SetBase(a.addr / TWO16 * TWO16))| == if a.addr < TWO32 then 1 else 2
  {
    BaseBelow(a.addr);
  }

  lemma EmitWords(cfg: Config, st: Enc, p: Trans)
    ensures var s, a := Emit(cfg, st, p), p.acc; var w := OnWire(cfg, st.wi + CtxBytes(st.ctx, a) / 4, a);
      BufferOf(s) == BufferOf(st) + CmdsWords(CtxCmds(st.ctx, a)) + CmdWords(Rw(a.kind, a.addr % TWO16, a.n, w.data))
  {
    hide StreamWords, CmdsWords, CmdWords, CtxCmds, OnWire;
    var s := Emit(cfg, st, p);
    var cc := CtxCmds(st.ctx, p.acc);
    var c := s.cmds[|s.cmds| - 1];
    CmdsAppend(st.cmds + cc, [c]);
    CmdsAppend(st.cmds, cc);
    CmdsWords1(c);
  }

  lemma MoreRsps(n: nat)
    ensures NoRsps(n + 1) == NoRsps(n) + [NO_RSP]
  {}

  lemma RecordKeeps(st: Enc, t: Trans)
    requires Sane(st) && SizesOk(st)
    ensures Sane(Record(st, t)) && SizesOk(Record(st, t)) && BufferOf(Record(st, t)) == BufferOf(st)
  {}

  lemma FinalizeSane(st: Enc)
    requires Sane(st)
    ensures Sane(Finalize(st))
  {}

  lemma EmitSane(cfg: Config, st: Enc, p: Trans)
    requires Sane(st)
    ensures Sane(Emit(cfg, st, p))
  {}

  lemma FillRound(cfg: Config, st: Enc, t: Trans, off: nat)
    requires off < t.acc.n
    ensures var k := Min(t.acc.n - off, BLK_SIZE);
      Apply(cfg, st, FillActs(t, off)) == Apply(cfg, AddPiece(cfg, st, Sub(t, off, k)), FillActs(t, off + k))
  {
    hide Apply, AddPiece;
    var k := Min(t.acc.n - off, BLK_SIZE);
    Limits.ApplyOne(cfg, st, Sub(t, off, k));
    ApplyAppend(cfg, st, [Add(Sub(t, off, k))], FillActs(t, off + k));
  }

  lemma FillsEnd(t: Trans)
    ensures forall off: nat :: off >= t.acc.n ==> FillActs(t, off) == []
  {}

  lemma BlocksRound(cfg: Config, st: Enc, t: Trans, off: nat)
    requires Legal(cfg) && Sane(st) && off + 8 <= t.acc.n
    ensures var nb := Blk(cfg, st, t.acc.kind, t.acc.n - off, t.acc.addr + off);
      var s := Apply(cfg, st, BlkRound(t, off, nb));
      Sane(s) && Apply(cfg, st, Blocks(cfg, st, t, off)) == Apply(cfg, s, Blocks(cfg, s, t, off + nb))
  {
    hide Apply, Blk, BlkRound, Sane, Legal;
    BlkRoundProgress(cfg, st, t, off);
    var nb := Blk(cfg, st, t.acc.kind, t.acc.n - off, t.acc.addr + off);
    var s := Apply(cfg, st, BlkRound(t, off, nb));
    ApplyAppend(cfg, st, BlkRound(t, off, nb), Blocks(cfg, s, t, off + nb));
  }
}
