/** The connection limits: where they come from, and what a refused ping leaves. */
module Ping {
  import opened Words
  import opened Errors
  import opened Semantics
  import opened Encoder
  import opened Tiling
  import opened Limits
  import ChlPacket

  const CMD_SESSION_START: byte := 0xA1
  const CMD_PING: byte := 0xA2
  const PROTOC_VER := 1

  const PL_NOT_SUPPORTED: byte := 0x12
  const PL_USAGE: byte := 0x14
  const PL1_CMD_FAILED: byte := 0x20
  const PL1_SESSION: byte := 0x38

  /** What a server announces: packet limits, message lengths, accesses per packet. */
  datatype ConInfo = ConInfo(maxRq: nat, maxRsp: nat, c2d: nat, d2c: nat, maxRw: nat)

  const NO_CON := ConInfo(0, 0, 0, 0, 0)

  datatype ClientType = Unknown | Rw | Chl

  /** A reply to ping or session start: PL2 length, header, protocol versions and what is announced. */
  datatype PingReply = PingReply(size: nat, wl: byte, cmd: byte, err: byte, verMin: byte, verMax: byte, con: ConInfo)

  /** Bytes of the reply on PL1: without the identifiers, if the other side is a device. */
  function PingSize(ct: ClientType): nat {
    if ct == Unknown then 36 else 128
  }

  predicate MsgLenOk(n: nat) {
    n % 4 == 0 && n <= ChlPacket.MAX_MSG_SIZE
  }

  /** The error code a reply of another size leads to. */
  function PktError(cmd: byte, p: PingReply): nat {
    if p.size != 8 || p.cmd != cmd then ERR_SERVER_CON
    else if p.err == PL_USAGE then ERR_FN_USAGE
    else if p.err == PL_NOT_SUPPORTED then ERR_FN_NOT_SUPPORTED
    else ERR_GENERAL
  }

  function PingError(ct: ClientType, cmd: byte, p: PingReply): nat {
    if p.size != 4 + PingSize(ct) then PktError(cmd, p)
    else if p.cmd != cmd || p.wl != PingSize(ct) / 4 - 1 then ERR_SERVER_CON
    else if PROTOC_VER < p.verMin || PROTOC_VER > p.verMax then ERR_SERVER_CON
    else if p.err == PL1_SESSION || p.err == PL_NOT_SUPPORTED then ERR_FN_PARAM
    else if p.err == PL1_CMD_FAILED then (if ct == Chl then ERR_CHL_SETUP else ERR_DEVICE_ACCESS)
    else if p.err != PL_NO_ERROR then ERR_SERVER_CON
    else if !PingAccepts(p.con.maxRq, p.con.maxRsp) || !MsgLenOk(p.con.c2d) || !MsgLenOk(p.con.d2c) then ERR_SERVER_CON
    else ERR_NONE
  }

  /** The base of all packet handlers, as far as it keeps what was announced. */
  class BaseHandler {
    var conInfo: ConInfo

    constructor ()
      ensures conInfo == NO_CON
    {
      conInfo := NO_CON;
    }

    /** What was announced before is cleared first; it is set only if every check passes. */
    method SetPktRspPing(cmd: byte, ct: ClientType, p: PingReply) returns (err: nat)
      modifies this
      ensures err == PingError(ct, cmd, p)
      ensures conInfo == if err == ERR_NONE then p.con else NO_CON
    {
      conInfo := NO_CON;
      var pl1PktSize := if ct == Unknown then 36 else 128;
      if p.size != 4 + pl1PktSize {
        return PktError(cmd, p);
      } else if p.cmd != cmd || p.wl != pl1PktSize / 4 - 1 {
        return ERR_SERVER_CON;
      } else if PROTOC_VER < p.verMin || PROTOC_VER > p.verMax {
        return ERR_SERVER_CON;
      } else if p.err != PL_NO_ERROR && p.err != PL1_CMD_FAILED && p.err != PL1_SESSION && p.err != PL_NOT_SUPPORTED {
        return ERR_SERVER_CON;
      } else if p.err == PL1_SESSION || p.err == PL_NOT_SUPPORTED {
        return ERR_FN_PARAM;
      } else if p.err == PL1_CMD_FAILED {
        return if ct == Chl then ERR_CHL_SETUP else ERR_DEVICE_ACCESS;
      }
      var con := p.con;
      if con.maxRq % 4 != 0 || con.maxRq < MIN_PKT || con.maxRq > MAX_PL2_PKT {
        return ERR_SERVER_CON;
      } else if con.maxRsp % 4 != 0 || con.maxRsp < MIN_PKT || con.maxRsp > MAX_PL2_PKT {
        return ERR_SERVER_CON;
      } else if con.c2d % 4 != 0 || con.c2d > ChlPacket.MAX_MSG_SIZE || con.d2c % 4 != 0 || con.d2c > ChlPacket.MAX_MSG_SIZE {
        return ERR_SERVER_CON;
      }
      conInfo := con;
      return ERR_NONE;
    }
  }

  /** Which replies are accepted, and what the others lead to: a reply to cmd of the full size for that kind of
      client, from a server that speaks version 1, without error, that announces packets of 128 to 65544 bytes and
      messages of up to 1024, all multiples of 4. */
  lemma PingCodes(ct: ClientType, cmd: byte, p: PingReply)
    ensures var e := PingError(ct, cmd, p); var con := p.con;
      var framed := p.size == (if ct == Unknown then 40 else 132) && p.cmd == cmd && p.wl == (if ct == Unknown then 8 else 31)
                    && p.verMin <= 1 <= p.verMax;
      var sound := con.maxRq % 4 == 0 && 128 <= con.maxRq <= 65544 && con.maxRsp % 4 == 0 && 128 <= con.maxRsp <= 65544
                   && con.c2d % 4 == 0 && con.c2d <= 1024 && con.d2c % 4 == 0 && con.d2c <= 1024;
      && (e == 0 <==> framed && p.err == 0x08 && sound)
      && (framed && (p.err == 0x38 || p.err == 0x12) ==> e == 0x0120)
      && (framed && p.err == 0x20 ==> e == if ct == Chl then 0x0800 else 0x0400)
      && (framed && (p.err == 0x08 || (p.err != 0x38 && p.err != 0x12 && p.err != 0x20)) && e != 0 ==> e == 0x0200)
      && (p.size == 8 && p.cmd == cmd ==> e == if p.err == 0x14 then 0x0110 else if p.err == 0x12 then 0x0100 else 0x0F00)
      && (!framed && (p.size != 8 || p.cmd != cmd) ==> e == 0x0200)
  {}

  /** The configuration of a read/write handler once it has seen a reply to its ping. */
  function AfterPing(cfg: Config, p: PingReply): Config {
    var con := if PingError(ClientType.Rw, CMD_PING, p) == ERR_NONE then p.con else NO_CON;
    cfg.(maxRq := con.maxRq, maxRsp := con.maxRsp, maxRw := con.maxRw)
  }

  /** One round of the block loop, in any configuration. */
  function Round(cfg: Config, st: Enc, t: Trans, off: nat): (r: (Enc, nat))
    requires off <= t.acc.n
    ensures off <= r.1 <= t.acc.n
  {
    var nb := Blk(cfg, st, t.acc.kind, t.acc.n - off, t.acc.addr + off);
    (Apply(cfg, st, BlkRound(t, off, nb)), off + nb)
  }

  function Rounds(cfg: Config, st: Enc, t: Trans, off: nat, k: nat): (Enc, nat)
    requires off <= t.acc.n
    decreases k
  {
    if k == 0 then (st, off)
    else
      var r := Round(cfg, st, t, off);
      Rounds(cfg, r.0, t, r.1, k - 1)
  }

  /** Without room in packets a round switches packets and moves nothing. */
  lemma RoundStuck(cfg: Config, st: Enc, t: Trans, off: nat)
    requires Sane(st) && off + 8 <= t.acc.n && cfg.maxRq == cfg.maxRsp == 0
    ensures Round(cfg, st, t, off) == (Finalize(st), off)
  {
    assert Blk(cfg, st, t.acc.kind, t.acc.n - off, t.acc.addr + off) == 0;
    hide Blk, Apply;
    EmptyRound(cfg, st, t, off);
  }

  lemma EmptyRound(cfg: Config, st: Enc, t: Trans, off: nat)
    requires off + 8 <= t.acc.n
    ensures Apply(cfg, st, BlkRound(t, off, 0)) == Finalize(st)
  {
    var p := Sub(t, off, 0);
    SubLen(t, off);
    hide Sub;
    assert BlkRound(t, off, 0) == [Add(p)] + [Fin] && p.acc.n == 0;
    ApplyAppend(cfg, st, [Add(p)], [Fin]);
    ApplyOne(cfg, st, p);
    assert [Fin][1..] == [];
  }

  lemma SubLen(t: Trans, off: nat)
    ensures Sub(t, off, 0).acc.n == 0
  {}

  lemma {:induction false} RoundsStuck(cfg: Config, st: Enc, t: Trans, off: nat, k: nat)
    requires Sane(st) && off + 8 <= t.acc.n && cfg.maxRq == cfg.maxRsp == 0
    ensures var r := Rounds(cfg, st, t, off, k); r.1 == off && |r.0.closed| == |st.closed| + k
    decreases k
  {
    hide Round;
    if k > 0 {
      RoundStuck(cfg, st, t, off);
      RoundsStuck(cfg, Finalize(st), t, off, k - 1);
    }
  }

  /** Does the block loop of the transfer t, from off on, get past its first 8 bytes? */
  ghost predicate Progresses(cfg: Config, st: Enc, t: Trans, off: nat)
    requires off <= t.acc.n
  {
    exists k: nat :: Rounds(cfg, st, t, off, k).1 > off
  }

  /** The configuration is legal after a ping exactly if the ping was accepted. If it was, every block loop
      moves on within two rounds; if not, none ever does, and each round opens one more packet. */
  lemma LegalAfterPing(cfg: Config, p: PingReply, st: Enc, t: Trans, off: nat)
    requires Legal(cfg) && Sane(st) && off + 8 <= t.acc.n
    ensures var c := AfterPing(cfg, p); var accepted := PingError(ClientType.Rw, CMD_PING, p) == ERR_NONE;
      && (Legal(c) <==> accepted)
      && (Progresses(c, st, t, off) <==> accepted)
  {
    var c := AfterPing(cfg, p);
    if PingError(ClientType.Rw, CMD_PING, p) == ERR_NONE {
      assert Legal(c);
      hide PingError, AfterPing, Legal, Blk;
      TwoRounds(c, st, t, off);
    } else {
      hide PingError, Rounds;
      forall k: nat ensures Rounds(c, st, t, off, k).1 == off {
        RoundsStuck(c, st, t, off, k);
      }
    }
  }

  lemma TwoRounds(cfg: Config, st: Enc, t: Trans, off: nat)
    requires Legal(cfg) && Sane(st) && off + 8 <= t.acc.n
    ensures Progresses(cfg, st, t, off)
  {
    hide *;
    var nb := Blk(cfg, st, t.acc.kind, t.acc.n - off, t.acc.addr + off);
    OneRoundIs(cfg, st, t, off);
    if nb == 0 {
      FreshBlk(cfg, st, t, off);
      OneRoundIs(cfg, Finalize(st), t, off);
      RoundsAfter(cfg, st, t, off);
      Progressed(cfg, st, t, off, 2);
    } else {
      Progressed(cfg, st, t, off, 1);
    }
  }

  lemma Progressed(cfg: Config, st: Enc, t: Trans, off: nat, k: nat)
    requires off <= t.acc.n && Rounds(cfg, st, t, off, k).1 > off
    ensures Progresses(cfg, st, t, off)
  {}

  lemma RoundsAfter(cfg: Config, st: Enc, t: Trans, off: nat)
    requires off <= t.acc.n && Round(cfg, st, t, off) == (Finalize(st), off)
    ensures Rounds(cfg, st, t, off, 2) == Rounds(cfg, Finalize(st), t, off, 1)
  {
    hide Round;
  }

  lemma OneRoundIs(cfg: Config, st: Enc, t: Trans, off: nat)
    requires off <= t.acc.n
    ensures Rounds(cfg, st, t, off, 1) == Round(cfg, st, t, off)
    ensures Round(cfg, st, t, off).1 == off + Blk(cfg, st, t.acc.kind, t.acc.n - off, t.acc.addr + off)
  {
    assert Round(cfg, st, t, off).1 == off + Blk(cfg, st, t.acc.kind, t.acc.n - off, t.acc.addr + off);
    hide Round;
    var r := Round(cfg, st, t, off);
    assert Rounds(cfg, r.0, t, r.1, 0) == r;
  }

  /** After a round without bytes the packet is a fresh one, and takes a block. */
  lemma FreshBlk(cfg: Config, st: Enc, t: Trans, off: nat)
    requires Legal(cfg) && Sane(st) && off + 8 <= t.acc.n
    requires Blk(cfg, st, t.acc.kind, t.acc.n - off, t.acc.addr + off) == 0
    ensures Round(cfg, st, t, off) == (Finalize(st), off)
    ensures Blk(cfg, Finalize(st), t.acc.kind, t.acc.n - off, t.acc.addr + off) > 0
  {
    EmptyRound(cfg, st, t, off);
    FreshTakes(cfg, Finalize(st), t.acc.kind, t.acc.n - off, t.acc.addr + off);
    hide Blk, Apply;
  }
}
