/** When the builder closes a packet, and how large it makes a block, in bytes of packets and limits. */
module Packing {
  import opened Words
  import opened Protocol
  import opened Semantics
  import opened Encoder

  /** Bytes of the packet with the access p and END, as the size check sees them: a read of up to 8 bytes counts as
      a block, and a fill 4 bytes less than it has. */
  function Charged(e: Enc, a: Access): int {
    4 * (e.wi - e.hdr + 1) + match a.kind
                             case Read => if a.n <= 8 then 4 else 0
                             case Write => 0
                             case Fill => -4
  }

  /** No packet is closed early: an access joins the open packet exactly if the packet has fewer accesses than it may
      have, and with the access and END it and its reply are within both limits. */
  lemma SwitchExactly(cfg: Config, st: Enc, p: Trans)
    requires p.acc.n > 0
    ensures var e, r := Emit(cfg, st, p), AddPiece(cfg, st, p);
      var rq, rsp := Charged(e, p.acc), e.rsp - e.rspStart + 4;
      if st.num < cfg.maxRw && rq <= cfg.maxRq && rq <= 4 * cfg.rqWiMax && rsp <= cfg.maxRsp && rsp <= cfg.maxRspSize then r == e
      else |r.closed| > |st.closed|
  {
    ChargedIs(cfg, st, p);
    hide Emit, NeedRq, RspBytes, Charged;
    assert RemRq(cfg, st) >= NeedRq(st.ctx, p.acc) <==> Charged(Emit(cfg, st, p), p.acc) <= RqLimit(cfg);
  }

  lemma ChargedIs(cfg: Config, st: Enc, p: Trans)
    requires p.acc.n > 0
    ensures var e := Emit(cfg, st, p); var need := NeedRq(st.ctx, p.acc);
      && Charged(e, p.acc) == 4 * (st.wi - st.hdr) + need && need > 0 && RspBytes(p.acc.kind, p.acc.n) > 0
      && e.rsp == st.rsp + RspBytes(p.acc.kind, p.acc.n) && e.rspStart == st.rspStart && e.closed == st.closed
  {
    hide OnWire, CtxCmds, SetBit, BaseOf, NeedsBase;
    var a := p.acc;
    assert CtxBytes(st.ctx, a) % 4 == 0;
    assert Charged(Emit(cfg, st, p), a) - 4 * (st.wi - st.hdr)
        == CtxBytes(st.ctx, a) + 4 + (match a.kind case Read => 8 case Write => 4 + Pad4(a.n) case Fill => 12);
  }

  predicate BlockFits(k: nat, nb: nat, limit: nat, room: nat) {
    k % 8 == 0 && k <= nb && k <= 1024 && k + 24 <= limit && k <= room
  }

  ghost predicate Largest(k: nat, nb: nat, limit: nat, room: nat) {
    BlockFits(k, nb, limit, room) && forall m: nat :: BlockFits(m, nb, limit, room) ==> m <= k
  }

  /** Bytes left in the open packet, or in its reply. */
  function Free(cfg: Config, st: Enc, kind: Kind): nat {
    var free := if kind.Read? then Min(cfg.maxRsp, cfg.maxRspSize) - (st.rsp - st.rspStart)
                else Min(cfg.maxRq, 4 * cfg.rqWiMax) - 4 * (st.wi - st.hdr);
    if free < 0 then 0 else free
  }

  /** The next block is the largest that fits the open packet with 8 bytes, or 16 for a write that may need a 64-bit
      base; if those 16 bytes are not there but more than 8 are, what is left of the packet does not limit it. */
  lemma BlockLargest(cfg: Config, st: Enc, kind: Kind, nb: nat, addr: nat)
    requires Legal(cfg) && Sane(st)
    ensures var k, free := Blk(cfg, st, kind, nb, addr), Free(cfg, st, kind);
      var frame := if !kind.Read? && addr >= 0x1_0000_0000 then 16 else 8;
      var limit := if kind.Read? then cfg.maxRsp else cfg.maxRq;
      if free <= 8 then k == 0 else Largest(k, nb, limit, if free >= frame then free - frame else 1024)
  {
    hide Largest;
    var free := Free(cfg, st, kind);
    var frame := if !kind.Read? && addr >= 0x1_0000_0000 then 16 else 8;
    var room: nat := if free >= frame then free - frame else 1024;
    if kind.Read? {
      LargestOf(nb, cfg.maxRsp, room);
      RdBlkIs(cfg, st, nb);
    } else {
      LargestOf(nb, cfg.maxRq, room);
      WrBlkIs(cfg, st, nb, addr, room);
    }
  }

  function Cap(nb: nat, limit: nat, room: nat): nat {
    if limit < 24 then 0 else Min(Min(nb, room), Min(limit - 24, 1024)) / 8 * 8
  }

  lemma RdBlkIs(cfg: Config, st: Enc, nb: nat)
    requires Legal(cfg) && Sane(st)
    ensures var free := Free(cfg, st, Read);
      RdBlk(cfg, st, nb) == if free <= 8 then 0 else Cap(nb, cfg.maxRsp, free - 8)
  {}

  lemma WrBlkIs(cfg: Config, st: Enc, nb: nat, addr: nat, room: nat)
    requires Legal(cfg) && Sane(st)
    requires var free := Free(cfg, st, Write); var frame := if addr >= 0x1_0000_0000 then 16 else 8;
      room == if free >= frame then free - frame else 1024
    ensures WrBlk(cfg, st, nb, addr) == if Free(cfg, st, Write) <= 8 then 0 else Cap(nb, cfg.maxRq, room)
  {}

  lemma LargestOf(nb: nat, limit: nat, room: nat)
    requires limit >= 24
    ensures Largest(Cap(nb, limit, room), nb, limit, room)
  {}

  /** Accesses expected from a transaction: 1, 2 or 4 up to 8 bytes, else one per packet's worth of payload and 3 for
      what is not aligned; a fill counts as 8 bytes. */
  lemma OpensExactly(cfg: Config, st: Enc, t: Trans)
    requires Legal(cfg) && Sane(st)
    ensures var a := t.acc; var n := if a.kind.Fill? then 8 else a.n;
      var small := if n == 1 || (n == 2 && a.addr % 2 == 0) || (n == 4 && a.addr % 4 == 0) || (n == 8 && a.addr % 8 == 0) then 1
                   else if n == 8 && a.addr % 8 == 4 then 2 else 4;
      var rest := if n % 8 == 0 && a.addr % 8 == 0 then 0 else 3;
      Manageable(cfg, st, t) <==> st.num + (if n <= 8 then small else rest + PacketsFor(cfg, a)) <= cfg.numTransMax
  {}

  /** Packets the payload of a transfer fills, if its length does not wrap. */
  function PacketsFor(cfg: Config, a: Access): int
    requires Legal(cfg)
  {
    if a.kind.Read? then (a.n + cfg.maxRsp - 17) % 0x1_0000_0000 / (cfg.maxRsp - 16)
    else (a.n + cfg.maxRq - 5) % 0x1_0000_0000 / (cfg.maxRq - 20)
  }

  /** A transaction begins in the open packet exactly if its map may join the maps there, and there is room: for all
      of a transfer of up to 16 bytes or on an exclusive map, else for a part of it. */
  lemma JoinsExactly(cfg: Config, st: Enc, t: Trans, am: nat)
    requires Legal(cfg) && Sane(st) && t.acc.n + 3 < 0x1_0000_0000
    ensures var rq, rsp, n := Free(cfg, st, Write), Free(cfg, st, Read), (t.acc.n + 3) / 4 * 4;
      var whole := am >= 12 || t.acc.n <= 16;
      !NewPacket(cfg, st, t, am) <==>
        && Rules(st.mask, t.acc.am)
        && match t.acc.kind
           case Read => rq >= 32 && rsp >= if whole then (16 + n) % 0x1_0000_0000 else 64
           case Write => rsp >= 32 && rq >= if whole then (32 + n) % 0x1_0000_0000 else 80
           case Fill => rq >= 40 && rsp >= 32
  {
    hide Rules;
  }
}
