/** The request builder as a function of its state: which packets, commands and records
    a list of transactions becomes. RwHandler.dfy is the same algorithm in place. */
module Encoder {
  import opened Option
  import opened Words
  import opened Protocol
  import opened Semantics

  // ---- Bit sets of address maps ----

  predicate TestBit(m: nat, i: nat) {
    if i == 0 then m % 2 == 1 else TestBit(m / 2, i - 1)
  }

  /** m | (1 << i) */
  function SetBit(m: nat, i: nat): nat {
    if i == 0 then (if m % 2 == 1 then m else m + 1) else 2 * SetBit(m / 2, i - 1) + m % 2
  }

  // ---- Configuration ----

  /** maxRq, maxRsp: PL2 packet limits; maxRw: accesses per packet; rqWiMax, maxRspSize,
      numTransMax: sizes of the handler's buffers; stale: the bytes the request buffer held before. */
  datatype Config = Config(maxRq: nat, maxRsp: nat, maxRw: nat, rqWiMax: nat, maxRspSize: nat, numTransMax: nat, stale: nat -> byte)

  const MIN_PKT: nat := 128

  predicate Legal(cfg: Config) {
    && cfg.maxRq % 4 == 0 && MIN_PKT <= cfg.maxRq < 0x1000_0000
    && cfg.maxRsp % 4 == 0 && MIN_PKT <= cfg.maxRsp < 0x1000_0000
    && MIN_PKT <= 4 * cfg.rqWiMax < 0x1000_0000
    && cfg.maxRspSize % 4 == 0 && MIN_PKT <= cfg.maxRspSize < 0x1000_0000
  }

  function RqLimit(cfg: Config): nat {
    Min(cfg.maxRq, 4 * cfg.rqWiMax)
  }

  function RspLimit(cfg: Config): nat {
    Min(cfg.maxRsp, cfg.maxRspSize)
  }

  // ---- Builder state ----

  /** closed: finished packets. cmds, ctx, mask, num: the open packet's commands, context, map mask
      and access count. wi, hdr: write index and start of the open packet, in words. rsp, rspStart:
      predicted reply size and where the open packet's reply starts, in bytes. last: PL1 count.
      pl0: PL0 records; wire: the accesses actually sent; at: where their header words are. rw: accepted
      transactions; cuts: per transaction, the number of PL0 records up to its end. */
  datatype Enc = Enc(closed: seq<Packet>, cmds: seq<Cmd>, ctx: Ctx, mask: nat, num: nat,
                     wi: nat, hdr: nat, rsp: nat, rspStart: nat, last: nat,
                     pl0: seq<Trans>, wire: seq<Access>, at: seq<nat>, rw: seq<Trans>, cuts: seq<nat>)

  function Start(last: nat): Enc {
    Enc([], [], CTX0, 0, 0, 3, 0, 8, 0, last, [], [], [], [], [])
  }

  function NextCnt(c: nat): nat {
    (c + 1) % TWO16
  }

  function OpenPacket(st: Enc): Packet {
    Packet(NextCnt(st.last), st.mask, st.cmds, |st.pl0| % TWO16)
  }

  /** Close the open packet and begin the next one. */
  function Finalize(st: Enc): Enc {
    st.(closed := st.closed + [OpenPacket(st)], cmds := [], ctx := CTX0, mask := 0, num := 0,
        wi := st.wi + 4, hdr := st.wi + 1, rsp := st.rsp + 12, rspStart := st.rsp + 4, last := NextCnt(st.last))
  }

  /** All packets of the request, the open one closed. */
  function Packets(st: Enc): seq<Packet> {
    st.closed + [OpenPacket(st)]
  }

  function RemRq(cfg: Config, st: Enc): nat {
    if 4 * (st.wi - st.hdr) < RqLimit(cfg) then RqLimit(cfg) - 4 * (st.wi - st.hdr) else 0
  }

  function RemRsp(cfg: Config, st: Enc): nat {
    if st.rsp - st.rspStart < RspLimit(cfg) then RspLimit(cfg) - (st.rsp - st.rspStart) else 0
  }

  predicate Sufficient(cfg: Config, st: Enc, rq: nat, rsp: nat) {
    rq <= RemRq(cfg, st) && rsp <= RemRsp(cfg, st)
  }

  /** May an access to map am join a packet using the maps in mask? */
  predicate Rules(mask: nat, am: nat) {
    mask == 0 || mask == SetBit(0, am) || (am < 12 && mask < 0x1000)
  }

  // ---- One PL0 access ----

  function Pad4(n: nat): nat {
    (n + 3) / 4 * 4
  }

  predicate NeedsBase(ctx: Ctx, addr: nat) {
    addr < ctx.base || addr > ctx.base + 0xFFFF
  }

  function BaseOf(ctx: Ctx, addr: nat): nat {
    if NeedsBase(ctx, addr) then addr / TWO16 * TWO16 else ctx.base
  }

  /** The context commands an access needs, only for what differs. */
  function CtxCmds(ctx: Ctx, a: Access): seq<Cmd> {
    (if a.am != ctx.am then [SetMap(a.am)] else [])
    + (if a.mode != ctx.mode then [SetMode(a.mode)] else [])
    + (if NeedsBase(ctx, a.addr) then [SetBase(BaseOf(ctx, a.addr))] else [])
  }

  function CtxBytes(ctx: Ctx, a: Access): nat {
    (if a.am != ctx.am then 4 else 0) + (if a.mode != ctx.mode then 4 else 0)
    + (if NeedsBase(ctx, a.addr) then (if a.addr < TWO32 then 4 else 8) else 0)
  }

  /** Request bytes reserved for an access, with END. A fill is charged 4 bytes too few. */
  function NeedRq(ctx: Ctx, a: Access): nat {
    CtxBytes(ctx, a) + 4 + (match a.kind case Read => 8 case Write => 4 + Pad4(a.n) case Fill => 12)
  }

  function RspBytes(kind: Kind, n: nat): nat {
    if kind.Read? then 4 + Pad4(n) else 4
  }

  /** Block data is copied only if it ends before the last word of the request buffer. */
  predicate Copied(cfg: Config, wi: nat, a: Access) {
    a.kind.Write? && a.n > 8 ==> wi + 1 + a.n / 4 < cfg.rqWiMax
  }

  /** What the request buffer held before in the n bytes from word w on. */
  function Held(cfg: Config, w: nat, n: nat): (d: seq<byte>)
    ensures |d| == n
  {
    seq<byte>(n, i requires 0 <= i => cfg.stale(4 * w + i))
  }

  /** The access the request carries when its header is written at word wi. */
  function OnWire(cfg: Config, wi: nat, a: Access): Access {
    if Copied(cfg, wi, a) then a else a.(data := Held(cfg, wi + 1, a.n))
  }

  function Emit(cfg: Config, st: Enc, p: Trans): Enc {
    var a := p.acc;
    var wi := st.wi + CtxBytes(st.ctx, a) / 4;
    var w := OnWire(cfg, wi, a);
    st.(cmds := st.cmds + CtxCmds(st.ctx, a) + [Rw(a.kind, a.addr % TWO16, a.n, w.data)],
        ctx := Ctx(a.am, a.mode, BaseOf(st.ctx, a.addr)), mask := SetBit(st.mask, a.am), num := st.num + 1,
        wi := wi + CmdLen(Rw(a.kind, 0, a.n, [])), rsp := st.rsp + RspBytes(a.kind, a.n),
        pl0 := st.pl0 + [p], wire := st.wire + [w], at := st.at + [wi])
  }

  /** Packet switches before an access: the packet's access count, then its size limits. */
  function MakeRoom(cfg: Config, st: Enc, a: Access): Enc {
    var s := if st.num >= cfg.maxRw then Finalize(st) else st;
    if Sufficient(cfg, s, NeedRq(s.ctx, a), RspBytes(a.kind, a.n) + 4) then s else Finalize(s)
  }

  function AddPiece(cfg: Config, st: Enc, p: Trans): Enc {
    if p.acc.n == 0 then st else Emit(cfg, MakeRoom(cfg, st, p.acc), p)
  }

  // ---- A transaction is a list of steps: add a piece, or switch packets ----

  datatype Act = Fin | Add(p: Trans)

  function Do(cfg: Config, st: Enc, act: Act): Enc {
    match act
    case Fin => Finalize(st)
    case Add(p) => AddPiece(cfg, st, p)
  }

  function Apply(cfg: Config, st: Enc, acts: seq<Act>): Enc
    decreases |acts|
  {
    if acts == [] then st else Apply(cfg, Do(cfg, st, acts[0]), acts[1..])
  }

  /** 24 is taken off in unsigned arithmetic: with less than that, only the block size limits. */
  function MaxWrBlk(cfg: Config): nat {
    if cfg.maxRq < 24 then BLK_SIZE else Min(cfg.maxRq - 24, BLK_SIZE)
  }

  function MaxRdBlk(cfg: Config): nat {
    if cfg.maxRsp < 24 then BLK_SIZE else Min(cfg.maxRsp - 24, BLK_SIZE)
  }

  /** Block size the open packet has room for, a multiple of 8; 0 asks for a new packet.
      The 8 bytes for a 64-bit base are taken off in unsigned 32-bit arithmetic. */
  function WrBlk(cfg: Config, st: Enc, nb: nat, addr: nat): (k: nat)
    ensures k % 8 == 0 && k <= BLK_SIZE && k <= nb
  {
    var rem := RemRq(cfg, st);
    if rem <= 8 then 0
    else
      var room := if addr >= TWO32 then W32(rem - 16) else rem - 8;
      Min(Min(nb, room), MaxWrBlk(cfg)) / 8 * 8
  }

  function RdBlk(cfg: Config, st: Enc, nb: nat): (k: nat)
    ensures k % 8 == 0 && k <= BLK_SIZE && k <= nb
  {
    var rem := RemRsp(cfg, st);
    if rem <= 8 then 0 else Min(Min(nb, rem - 8), MaxRdBlk(cfg)) / 8 * 8
  }

  function Blk(cfg: Config, st: Enc, kind: Kind, nb: nat, addr: nat): (k: nat)
    ensures k % 8 == 0 && k <= BLK_SIZE && k <= nb
  {
    if kind.Read? then RdBlk(cfg, st, nb) else WrBlk(cfg, st, nb, addr)
  }

  predicate Sane(st: Enc) {
    st.wi >= st.hdr + 3 && st.rsp >= st.rspStart + 8
  }

  /** Bytes used in the open packet and its reply; smallest right after a packet switch. */
  function Used(st: Enc): int {
    (st.wi - st.hdr) + (st.rsp - st.rspStart)
  }

  /** One round of the block loop at offset off with block size nb. */
  function BlkRound(t: Trans, off: nat, nb: nat): seq<Act>
    requires off <= t.acc.n
  {
    [Add(Sub(t, off, nb))] + (if nb < BLK_SIZE && nb < (t.acc.n - off) / 8 * 8 then [Fin] else [])
  }

  lemma AddPieceSane(cfg: Config, st: Enc, p: Trans)
    requires Sane(st)
    ensures Sane(AddPiece(cfg, st, p)) && (p.acc.n == 0 ==> AddPiece(cfg, st, p) == st)
  {
    hide NeedRq, Sufficient;
  }

  /** A packet without room for a block is not a fresh one. */
  lemma NoRoomUsed(cfg: Config, st: Enc, kind: Kind, nb: nat, addr: nat)
    requires Legal(cfg) && Sane(st) && nb >= 8 && Blk(cfg, st, kind, nb, addr) == 0
    ensures 11 < Used(st)
  {}

  lemma BlkRoundProgress(cfg: Config, st: Enc, t: Trans, off: nat)
    requires Legal(cfg) && Sane(st) && off + 8 <= t.acc.n
    ensures var nb := Blk(cfg, st, t.acc.kind, t.acc.n - off, t.acc.addr + off);
      var s := Apply(cfg, st, BlkRound(t, off, nb));
      Sane(s) && (nb == 0 ==> 0 <= Used(s) < Used(st))
  {
    var nb := Blk(cfg, st, t.acc.kind, t.acc.n - off, t.acc.addr + off);
    var p := Sub(t, off, nb);
    var s := AddPiece(cfg, st, p);
    AddPieceSane(cfg, st, p);
    if nb == 0 {
      NoRoomUsed(cfg, st, t.acc.kind, t.acc.n - off, t.acc.addr + off);
    }
    hide AddPiece, Blk, Legal;
    if nb < BLK_SIZE && nb < (t.acc.n - off) / 8 * 8 {
      assert BlkRound(t, off, nb)[1..] == [Fin];
      assert Apply(cfg, s, [Fin]) == Finalize(s);
    } else {
      assert BlkRound(t, off, nb)[1..] == [];
    }
  }

  /** The 8-aligned middle of a transfer, from offset off on. */
  function Blocks(cfg: Config, st: Enc, t: Trans, off: nat): seq<Act>
    requires Legal(cfg) && Sane(st) && off <= t.acc.n
    decreases t.acc.n - off, Used(st)
  {
    if t.acc.n - off < 8 then []
    else
      var nb := Blk(cfg, st, t.acc.kind, t.acc.n - off, t.acc.addr + off);
      var round := BlkRound(t, off, nb);
      BlkRoundProgress(cfg, st, t, off);
      round + Blocks(cfg, Apply(cfg, st, round), t, off + nb)
  }

  /** A piece of k bytes at offset off, if c holds. */
  function Cut(c: bool, t: Trans, off: nat, k: nat): seq<Act> {
    if c then [Add(Sub(t, off, k))] else []
  }

  function Skip(c: bool, off: nat, k: nat): nat {
    if c then off + k else off
  }

  /** Does the head of the ladder cut k bytes at offset off, to reach 2k-aligned addresses? */
  predicate HeadCut(t: Trans, off: nat, k: nat)
    requires k > 0
  {
    off + k <= t.acc.n && (t.acc.addr + off) / k % 2 == 1
  }

  predicate TailCut(t: Trans, off: nat, k: nat) {
    off + k <= t.acc.n
  }

  function HeadEnd(t: Trans): (off: nat)
    ensures off <= t.acc.n && off <= 7
  {
    var o1 := Skip(HeadCut(t, 0, 1), 0, 1);
    var o2 := Skip(HeadCut(t, o1, 2), o1, 2);
    Skip(HeadCut(t, o2, 4), o2, 4)
  }

  function HeadActs(t: Trans): seq<Act> {
    var o1 := Skip(HeadCut(t, 0, 1), 0, 1);
    var o2 := Skip(HeadCut(t, o1, 2), o1, 2);
    Cut(HeadCut(t, 0, 1), t, 0, 1) + Cut(HeadCut(t, o1, 2), t, o1, 2) + Cut(HeadCut(t, o2, 4), t, o2, 4)
  }

  function BlocksEnd(t: Trans): (off: nat)
    ensures off <= t.acc.n < off + 8
  {
    HeadEnd(t) + (t.acc.n - HeadEnd(t)) / 8 * 8
  }

  function TailActs(t: Trans): seq<Act> {
    var o1 := BlocksEnd(t);
    var o2 := Skip(TailCut(t, o1, 4), o1, 4);
    var o3 := Skip(TailCut(t, o2, 2), o2, 2);
    Cut(TailCut(t, o1, 4), t, o1, 4) + Cut(TailCut(t, o2, 2), t, o2, 2) + Cut(TailCut(t, o3, 1), t, o3, 1)
  }

  lemma {:induction false} ApplySane(cfg: Config, st: Enc, acts: seq<Act>)
    requires Sane(st)
    ensures Sane(Apply(cfg, st, acts))
    decreases |acts|
  {
    if acts != [] {
      ApplySane(cfg, Do(cfg, st, acts[0]), acts[1..]);
    }
  }

  /** Splitting of a read or write: unaligned head, aligned blocks, tail. */
  function Ladder(cfg: Config, st: Enc, t: Trans): seq<Act>
    requires Legal(cfg) && Sane(st)
  {
    ApplySane(cfg, st, HeadActs(t));
    HeadActs(t) + Blocks(cfg, Apply(cfg, st, HeadActs(t)), t, HeadEnd(t)) + TailActs(t)
  }

  function FillActs(t: Trans, off: nat): seq<Act>
    decreases t.acc.n - off
  {
    if off >= t.acc.n then []
    else
      var k := Min(t.acc.n - off, BLK_SIZE);
      [Add(Sub(t, off, k))] + FillActs(t, off + k)
  }

  // ---- Admission of a transaction ----

  const AM12 := 12
  const AM15 := 15
  const AM132 := 132

  /** Do the handler's buffers have room for the payload? Unsigned 32-bit sums. */
  predicate WithinLimits(cfg: Config, st: Enc, rd: nat, wr: nat) {
    W32(4 * st.wi + wr + 4) < 4 * cfg.rqWiMax && W32(st.rsp + rd + 4) < cfg.maxRspSize
  }

  predicate NaturallyAligned(addr: nat, n: nat) {
    n == 1 || (n == 2 && addr % 2 == 0) || (n == 4 && addr % 4 == 0) || (n == 8 && addr % 8 == 0)
  }

  /** Pieces an access of at most 8 bytes is expected to need. */
  function SmallPieces(addr: nat, n: nat): nat {
    if NaturallyAligned(addr, n) then 1 else if n == 8 && addr % 8 == 4 then 2 else 4
  }

  /** Estimated number of PL0 accesses, with n payload bytes per packet of the given capacity. */
  function Estimate(addr: nat, n: nat, payload: nat, perPacket: nat): nat
    requires perPacket > 0
  {
    if n <= 8 then SmallPieces(addr, n)
    else W32(payload + perPacket - 1) / perPacket + (if n % 8 == 0 && addr % 8 == 0 then 0 else 3)
  }

  predicate Manageable(cfg: Config, st: Enc, t: Trans)
    requires Legal(cfg)
  {
    var a := t.acc;
    st.num + (match a.kind
              case Read => Estimate(a.addr, a.n, a.n, cfg.maxRsp - 16)
              case Write => Estimate(a.addr, a.n, a.n + 16, cfg.maxRq - 20)
              case Fill => SmallPieces(a.addr, 8)) <= cfg.numTransMax
  }

  /** Must the transaction start in a new packet? am is its address map as the caller gave it. */
  predicate NewPacket(cfg: Config, st: Enc, t: Trans, am: nat) {
    var n := W32(t.acc.n + 3) / 4 * 4;
    var whole := am >= AM12 || t.acc.n <= 16;
    var enough := match t.acc.kind
      case Read => if whole then Sufficient(cfg, st, 32, W32(16 + n)) else Sufficient(cfg, st, 32, 64)
      case Write => if whole then Sufficient(cfg, st, W32(32 + n), 32) else Sufficient(cfg, st, 80, 32)
      case Fill => Sufficient(cfg, st, 40, 32);
    !enough || !Rules(st.mask, t.acc.am)
  }

  /** Address map 132 is an alias of 15. */
  function MapOf(am: nat): nat {
    if am == AM132 then AM15 else am
  }

  predicate Admitted(cfg: Config, st: Enc, t: Trans) {
    var a := t.acc;
    match a.kind
    case Read => a.n != 0 && WithinLimits(cfg, st, a.n, 0) && MapOf(a.am) <= AM15
    case Write => a.n != 0 && WithinLimits(cfg, st, 0, a.n) && MapOf(a.am) <= AM15
    case Fill => a.addr % 8 == 0 && a.n != 0 && a.n % 8 == 0 && a.mode == 0 && a.am < AM12 && WithinLimits(cfg, st, 0, a.n)
  }

  /** The transaction as it is sent and recorded. */
  function Mapped(t: Trans): Trans {
    t.(acc := t.acc.(am := MapOf(t.acc.am)))
  }

  function FinIf(c: bool): seq<Act> {
    if c then [Fin] else []
  }

  /** Packet switches before the first piece. */
  function Opening(cfg: Config, st: Enc, t: Trans): seq<Act>
    requires Legal(cfg)
  {
    var first := FinIf(!Manageable(cfg, st, t));
    first + FinIf(NewPacket(cfg, Apply(cfg, st, first), Mapped(t), t.acc.am))
  }

  /** Everything the builder does for an admitted transaction. */
  function Compile(cfg: Config, st: Enc, t: Trans): seq<Act>
    requires Legal(cfg) && Sane(st)
  {
    var open := Opening(cfg, st, t);
    ApplySane(cfg, st, open);
    open + (if t.acc.kind.Fill? then FillActs(t, 0) else Ladder(cfg, Apply(cfg, st, open), Mapped(t)))
  }

  function Record(st: Enc, t: Trans): Enc {
    st.(rw := st.rw + [t], cuts := st.cuts + [|st.pl0|])
  }

  function TryAdd(cfg: Config, st: Enc, t: Trans): Option<Enc>
    requires Legal(cfg) && Sane(st)
  {
    if Admitted(cfg, st, t) then Some(Record(Apply(cfg, st, Compile(cfg, st, t)), Mapped(t))) else None
  }

  lemma TryAddSane(cfg: Config, st: Enc, t: Trans)
    requires Legal(cfg) && Sane(st)
    ensures TryAdd(cfg, st, t).Some? ==> Sane(TryAdd(cfg, st, t).value)
  {
    ApplySane(cfg, st, Compile(cfg, st, t));
  }

  datatype Built = Built(ok: bool, st: Enc)

  function AddAll(cfg: Config, st: Enc, ts: seq<Trans>): Built
    requires Legal(cfg) && Sane(st)
    decreases |ts|
  {
    if ts == [] then Built(true, st)
    else
      TryAddSane(cfg, st, ts[0]);
      match TryAdd(cfg, st, ts[0])
      case None => Built(false, Start(st.last))
      case Some(s) => AddAll(cfg, s, ts[1..])
  }

  /** A request for a whole list: all or nothing; an empty list is refused. */
  function SetTrans(cfg: Config, last: nat, ts: seq<Trans>): Built
    requires Legal(cfg)
  {
    if ts == [] then Built(false, Start(last)) else AddAll(cfg, Start(last), ts)
  }
}
