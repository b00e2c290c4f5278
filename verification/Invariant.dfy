/** The builder's invariant and its preservation over whole transaction lists. */
module Invariant {
  import opened Words
  import opened Protocol
  import opened Semantics
  import opened Encoder
  import opened Tiling
  import opened Simulation

  /** Record k was sent from word at[k] on, its data replaced if it did not fit the request buffer. */
  ghost predicate SentAs(cfg: Config, st: Enc, k: nat)
    requires k < |st.wire| && k < |st.pl0| && k < |st.at|
  {
    var a := st.pl0[k].acc;
    && st.wire[k] == OnWire(cfg, st.at[k], a)
    && (a.kind.Write? && a.n > 8 ==> st.at[k] + 1 + a.n / 4 <= st.wi)
  }

  ghost predicate RecordsOk(cfg: Config, st: Enc) {
    && |st.wire| == |st.pl0| == |st.at|
    && ValidPieces(st.pl0)
    && forall k :: 0 <= k < |st.pl0| ==> SentAs(cfg, st, k)
  }

  lemma EmitRecords(cfg: Config, st: Enc, p: Trans)
    requires RecordsOk(cfg, st) && ValidPiece(p)
    ensures RecordsOk(cfg, Emit(cfg, st, p))
  {
    var s := Emit(cfg, st, p);
    assert s.wi >= st.wi;
    forall k | 0 <= k < |s.pl0| ensures SentAs(cfg, s, k) {
      if k < |st.pl0| {
        assert SentAs(cfg, st, k);
      }
    }
  }

  lemma FinalizeRecords(cfg: Config, st: Enc)
    requires RecordsOk(cfg, st)
    ensures RecordsOk(cfg, Finalize(st))
  {
    forall k | 0 <= k < |st.pl0| ensures SentAs(cfg, Finalize(st), k) {
      assert SentAs(cfg, st, k);
    }
  }

  /** Largest PL2 request packet: the limit, unless a 1 KB block alone needs more; fills add 4 bytes. */
  function Cap(cfg: Config, fills: bool): nat {
    (if RqLimit(cfg) < 1060 then 1060 else RqLimit(cfg)) + (if fills then 4 else 0)
  }

  ghost predicate BoundOk(cfg: Config, fills: bool, st: Enc) {
    && 4 * (st.wi - st.hdr) + 4 <= Cap(cfg, fills)
    && (forall i :: 0 <= i < |st.closed| ==> 4 * PacketLen(st.closed[i]) <= Cap(cfg, fills))
    && st.rsp - st.rspStart + 4 <= RspLimit(cfg)
    && (forall i :: 0 <= i < |st.closed| ==> PacketRsp(st.closed[i]) <= RspLimit(cfg))
  }

  lemma FinalizeBound(cfg: Config, fills: bool, st: Enc)
    requires Legal(cfg) && BoundOk(cfg, fills, st) && SizesOk(st) && ReplyOk(st)
    ensures BoundOk(cfg, fills, Finalize(st))
  {
    var p := OpenPacket(st);
    assert Accesses(p) == ExecCmds(st.cmds).accs;
  }

  /** A piece that may be sent at all: its reply fits a fresh packet. */
  predicate ReplyFits(cfg: Config, p: Trans) {
    p.acc.kind.Read? ==> p.acc.n <= 8 || p.acc.n + 16 <= RspLimit(cfg)
  }

  lemma EmitBound(cfg: Config, fills: bool, st: Enc, p: Trans)
    requires Legal(cfg) && BoundOk(cfg, fills, st) && Sane(st) && ValidPiece(p) && ReplyFits(cfg, p)
    requires p.acc.kind.Fill? ==> fills && p.acc.mode == 0
    requires Sufficient(cfg, st, NeedRq(st.ctx, p.acc), RspBytes(p.acc.kind, p.acc.n) + 4)
          || (st.wi == st.hdr + 3 && st.rsp == st.rspStart + 8 && st.ctx == CTX0)
    ensures BoundOk(cfg, fills, Emit(cfg, st, p))
  {}

  ghost predicate Inv(cfg: Config, cnt0: nat, st: Enc) {
    && Sane(st) && SizesOk(st) && DecoderOk(st) && FieldsOk(st) && ReplyOk(st)
    && CountsOk(cnt0, st) && TotalsOk(st) && FramesOk(cfg, st) && RecordsOk(cfg, st)
  }

  lemma StartInv(cfg: Config, last: nat)
    requires Legal(cfg) && last < TWO16
    ensures Inv(cfg, last, Start(last)) && BoundOk(cfg, false, Start(last))
  {
    StartParts(cfg, last);
    hide FramesOk, TotalsOk, DecoderOk;
  }

  lemma StartParts(cfg: Config, last: nat)
    ensures FramesOk(cfg, Start(last)) && TotalsOk(Start(last)) && DecoderOk(Start(last))
  {
    EmptyFrame(cfg.maxRw);
    hide FrameOk;
  }

  lemma FinalizeInv(cfg: Config, cnt0: nat, st: Enc)
    requires Inv(cfg, cnt0, st)
    ensures Inv(cfg, cnt0, Finalize(st))
  {
    FinalizeSizes(st);
    FinalizeDecoder(st);
    FinalizeFields(st);
    FinalizeReply(st);
    FinalizeCounts(cnt0, st);
    FinalizeTotals(st);
    FinalizeFrames(cfg, st);
    FinalizeRecords(cfg, st);
    hide SizesOk, DecoderOk, FieldsOk, ReplyOk, CountsOk, TotalsOk, FramesOk, RecordsOk;
  }

  lemma EmitCounts(cfg: Config, cnt0: nat, st: Enc, p: Trans)
    requires CountsOk(cnt0, st) && Sane(st)
    ensures CountsOk(cnt0, Emit(cfg, st, p)) && Sane(Emit(cfg, st, p)) && (TotalsOk(st) ==> TotalsOk(Emit(cfg, st, p)))
  {}

  lemma EmitInv(cfg: Config, cnt0: nat, st: Enc, p: Trans)
    requires Inv(cfg, cnt0, st) && ValidPiece(p) && Rules(st.mask, p.acc.am)
    requires st.num < cfg.maxRw || st.num == 0
    ensures Inv(cfg, cnt0, Emit(cfg, st, p))
  {
    hide Emit, Sane, Rules, SizesOk, DecoderOk, FieldsOk, ReplyOk, CountsOk, TotalsOk, FramesOk, RecordsOk;
    assert p.acc.addr < TWO64 by { assert ValidSize(p.acc.kind, p.acc.n); }
    EmitSizes(cfg, st, p);
    EmitDecoder(cfg, st, p);
    EmitFields(cfg, st, p);
    EmitReply(cfg, st, p);
    EmitFrames(cfg, st, p);
    EmitRecords(cfg, st, p);
    EmitCounts(cfg, cnt0, st, p);
  }

  /** Making room switches packets at most twice and leaves an empty packet or enough space. */
  lemma MakeRoomInv(cfg: Config, cnt0: nat, fills: bool, st: Enc, a: Access)
    requires Legal(cfg) && Inv(cfg, cnt0, st) && BoundOk(cfg, fills, st)
    ensures var s := MakeRoom(cfg, st, a);
      && Inv(cfg, cnt0, s) && BoundOk(cfg, fills, s)
      && (Rules(st.mask, a.am) ==> Rules(s.mask, a.am))
      && (s.num < cfg.maxRw || s.num == 0)
      && (Sufficient(cfg, s, NeedRq(s.ctx, a), RspBytes(a.kind, a.n) + 4)
          || (s.wi == s.hdr + 3 && s.rsp == s.rspStart + 8 && s.ctx == CTX0))
  {
    var s := if st.num >= cfg.maxRw then Finalize(st) else st;
    FinalizeInv(cfg, cnt0, st);
    FinalizeBound(cfg, fills, st);
    FinalizeInv(cfg, cnt0, s);
    FinalizeBound(cfg, fills, s);
    hide Inv, BoundOk, Sufficient;
  }

  /** What the invariant asks of the pieces of one transaction. */
  ghost predicate Sendable(cfg: Config, fills: bool, am: nat, p: Trans) {
    && ValidPiece(p) && p.acc.am == am && ReplyFits(cfg, p)
    && (p.acc.kind.Fill? ==> fills && p.acc.mode == 0)
  }

  lemma DoInv(cfg: Config, cnt0: nat, fills: bool, am: nat, st: Enc, act: Act)
    requires Legal(cfg) && Inv(cfg, cnt0, st) && BoundOk(cfg, fills, st)
    requires act.Add? && act.p.acc.n != 0 ==> Sendable(cfg, fills, am, act.p) && Rules(st.mask, am)
    ensures var s := Do(cfg, st, act);
      Inv(cfg, cnt0, s) && BoundOk(cfg, fills, s) && (Rules(st.mask, am) ==> Rules(s.mask, am))
  {
    match act
    case Fin =>
      FinalizeInv(cfg, cnt0, st);
      FinalizeBound(cfg, fills, st);
    case Add(p) =>
      if p.acc.n != 0 {
        var s := MakeRoom(cfg, st, p.acc);
        MakeRoomInv(cfg, cnt0, fills, st, p.acc);
        EmitInv(cfg, cnt0, s, p);
        EmitBound(cfg, fills, s, p);
        RulesKept(s.mask, am);
        hide Inv, BoundOk, MakeRoom, Rules;
      }
  }

  lemma {:induction false} ApplyInv(cfg: Config, cnt0: nat, fills: bool, am: nat, st: Enc, acts: seq<Act>)
    requires Legal(cfg) && Inv(cfg, cnt0, st) && BoundOk(cfg, fills, st)
    requires Pieces(acts) == [] || Rules(st.mask, am)
    requires forall i :: 0 <= i < |Pieces(acts)| ==> Sendable(cfg, fills, am, Pieces(acts)[i])
    ensures Inv(cfg, cnt0, Apply(cfg, st, acts)) && BoundOk(cfg, fills, Apply(cfg, st, acts))
    decreases |acts|
  {
    hide Inv, BoundOk, Do, Sendable, Rules, Legal;
    if acts != [] {
      var s := Do(cfg, st, acts[0]);
      if Piece(acts[0]) != [] {
        assert Pieces(acts)[0] == acts[0].p;
      }
      DoInv(cfg, cnt0, fills, am, st, acts[0]);
      forall i | 0 <= i < |Pieces(acts[1..])| ensures Sendable(cfg, fills, am, Pieces(acts[1..])[i]) {
        assert Pieces(acts[1..])[i] == Pieces(acts)[i + |Piece(acts[0])|];
      }
      ApplyInv(cfg, cnt0, fills, am, s, acts[1..]);
    }
  }
}
