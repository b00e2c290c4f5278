/** Main results about the request builder. */
module Compiler {
  import opened Option
  import opened Words
  import opened Protocol
  import opened Semantics
  import opened Encoder
  import opened Tiling
  import opened Simulation
  import opened Invariant
  import opened Request

  /** Size of the whole request in bytes, as rw_get_rq_size reports it. */
  function RqSize(st: Enc): nat {
    4 * (st.wi + 1)
  }

  /** Size of the whole error-free reply in bytes, as rw_get_rsp_size reports it. */
  function RspSize(st: Enc): nat {
    st.rsp + 4
  }

  /** Is t taken when request and reply, as reported, have rq and rsp bytes so far? It must not be empty; reads and
      writes may go to maps 0 to 15 and 132, fills are 8-aligned multiples of 8 in mode 0 on maps below 12; and
      what it moves, added in unsigned 32-bit arithmetic, must stay below the size of both buffers. */
  predicate Takes(cfg: Config, rq: nat, rsp: nat, t: Trans) {
    var a := t.acc;
    && a.n > 0
    && (if a.kind == Fill then a.addr % 8 == 0 && a.n % 8 == 0 && a.mode == 0 && a.am <= 11 else a.am <= 15 || a.am == 132)
    && (rq + if a.kind == Read then 0 else a.n) % 0x1_0000_0000 < 4 * cfg.rqWiMax
    && (rsp + if a.kind == Read then a.n else 0) % 0x1_0000_0000 < cfg.maxRspSize
  }

  lemma TakesIs(cfg: Config, st: Enc, t: Trans)
    ensures Admitted(cfg, st, t) <==> Takes(cfg, RqSize(st), RspSize(st), t)
  {}

  function Accs(ps: seq<Trans>): (accs: seq<Access>)
    ensures |accs| == |ps|
  {
    seq(|ps|, i requires 0 <= i < |ps| => ps[i].acc)
  }

  // ---- Meaning ----

  lemma PrefixOps(ts: seq<Trans>, i: nat)
    requires i < |ts| && ValidDatas(ts)
    ensures OpsOf(ts[..i + 1]) == OpsOf(ts[..i]) + Ops(ts[i])
  {
    assert ts[..i + 1] == ts[..i] + [ts[i]];
    OpsAppend(ts[..i], [ts[i]]);
    assert [ts[i]][1..] == [];
  }

  lemma GroupOps(pl0: seq<Trans>, t: Trans, lo: nat, hi: nat)
    requires GroupOk(pl0, t, lo, hi) && ValidTrans(t) && ValidDatas(pl0)
    ensures OpsOf(pl0[..hi]) == OpsOf(pl0[..lo]) + Ops(t)
  {
    assert pl0[..hi] == pl0[..lo] + pl0[lo..hi];
    OpsAppend(pl0[..lo], pl0[lo..hi]);
    TileOps(t, 0, pl0[lo..hi], t.acc.n);
    assert Ops(t)[0..t.acc.n] == Ops(t);
  }

  lemma EmptyOps(ts: seq<Trans>)
    requires ts == []
    ensures OpsOf(ts) == []
  {}

  lemma {:induction false} GroupsOps(st: Enc, i: nat)
    requires GroupsOk(st) && ValidAll(st.rw) && ValidDatas(st.pl0) && ValidDatas(st.rw) && i <= |st.rw|
    ensures Lo(st.cuts, i) <= |st.pl0|
    ensures OpsOf(st.pl0[..Lo(st.cuts, i)]) == OpsOf(st.rw[..i])
  {
    hide ValidTrans, OpsOf, Covers;
    if i == 0 {
      EmptyOps(st.pl0[..0]);
      EmptyOps(st.rw[..0]);
    } else {
      GroupsOps(st, i - 1);
      var t := st.rw[i - 1];
      GroupOps(st.pl0, t, Lo(st.cuts, i - 1), st.cuts[i - 1]);
      PrefixOps(st.rw, i - 1);
    }
  }

  lemma PiecesData(ps: seq<Trans>)
    requires ValidPieces(ps)
    ensures ValidDatas(ps)
  {}

  lemma MappedValid(ts: seq<Trans>)
    requires ValidAll(ts)
    ensures ValidAll(MappedAll(ts)) && ValidDatas(MappedAll(ts))
  {
    forall i | 0 <= i < |ts| ensures ValidTrans(MappedAll(ts)[i]) {
      assert ValidTrans(ts[i]);
    }
  }

  lemma PacketsAccesses(st: Enc)
    requires DecoderOk(st)
    ensures StreamAccesses(Packets(st)) == st.wire
  {
    StreamAccessesAppend(st.closed, [OpenPacket(st)]);
    StreamAccesses1(OpenPacket(st));
  }

  lemma PacketsValid(cfg: Config, cnt0: nat, fills: bool, st: Enc)
    requires Legal(cfg) && Inv(cfg, cnt0, st) && BoundOk(cfg, fills, st)
    ensures ValidStream(Packets(st))
    ensures forall i :: 0 <= i < |Packets(st)| ==> 4 * PacketLen(Packets(st)[i]) <= Cap(cfg, fills)
  {
    var ps := Packets(st);
    assert Cap(cfg, fills) < TWO32;
    forall i | 0 <= i < |ps| ensures ValidPacket(ps[i]) && 4 * PacketLen(ps[i]) <= Cap(cfg, fills) {
      if i < |st.closed| {
        assert ps[i] == st.closed[i];
      } else {
        assert PacketLen(ps[i]) == st.wi - st.hdr + 1;
      }
    }
  }

  /** Everything known of a request that SetTrans accepted. */
  lemma SetTransInv(cfg: Config, last: nat, fills: bool, ts: seq<Trans>)
    requires Legal(cfg) && last < TWO16 && ValidAll(ts) && FillsIn(ts, fills)
    requires SetTrans(cfg, last, ts).ok
    ensures var st := SetTrans(cfg, last, ts).st;
      && Inv(cfg, last, st) && BoundOk(cfg, fills, st) && GroupsOk(st) && st.rw == MappedAll(ts)
      && st.num > 0
  {
    StartInv(cfg, last);
    hide Inv, BoundOk;
    StartBound(cfg, fills, last);
    AddAllInv(cfg, last, fills, Start(last), ts);
    AddAllNonEmpty(cfg, Start(last), ts);
    assert [] + MappedAll(ts) == MappedAll(ts);
  }

  lemma StartBound(cfg: Config, fills: bool, last: nat)
    requires Legal(cfg)
    ensures BoundOk(cfg, fills, Start(last))
  {}

  lemma StreamLen1(p: Packet)
    ensures StreamLen([p]) == PacketLen(p)
  {
    assert [p][1..] == [];
  }

  lemma WireDecodes(cfg: Config, cnt0: nat, fills: bool, st: Enc)
    requires Legal(cfg) && Inv(cfg, cnt0, st) && BoundOk(cfg, fills, st)
    ensures ParseStream(StreamWords(Packets(st))) == Some(Packets(st))
    ensures 4 * |StreamWords(Packets(st))| == RqSize(st)
  {
    PacketsValid(cfg, cnt0, fills, st);
    StreamRoundTrip(Packets(st));
    StreamWordsLen(Packets(st));
    StreamAppend(st.closed, [OpenPacket(st)]);
    StreamLen1(OpenPacket(st));
  }

  lemma RecordsMean(st: Enc)
    requires GroupsOk(st) && ValidAll(st.rw) && ValidDatas(st.rw) && ValidPieces(st.pl0)
    ensures ValidDatas(st.pl0)
    ensures OpsOf(st.pl0) == OpsOf(st.rw)
  {
    PiecesData(st.pl0);
    GroupsOps(st, |st.rw|);
    assert st.pl0[..|st.pl0|] == st.pl0 && st.rw[..|st.rw|] == st.rw;
  }

  /** Is the block data of record k in the request, or was it what the buffer held anyway? */
  ghost predicate DataSent(cfg: Config, st: Enc, k: nat)
    requires k < |st.pl0| && k < |st.at|
  {
    var a := st.pl0[k].acc;
    Copied(cfg, st.at[k], a) || a.data == Held(cfg, st.at[k] + 1, a.n)
  }

  /** The accesses the decoder sees are the records exactly if every write block ended before the
      last word of the request buffer (the guard of the copy) or held the buffer's old content. */
  lemma WireIsRecords(cfg: Config, st: Enc)
    requires DecoderOk(st) && RecordsOk(cfg, st)
    ensures |StreamAccesses(Packets(st))| == |st.pl0|
    ensures StreamAccesses(Packets(st)) == Accs(st.pl0) <==> forall k :: 0 <= k < |st.pl0| ==> DataSent(cfg, st, k)
  {
    PacketsAccesses(st);
    forall k | 0 <= k < |st.pl0| ensures st.wire[k] == Accs(st.pl0)[k] <==> DataSent(cfg, st, k) {
      assert SentAs(cfg, st, k);
      var a := st.pl0[k].acc;
      assert a == a.(data := a.data);
    }
  }

  lemma FitsIsCopied(cfg: Config, st: Enc)
    requires RecordsOk(cfg, st) && RqSize(st) <= 4 * cfg.rqWiMax
    ensures forall k :: 0 <= k < |st.pl0| ==> DataSent(cfg, st, k)
  {
    forall k | 0 <= k < |st.pl0| ensures DataSent(cfg, st, k) {
      assert SentAs(cfg, st, k);
    }
  }

  /** Compilation preserves meaning. The decoder recovers the packets from the words of the request;
      the accesses it sees are the PL0 records; and these perform, in the same order and with the same
      access modes, byte for byte what the transactions ask for. The accesses are the records exactly if
      no block data was left out, which the request size, seen before sending, rules out. */
  lemma CompilePreserves(cfg: Config, last: nat, ts: seq<Trans>, qs: seq<Trans>)
    requires Legal(cfg) && last < TWO16 && ValidAll(ts) && SetTrans(cfg, last, ts).ok && Meant(ts, qs)
    ensures var st := SetTrans(cfg, last, ts).st;
      && ParseStream(StreamWords(Packets(st))) == Some(Packets(st))
      && 4 * |StreamWords(Packets(st))| == RqSize(st)
      && ValidDatas(st.pl0) && ValidDatas(qs)
      && st.rw == qs && OpsOf(st.pl0) == OpsOf(qs)
      && |StreamAccesses(Packets(st))| == |st.pl0| == |st.at|
      && (StreamAccesses(Packets(st)) == Accs(st.pl0) <==> forall k :: 0 <= k < |st.pl0| ==> DataSent(cfg, st, k))
      && (RqSize(st) <= 4 * cfg.rqWiMax ==> StreamAccesses(Packets(st)) == Accs(st.pl0))
  {
    var st := SetTrans(cfg, last, ts).st;
    SetTransInv(cfg, last, true, ts);
    MappedValid(ts);
    MeantIs(ts, qs);
    hide *;
    WireDecodes(cfg, last, true, st);
    assert DecoderOk(st) && RecordsOk(cfg, st) && ValidPieces(st.pl0) by { InvParts(cfg, last, st); }
    assert |st.pl0| == |st.at| by { InvParts(cfg, last, st); AtLen(cfg, st); }
    WireIsRecords(cfg, st);
    if RqSize(st) <= 4 * cfg.rqWiMax {
      FitsIsCopied(cfg, st);
    }
    RecordsMean(st);
  }

  lemma AtLen(cfg: Config, st: Enc)
    requires RecordsOk(cfg, st)
    ensures |st.pl0| == |st.at|
  {}

  lemma InvParts(cfg: Config, cnt0: nat, st: Enc)
    requires Inv(cfg, cnt0, st)
    ensures DecoderOk(st) && RecordsOk(cfg, st) && ValidPieces(st.pl0)
    ensures ReplyOk(st) && CountsOk(cnt0, st) && TotalsOk(st) && FramesOk(cfg, st) && SizesOk(st)
  {}
}
