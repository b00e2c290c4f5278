/** Replies in which a START reports that the device cannot be accessed: nothing was executed for that packet. */
module DeniedReply {
  import opened Words
  import opened Errors
  import opened Protocol
  import opened Semantics
  import opened Encoder
  import opened Simulation
  import opened Request
  import opened Compiler
  import opened Reply
  import opened ReplyParsing
  import opened EndToEnd

  /** Length and START of a packet of n words that denies access. */
  function DeniedStart(n: nat, conId: byte): seq<Word> {
    [FromU32(4 * n), Word(0, CMD_PL0_START, conId, DEV_ACCESS)]
  }

  /** From a packet boundary on, the replies to ps are consumed exactly, and more is expected. */
  lemma {:induction false} PrefixParsed(pl0: seq<Trans>, maxRsp: nat, rsp: seq<Word>, p: Parse, ps: seq<Packet>, fs: seq<Frame>,
                                        tail: seq<Word>, next: nat)
    requires FramesConform(ps, fs) && RepliesFit(ps, fs, maxRsp) && maxRsp < TWO32
    requires Describe(pl0, p.res.i, StreamAccesses(ps)) && p.res.i + |StreamAccesses(ps)| < |pl0|
    requires CountsInStep(ps) && p.oldest < TWO16
    requires if ps == [] then next == p.oldest else ps[0].cnt == p.oldest && next == NextCnt(ps[|ps| - 1].cnt)
    requires p.wi == p.next && p.wi <= |rsp| && rsp[p.wi..] == StreamReply(ps, fs) + tail
    ensures |AllOuts(fs)| == |StreamAccesses(ps)|
    ensures var n := |StreamReply(ps, fs)|;
      var q := Parse(p.wi + n, p.wi + n, next, p.resets + Resets(fs),
                     Absorb(p.res, pl0[p.res.i..p.res.i + |AllOuts(fs)|], AllOuts(fs)));
      && q.wi <= |rsp| && rsp[q.wi..] == tail && q.res.i < |pl0| && next < TWO16
      && ParseLoop(pl0, maxRsp, rsp, p) == ParseLoop(pl0, maxRsp, rsp, q)
    decreases |ps|
  {
    hide ParseLoop, Absorb, Accesses, PacketReply, PacketReplyLen, AccsReply, Describe, Conforms, Absorb1, NextCnt, AllConform, CountsInStep,
         StreamReply, StreamAccesses, RepliesFit;
    var i := p.res.i;
    OutsLen(ps, fs);
    if ps == [] {
      NoneParsed(pl0, p);
      NoReply(tail);
    } else {
      PacketGone(pl0, maxRsp, rsp, p, ps, fs, tail);
      var f := fs[0];
      var mid, end := i + |f.outs|, i + |AllOuts(fs)|;
      var p2 := AfterPacket(pl0, p, ps[0], f).(oldest := NextCnt(p.oldest));
      PrefixParsed(pl0, maxRsp, rsp, p2, ps[1..], fs[1..], tail, next);
      assert pl0[i..end] == pl0[i..mid] + pl0[mid..end];
      AbsorbAppend(p.res, pl0[i..mid], f.outs, pl0[mid..end], AllOuts(fs[1..]));
    }
  }

  /** The first of them is consumed; the others are as before. */
  lemma PacketGone(pl0: seq<Trans>, maxRsp: nat, rsp: seq<Word>, p: Parse, ps: seq<Packet>, fs: seq<Frame>, tail: seq<Word>)
    requires ps != [] && FramesConform(ps, fs) && RepliesFit(ps, fs, maxRsp) && maxRsp < TWO32
    requires Describe(pl0, p.res.i, StreamAccesses(ps)) && p.res.i + |StreamAccesses(ps)| < |pl0|
    requires CountsInStep(ps) && ps[0].cnt == p.oldest < TWO16
    requires p.wi == p.next && p.wi <= |rsp| && rsp[p.wi..] == StreamReply(ps, fs) + tail
    ensures |fs[0].outs| == |Accesses(ps[0])| && |StreamAccesses(ps)| == |fs[0].outs| + |StreamAccesses(ps[1..])|
    ensures |StreamReply(ps, fs)| == PacketReplyLen(ps[0], fs[0]) + |StreamReply(ps[1..], fs[1..])|
    ensures FramesConform(ps[1..], fs[1..]) && RepliesFit(ps[1..], fs[1..], maxRsp) && CountsInStep(ps[1..])
    ensures NextCnt(p.oldest) < TWO16 && (|ps| > 1 ==> ps[1..][0].cnt == NextCnt(p.oldest))
    ensures var q := AfterPacket(pl0, p, ps[0], fs[0]).(oldest := NextCnt(p.oldest));
      && q.wi == q.next <= |rsp| && rsp[q.wi..] == StreamReply(ps[1..], fs[1..]) + tail && q.res.i == p.res.i + |fs[0].outs|
      && Describe(pl0, q.res.i, StreamAccesses(ps[1..])) && ParseLoop(pl0, maxRsp, rsp, p) == ParseLoop(pl0, maxRsp, rsp, q)
  {
    hide ParseLoop, Absorb, Accesses, PacketReply, PacketReplyLen, AccsReply, Describe, Conforms, Absorb1;
    var accs, f := Accesses(ps[0]), fs[0];
    var rest := StreamReply(ps[1..], fs[1..]) + tail;
    assert AllConform(accs, f.outs);
    assert StreamAccesses(ps) == accs + StreamAccesses(ps[1..]);
    assert rsp[p.wi..] == PacketReply(ps[0], f) + rest;
    DescribeSplit(pl0, p.res.i, accs, StreamAccesses(ps[1..]));
    PacketParsed(pl0, maxRsp, rsp, p, ps[0], f, rest);
    PacketReplyIs(ps[0], f, []);
  }

  lemma NoReply(tail: seq<Word>)
    ensures StreamAccesses([]) == [] && FramesConform([], []) && StreamReply([], []) == [] && [] + tail == tail
  {}

  lemma NoneParsed(pl0: seq<Trans>, p: Parse)
    requires p.res.i < |pl0| && p.wi == p.next
    ensures AllOuts([]) == [] && Resets([]) == 0
    ensures p == Parse(p.wi + 0, p.wi + 0, p.oldest, p.resets + 0, Absorb(p.res, pl0[p.res.i..p.res.i + 0], []))
  {}

  lemma DeniedStep(pl0: seq<Trans>, maxRsp: nat, rsp: seq<Word>, p: Parse, n: nat, conId: byte, rest: seq<Word>)
    requires p.wi == p.next && p.wi <= |rsp| && rsp[p.wi..] == DeniedStart(n, conId) + rest && 4 * n <= maxRsp < TWO32
    ensures ParseLoop(pl0, maxRsp, rsp, p) == Bad(p.(next := p.next + n), ERR_DEVICE_ACCESS)
  {
    FromToU32(4 * n);
    assert rsp[p.wi] == rsp[p.wi..][0] && rsp[p.wi + 1] == rsp[p.wi..][1];
    hide EndStep, ReadStep, WriteStep, FromU32, U32, ParseLoop;
    LoopEnd(pl0, maxRsp, rsp, p);
  }

  /** An answer that fails every access conforms. */
  function Failing(ps: seq<Packet>): (fs: seq<Frame>)
    ensures |fs| == |ps|
  {
    seq(|ps|, i requires 0 <= i < |ps| => Frame(false, 0, seq(|Accesses(ps[i])|, _ => Failed(DATA_ERROR, 0, []))))
  }

  lemma FailingConforms(ps: seq<Packet>, fs: seq<Frame>, k: nat)
    requires k <= |ps| && FramesConform(ps[..k], fs)
    ensures FramesConform(ps, fs + Failing(ps[k..]))
  {
    hide Accesses;
    var all := fs + Failing(ps[k..]);
    forall i | 0 <= i < |ps| ensures AllConform(Accesses(ps[i]), all[i].outs) {
      if i < k {
        assert ps[i] == ps[..k][i] && all[i] == fs[i];
      } else {
        assert all[i] == Failing(ps[k..])[i - k] && ps[k..][i - k] == ps[i];
      }
    }
  }

  lemma FitPrefix(ps: seq<Packet>, all: seq<Frame>, fs: seq<Frame>, k: nat, max: nat)
    requires k <= |ps| && FramesConform(ps, all) && FramesConform(ps[..k], fs) && fs == all[..k] && RepliesFit(ps, all, max)
    ensures RepliesFit(ps[..k], fs, max)
  {
    hide Accesses, PacketReplyLen, Conforms;
    forall i | 0 <= i < k ensures 4 * PacketReplyLen(ps[..k][i], fs[i]) <= max {
      assert ps[..k][i] == ps[i] && fs[i] == all[i] && AllConform(Accesses(ps[i]), all[i].outs);
    }
  }

  lemma {:induction false} MoreAccesses(ps: seq<Packet>, k: nat)
    requires k < |ps| && Accesses(ps[|ps| - 1]) != []
    ensures |StreamAccesses(ps[..k])| < |StreamAccesses(ps)|
  {
    hide Accesses, StreamAccesses;
    assert ps == ps[..k] + ps[k..];
    StreamAccessesAppend(ps[..k], ps[k..]);
    assert ps[k..][|ps[k..]| - 1] == ps[|ps| - 1];
    LastNonEmpty(ps[k..]);
  }

  lemma DescribePrefix(pl0: seq<Trans>, ps: seq<Packet>, k: nat)
    requires k <= |ps| && Describe(pl0, 0, StreamAccesses(ps))
    ensures Describe(pl0, 0, StreamAccesses(ps[..k]))
  {
    hide Describe, StreamAccesses;
    assert ps == ps[..k] + ps[k..];
    StreamAccessesAppend(ps[..k], ps[k..]);
    DescribeSplit(pl0, 0, StreamAccesses(ps[..k]), StreamAccesses(ps[k..]));
  }

  /** What the parser relies on, for the packets before packet k. */
  lemma PrefixAnswerable(cfg: Config, last: nat, ts: seq<Trans>, k: nat, fs: seq<Frame>)
    requires Legal(cfg) && last < TWO16 && ValidAll(ts) && SetTrans(cfg, last, ts).ok
    requires k < |Packets(SetTrans(cfg, last, ts).st)| && FramesConform(Packets(SetTrans(cfg, last, ts).st)[..k], fs)
    ensures var st := SetTrans(cfg, last, ts).st; var ps := Packets(st);
      && Describe(st.pl0, 0, StreamAccesses(ps[..k])) && |StreamAccesses(ps[..k])| < |st.pl0|
      && CountsInStep(ps) && ps[0].cnt == NextCnt(last)
      && RepliesFit(ps[..k], fs, cfg.maxRspSize) && cfg.maxRspSize < TWO32
  {
    hide *;
    var st := SetTrans(cfg, last, ts).st;
    var ps := Packets(st);
    var all := fs + Failing(ps[k..]);
    FailingConforms(ps, fs, k);
    RequestAnswerable(cfg, last, ts, all);
    FitsBuffer(cfg, ps, all);
    FrameCount(ps[..k], fs);
    assert fs == all[..k];
    FitPrefix(ps, all, fs, k, cfg.maxRspSize);
    MoreAccesses(ps, k);
    DescribePrefix(st.pl0, ps, k);
  }

  lemma FrameCount(ps: seq<Packet>, fs: seq<Frame>)
    requires FramesConform(ps, fs)
    ensures |fs| == |ps|
  {}

  lemma CountAt(ps: seq<Packet>, k: nat, first: nat)
    requires CountsInStep(ps) && k < |ps| && ps[0].cnt == first
    ensures CountsInStep(ps[..k])
    ensures if ps[..k] == [] then ps[k].cnt == first else ps[..k][0].cnt == first && ps[k].cnt == NextCnt(ps[..k][|ps[..k]| - 1].cnt)
  {
    hide NextCnt;
  }

  /** The packets of ps answered by fs, and then a START that denies access, and anything. */
  function DeniedWords(ps: seq<Packet>, fs: seq<Frame>, n: nat, conId: byte, rest: seq<Word>): seq<Word>
    requires FramesConform(ps, fs)
  {
    StreamReply(ps, fs) + DeniedStart(n, conId) + rest
  }

  /** A device access error: the records of the answers outs hold them, all others are as before the
      reply, and PL1 count cnt is awaited. */
  ghost predicate Denied(v: Verdict, pl0: seq<Trans>, outs: seq<Outcome>, heap: Heap, cnt: nat, resets: nat) {
    && v.Bad? && v.code == ERR_DEVICE_ACCESS && v.p.oldest == cnt && v.p.resets == resets
    && |outs| < |pl0| && v.p.res == Absorb(Result(0, NoRsps(|pl0|), heap, ERR_NONE), pl0[..|outs|], outs)
    && |v.p.res.recs| == |pl0|
    && forall j :: 0 <= j < |pl0| ==> v.p.res.recs[j] == if j < |outs| then RecOf(pl0[j], outs[j]) else NO_RSP
  }

  /** The first k packets are answered, with any mix of failing accesses; the START of the next one denies
      access. Whatever follows, the reply ends in a device access error, the records of the k packets hold their
      own answers, no other is touched, and the PL1 count awaited is that of the denied packet. */
  lemma AccessDenied(cfg: Config, last: nat, ts: seq<Trans>, k: nat, fs: seq<Frame>, n: nat, conId: byte, rest: seq<Word>,
                     resets: nat, heap: Heap)
    requires Legal(cfg) && last < TWO16 && ValidAll(ts) && SetTrans(cfg, last, ts).ok && 4 * n <= cfg.maxRspSize
    requires k < |Packets(SetTrans(cfg, last, ts).st)| && FramesConform(Packets(SetTrans(cfg, last, ts).st)[..k], fs)
    ensures var st := SetTrans(cfg, last, ts).st; var reply := DeniedWords(Packets(st)[..k], fs, n, conId, rest);
      4 * |reply| <= RspSize(st) ==>
        Denied(SetRsp(cfg, st, last, resets, heap, reply), st.pl0, AllOuts(fs), heap, Packets(st)[k].cnt, resets + Resets(fs))
  {
    hide *;
    var st := SetTrans(cfg, last, ts).st;
    var ps := Packets(st);
    PrefixAnswerable(cfg, last, ts, k, fs);
    CountAt(ps, k, NextCnt(last));
    if 4 * |DeniedWords(ps[..k], fs, n, conId, rest)| <= RspSize(st) {
      DeniedParsed(cfg, st, last, resets, heap, ps[..k], fs, n, conId, rest, ps[k].cnt);
    }
  }

  lemma DeniedParsed(cfg: Config, st: Enc, last: nat, resets: nat, heap: Heap, ps: seq<Packet>, fs: seq<Frame>, n: nat, conId: byte,
                     rest: seq<Word>, next: nat)
    requires FramesConform(ps, fs) && RepliesFit(ps, fs, cfg.maxRspSize) && cfg.maxRspSize < TWO32 && 4 * n <= cfg.maxRspSize
    requires Describe(st.pl0, 0, StreamAccesses(ps)) && |StreamAccesses(ps)| < |st.pl0| && CountsInStep(ps)
    requires if ps == [] then next == NextCnt(last) else ps[0].cnt == NextCnt(last) && next == NextCnt(ps[|ps| - 1].cnt)
    requires 4 * |DeniedWords(ps, fs, n, conId, rest)| <= RspSize(st)
    ensures Denied(SetRsp(cfg, st, last, resets, heap, DeniedWords(ps, fs, n, conId, rest)), st.pl0, AllOuts(fs), heap, next,
                   resets + Resets(fs))
  {
    hide Describe, Accesses, ParseLoop, PacketReply, Absorb, Resets, AllOuts, Conforms, CountsInStep, NextCnt, RspSize, StreamAccesses,
         PacketReplyLen, StreamReply, FromU32;
    var rsp := DeniedWords(ps, fs, n, conId, rest);
    var p := Fresh0(st, last, resets, heap);
    CntBound(last);
    assert rsp[p.wi..] == StreamReply(ps, fs) + (DeniedStart(n, conId) + rest);
    PrefixParsed(st.pl0, cfg.maxRspSize, rsp, p, ps, fs, DeniedStart(n, conId) + rest, next);
    var m := |StreamReply(ps, fs)|;
    assert st.pl0[0..0 + |AllOuts(fs)|] == st.pl0[..|AllOuts(fs)|];
    DeniedStep(st.pl0, cfg.maxRspSize, rsp,
      Parse(m, m, next, resets + Resets(fs), Absorb(p.res, st.pl0[..|AllOuts(fs)|], AllOuts(fs))), n, conId, rest);
    RecordsKept(st.pl0, AllOuts(fs), heap);
  }

  /** A reply taken to its end: the records of the answers outs hold them, all others are as before the reply, the
      error is that of the first failing access, and PL1 count cnt is awaited. */
  ghost predicate Short(v: Verdict, pl0: seq<Trans>, outs: seq<Outcome>, heap: Heap, cnt: nat, resets: nat) {
    && v.End? && v.p.oldest == cnt && v.p.resets == resets
    && |outs| < |pl0| && v.p.res == Absorb(Result(0, NoRsps(|pl0|), heap, ERR_NONE), pl0[..|outs|], outs)
    && |v.p.res.recs| == |pl0| && FirstTold(pl0[..|outs|], outs, v.p.res.err)
    && forall j :: 0 <= j < |pl0| ==> v.p.res.recs[j] == if j < |outs| then RecOf(pl0[j], outs[j]) else NO_RSP
  }

  /** A reply that ends after its first k packets is taken like a whole one: if none of their accesses failed, there is
      no error, although the records of the other packets are not answered. */
  lemma ShortReply(cfg: Config, last: nat, ts: seq<Trans>, k: nat, fs: seq<Frame>, resets: nat, heap: Heap)
    requires Legal(cfg) && last < TWO16 && ValidAll(ts) && SetTrans(cfg, last, ts).ok
    requires 0 < k < |Packets(SetTrans(cfg, last, ts).st)| && FramesConform(Packets(SetTrans(cfg, last, ts).st)[..k], fs)
    ensures var st := SetTrans(cfg, last, ts).st; var reply := StreamReply(Packets(st)[..k], fs);
      4 * |reply| <= RspSize(st) ==>
        Short(SetRsp(cfg, st, last, resets, heap, reply), st.pl0, AllOuts(fs), heap, Packets(st)[k].cnt, resets + Resets(fs))
  {
    hide *;
    var st := SetTrans(cfg, last, ts).st;
    var ps := Packets(st);
    PrefixAnswerable(cfg, last, ts, k, fs);
    CountAt(ps, k, NextCnt(last));
    if 4 * |StreamReply(ps[..k], fs)| <= RspSize(st) {
      ShortParsed(cfg, st, last, resets, heap, ps[..k], fs, ps[k].cnt);
    }
  }

  lemma ShortParsed(cfg: Config, st: Enc, last: nat, resets: nat, heap: Heap, ps: seq<Packet>, fs: seq<Frame>, next: nat)
    requires ps != [] && FramesConform(ps, fs) && RepliesFit(ps, fs, cfg.maxRspSize) && cfg.maxRspSize < TWO32
    requires Describe(st.pl0, 0, StreamAccesses(ps)) && |StreamAccesses(ps)| < |st.pl0| && CountsInStep(ps)
    requires ps[0].cnt == NextCnt(last) && next == NextCnt(ps[|ps| - 1].cnt)
    requires 4 * |StreamReply(ps, fs)| <= RspSize(st)
    ensures Short(SetRsp(cfg, st, last, resets, heap, StreamReply(ps, fs)), st.pl0, AllOuts(fs), heap, next, resets + Resets(fs))
  {
    hide Describe, Accesses, ParseLoop, PacketReply, Absorb, Resets, AllOuts, Conforms, CountsInStep, NextCnt, RspSize, StreamAccesses,
         PacketReplyLen, StreamReply, FromU32, FirstTold;
    var rsp := StreamReply(ps, fs);
    var p := Fresh0(st, last, resets, heap);
    CntBound(last);
    TwoWords(ps, fs);
    assert rsp[p.wi..] == StreamReply(ps, fs) + [];
    PrefixParsed(st.pl0, cfg.maxRspSize, rsp, p, ps, fs, [], next);
    var pl0, outs := st.pl0[..|AllOuts(fs)|], AllOuts(fs);
    assert st.pl0[0..0 + |outs|] == pl0;
    Used(st.pl0, cfg.maxRspSize, rsp, Parse(|rsp|, |rsp|, next, resets + Resets(fs), Absorb(p.res, pl0, outs)));
    AbsorbError(p.res, pl0, outs);
    RecordsKept(st.pl0, outs, heap);
  }

  lemma TwoWords(ps: seq<Packet>, fs: seq<Frame>)
    requires ps != [] && FramesConform(ps, fs)
    ensures |StreamReply(ps, fs)| >= 2
  {
    hide Accesses, AccsReply;
  }

  /** When the words are used up, the parser ends without an error of its own. */
  lemma Used(pl0: seq<Trans>, maxRsp: nat, rsp: seq<Word>, p: Parse)
    requires p.wi >= |rsp|
    ensures ParseLoop(pl0, maxRsp, rsp, p) == End(p)
  {}

  /** Answers go to their own records, and to no other. */
  lemma RecordsKept(pl0: seq<Trans>, outs: seq<Outcome>, heap: Heap)
    requires |outs| <= |pl0|
    ensures var r := Absorb(Result(0, NoRsps(|pl0|), heap, ERR_NONE), pl0[..|outs|], outs);
      && |r.recs| == |pl0|
      && (forall j :: 0 <= j < |outs| ==> r.recs[j] == RecOf(pl0[j], outs[j]))
      && (forall j :: |outs| <= j < |pl0| ==> r.recs[j] == NO_RSP)
  {
    hide Absorb, RecOf;
    var r0 := Result(0, NoRsps(|pl0|), heap, ERR_NONE);
    var ts := pl0[..|outs|];
    var s := Absorb(r0, ts, outs);
    AbsorbRecords(r0, ts, outs);
    AbsorbUntouched(r0, ts, outs);
    forall j | 0 <= j < |outs| ensures s.recs[j] == RecOf(pl0[j], outs[j]) {
      assert s.recs[0 + j] == RecOf(ts[j], outs[j]) && ts[j] == pl0[j];
    }
  }

  lemma {:induction false} AbsorbUntouched(r: Result, ts: seq<Trans>, outs: seq<Outcome>)
    requires |ts| == |outs| && r.i + |ts| <= |r.recs|
    ensures var s := Absorb(r, ts, outs);
      |s.recs| == |r.recs| && forall j :: r.i + |ts| <= j < |r.recs| ==> s.recs[j] == r.recs[j]
    decreases |ts|
  {
    hide FirstErr, Put, RecOf;
    if ts != [] {
      AbsorbUntouched(Absorb1(r, ts[0], outs[0]), ts[1..], outs[1..]);
    }
  }

  lemma {:induction false} StreamRspAppend(a: seq<Packet>, b: seq<Packet>)
    ensures StreamRsp(a + b) == StreamRsp(a) + StreamRsp(b)
  {
    hide PacketRsp;
    if a == [] {
      assert a + b == b;
    } else {
      StreamRspCons(a);
      StreamRspCons(a + b);
      assert (a + b)[1..] == a[1..] + b;
      StreamRspAppend(a[1..], b);
    }
  }

  lemma SizesPart(ps: seq<Packet>, lo: nat, hi: nat)
    requires lo <= hi <= |ps| && SizesValid(ps)
    ensures SizesValid(ps[lo..hi])
  {
    hide Accesses;
  }

  lemma OnePacketRsp(p: Packet)
    ensures StreamRsp([p]) >= 12
  {
    assert [p][..0] == [];
  }

  /** A conforming server that denies packet k sends START and END for it, and answers the packets after it:
      such a reply is no longer than predicted. */
  lemma DeniedNotLonger(cfg: Config, last: nat, ts: seq<Trans>, k: nat, fs: seq<Frame>, conId: byte, end: Word, gs: seq<Frame>)
    requires Legal(cfg) && last < TWO16 && ValidAll(ts) && SetTrans(cfg, last, ts).ok
    requires var ps := Packets(SetTrans(cfg, last, ts).st);
      k < |ps| && FramesConform(ps[..k], fs) && FramesConform(ps[k + 1..], gs)
    ensures var st := SetTrans(cfg, last, ts).st; var ps := Packets(st);
      4 * |DeniedWords(ps[..k], fs, 3, conId, [end] + StreamReply(ps[k + 1..], gs))| <= RspSize(st)
  {
    hide *;
    var st := SetTrans(cfg, last, ts).st;
    var ps := Packets(st);
    FailingConforms(ps, fs, k);
    RequestAnswerable(cfg, last, ts, fs + Failing(ps[k..]));
    SizesPart(ps, 0, k);
    SizesPart(ps, k + 1, |ps|);
    assert ps[0..k] == ps[..k] && ps[k + 1..|ps|] == ps[k + 1..];
    StreamReplySize(ps[..k], fs);
    StreamReplySize(ps[k + 1..], gs);
    assert ps == (ps[..k] + [ps[k]]) + ps[k + 1..];
    StreamRspAppend(ps[..k] + [ps[k]], ps[k + 1..]);
    StreamRspAppend(ps[..k], [ps[k]]);
    OnePacketRsp(ps[k]);
    DeniedLen(ps[..k], fs, conId, [end] + StreamReply(ps[k + 1..], gs));
  }

  lemma DeniedLen(ps: seq<Packet>, fs: seq<Frame>, conId: byte, rest: seq<Word>)
    requires FramesConform(ps, fs)
    ensures |DeniedWords(ps, fs, 3, conId, rest)| == |StreamReply(ps, fs)| + 2 + |rest|
  {
    hide StreamReply;
  }

  // ---- Answers to a whole request, each packet executed or denied ----

  datatype PacketAnswer = Answered(f: Frame) | Refusal(conId: byte)

  predicate AnswerConforms(p: Packet, a: PacketAnswer) {
    a.Answered? ==> AllConform(Accesses(p), a.f.outs)
  }

  predicate AnswersConform(ps: seq<Packet>, ans: seq<PacketAnswer>) {
    |ans| == |ps| && forall i :: 0 <= i < |ps| ==> AnswerConforms(ps[i], ans[i])
  }

  /** The reply packet: the results, or START with the access error and END. */
  function AnswerPacket(p: Packet, a: PacketAnswer): seq<Word>
    requires AnswerConforms(p, a)
  {
    match a
    case Answered(f) => PacketReply(p, f)
    case Refusal(conId) => DeniedStart(3, conId) + [Words.Head(0, CMD_PL0_END, p.cnt)]
  }

  function AnswerPackets(ps: seq<Packet>, ans: seq<PacketAnswer>): (pkts: seq<seq<Word>>)
    requires AnswersConform(ps, ans)
    ensures |pkts| == |ps|
  {
    seq(|ps|, i requires 0 <= i < |ps| => AnswerPacket(ps[i], ans[i]))
  }

  function AnswerWords(ps: seq<Packet>, ans: seq<PacketAnswer>): seq<Word>
    requires AnswersConform(ps, ans)
  {
    if ps == [] then [] else AnswerPacket(ps[0], ans[0]) + AnswerWords(ps[1..], ans[1..])
  }

  /** The frames before the first denial. */
  function FramesBefore(ans: seq<PacketAnswer>): (fs: seq<Frame>)
    ensures |fs| <= |ans|
  {
    if ans == [] || ans[0].Refusal? then [] else [ans[0].f] + FramesBefore(ans[1..])
  }

  /** What follows the START of the denied packet k. */
  function AfterDenial(ps: seq<Packet>, ans: seq<PacketAnswer>, k: nat): seq<Word>
    requires k < |ps| == |ans| && AnswersConform(ps[k + 1..], ans[k + 1..])
  {
    [Words.Head(0, CMD_PL0_END, ps[k].cnt)] + AnswerWords(ps[k + 1..], ans[k + 1..])
  }

  /** Is the reply to ps that of the frames fs, and then, unless these are all, a denial? */
  ghost predicate SplitAs(ps: seq<Packet>, ans: seq<PacketAnswer>, fs: seq<Frame>)
    requires AnswersConform(ps, ans)
  {
    var k := |fs|;
    && k <= |ps| && FramesConform(ps[..k], fs)
    && (k == |ps| ==> AnswerWords(ps, ans) == StreamReply(ps[..k], fs))
    && (k < |ps| ==> ans[k].Refusal? && AnswersConform(ps[k + 1..], ans[k + 1..]))
    && (k < |ps| ==> AnswerWords(ps, ans) == DeniedWords(ps[..k], fs, 3, ans[k].conId, AfterDenial(ps, ans, k)))
  }

  lemma SplitNow(ps: seq<Packet>, ans: seq<PacketAnswer>)
    requires AnswersConform(ps, ans) && ps != [] && ans[0].Refusal?
    ensures SplitAs(ps, ans, [])
  {
    RestConforms(ps, ans, 1);
    hide AnswerConforms, FromU32, Words.Head;
    assert ps[..0] == [] && StreamReply(ps[..0], []) == [];
    assert ps[0 + 1..] == ps[1..] && ans[0 + 1..] == ans[1..];
    assert [] + DeniedStart(3, ans[0].conId) == DeniedStart(3, ans[0].conId);
    var end := [Words.Head(0, CMD_PL0_END, ps[0].cnt)];
    assert (DeniedStart(3, ans[0].conId) + end) + AnswerWords(ps[1..], ans[1..])
        == DeniedStart(3, ans[0].conId) + (end + AnswerWords(ps[1..], ans[1..]));
  }

  lemma StreamFirst(ps: seq<Packet>, fs: seq<Frame>)
    requires fs != [] && |fs| <= |ps| && FramesConform(ps[..|fs|], fs)
    ensures |fs[0].outs| == |Accesses(ps[0])| && FramesConform(ps[1..][..|fs| - 1], fs[1..])
    ensures StreamReply(ps[..|fs|], fs) == PacketReply(ps[0], fs[0]) + StreamReply(ps[1..][..|fs| - 1], fs[1..])
  {
    hide Accesses, PacketReply;
    var qs := ps[..|fs|];
    assert AllConform(Accesses(qs[0]), fs[0].outs);
    assert qs[1..] == ps[1..][..|fs| - 1] && qs[0] == ps[0];
  }

  lemma SplitMore(ps: seq<Packet>, ans: seq<PacketAnswer>, rest: seq<Frame>)
    requires AnswersConform(ps, ans) && ps != [] && ans[0].Answered?
    requires AnswersConform(ps[1..], ans[1..]) && SplitAs(ps[1..], ans[1..], rest)
    ensures SplitAs(ps, ans, [ans[0].f] + rest)
  {
    hide Accesses, PacketReply, AllConform, FromU32, Words.Head, AnswerWords, StreamReply;
    var fs := [ans[0].f] + rest;
    var k := |fs|;
    assert AnswerConforms(ps[0], ans[0]);
    assert fs[1..] == rest && ps[..k][1..] == ps[1..][..k - 1] && ps[..k][0] == ps[0] && fs[0] == ans[0].f;
    PrefixConforms(ps[..k], fs);
    StreamFirst(ps, fs);
    assert AnswerWords(ps, ans) == PacketReply(ps[0], fs[0]) + AnswerWords(ps[1..], ans[1..]) by { WordsFirst(ps, ans); }
    if k < |ps| {
      assert ps[1..][k..] == ps[k + 1..] && ans[1..][k..] == ans[k + 1..] && ps[1..][k - 1] == ps[k] && ans[1..][k - 1] == ans[k];
      assert AfterDenial(ps, ans, k) == AfterDenial(ps[1..], ans[1..], k - 1);
    }
  }

  lemma WordsFirst(ps: seq<Packet>, ans: seq<PacketAnswer>)
    requires AnswersConform(ps, ans) && ps != [] && ans[0].Answered?
    ensures AnswerConforms(ps[0], ans[0]) && AnswersConform(ps[1..], ans[1..])
    ensures AnswerWords(ps, ans) == PacketReply(ps[0], ans[0].f) + AnswerWords(ps[1..], ans[1..])
  {
    hide PacketReply, Accesses;
  }

  /** A reply is that of the frames before the first denial, and then the denial. */
  lemma {:induction false} AnswerSplit(ps: seq<Packet>, ans: seq<PacketAnswer>)
    requires AnswersConform(ps, ans)
    ensures SplitAs(ps, ans, FramesBefore(ans))
  {
    AnswerCount(ps, ans);
    hide SplitAs, AnswersConform;
    if ps == [] {
      NothingSplit(ps, ans);
    } else if !ans[0].Answered? {
      SplitNow(ps, ans);
    } else {
      RestConforms(ps, ans, 1);
      AnswerSplit(ps[1..], ans[1..]);
      SplitMore(ps, ans, FramesBefore(ans[1..]));
    }
  }

  lemma NothingSplit(ps: seq<Packet>, ans: seq<PacketAnswer>)
    requires AnswersConform(ps, ans) && ps == []
    ensures FramesBefore(ans) == [] && SplitAs(ps, ans, [])
  {
    assert ps[..0] == [];
  }

  lemma PrefixConforms(ps: seq<Packet>, fs: seq<Frame>)
    requires |fs| == |ps| > 0 && AllConform(Accesses(ps[0]), fs[0].outs) && FramesConform(ps[1..], fs[1..])
    ensures FramesConform(ps, fs)
  {
    hide Accesses;
    forall i | 0 <= i < |ps| ensures AllConform(Accesses(ps[i]), fs[i].outs) {
      if i > 0 {
        assert ps[1..][i - 1] == ps[i] && fs[1..][i - 1] == fs[i];
      }
    }
  }

  lemma RestConforms(ps: seq<Packet>, ans: seq<PacketAnswer>, k: nat)
    requires AnswersConform(ps, ans) && k <= |ps|
    ensures AnswersConform(ps[k..], ans[k..])
  {
    hide AnswerConforms;
  }

  lemma AnswerSize(p: Packet, a: PacketAnswer)
    requires AnswerConforms(p, a) && ValidSizes(Accesses(p))
    ensures 12 <= 4 * |AnswerPacket(p, a)| <= PacketRsp(p)
    ensures AnswerPacket(p, a)[0] == FromU32(4 * |AnswerPacket(p, a)|) && AnswerPacket(p, a)[1] != ZERO
  {
    match a {
      case Answered(f) =>
        hide Accesses, AccsReply, AllConform, FromU32;
        PacketReplySize(p, f);
        PacketReplyIs(p, f, []);
        assert PacketReply(p, f) + [] == PacketReply(p, f);
      case Refusal(_) =>
        hide FromU32, Accesses;
    }
  }

  lemma {:induction false} AnswerWordsSize(ps: seq<Packet>, ans: seq<PacketAnswer>)
    requires AnswersConform(ps, ans) && SizesValid(ps)
    ensures 4 * |AnswerWords(ps, ans)| <= StreamRsp(ps)
  {
    hide AnswerPacket, PacketRsp, Accesses, AnswerConforms, ValidSizes;
    if ps != [] {
      RestConforms(ps, ans, 1);
      assert ValidSizes(Accesses(ps[0])) && AnswerConforms(ps[0], ans[0]);
      AnswerSize(ps[0], ans[0]);
      StreamRspCons(ps);
      SizesPart(ps, 1, |ps|);
      assert ps[1..|ps|] == ps[1..];
      AnswerWordsSize(ps[1..], ans[1..]);
    }
  }

  /** The results of the answers before the first denial: records, client memory and error. */
  function Collected(st: Enc, heap: Heap, ans: seq<PacketAnswer>): Result
    requires |AllOuts(FramesBefore(ans))| <= |st.pl0|
  {
    var outs := AllOuts(FramesBefore(ans));
    Absorb(Result(0, NoRsps(|st.pl0|), heap, ERR_NONE), st.pl0[..|outs|], outs)
  }

  /** The error returned: the first failing access counts, unless a packet was denied. */
  function Reported(r: Result, ans: seq<PacketAnswer>): nat {
    if |FramesBefore(ans)| < |ans| then ERR_DEVICE_ACCESS else r.err
  }

  /** What the API error err says about the answers: device access, if a packet was denied; else what the first
      failing access says. */
  ghost predicate ErrorTold(pl0: seq<Trans>, ans: seq<PacketAnswer>, err: nat)
    requires |AllOuts(FramesBefore(ans))| <= |pl0|
  {
    var outs := AllOuts(FramesBefore(ans));
    if exists i :: 0 <= i < |ans| && ans[i].Refusal? then err == 0x0400 else FirstTold(pl0[..|outs|], outs, err)
  }

  lemma {:induction false} DeniedOne(ans: seq<PacketAnswer>)
    ensures |FramesBefore(ans)| < |ans| <==> exists i :: 0 <= i < |ans| && ans[i].Refusal?
  {
    if ans != [] {
      DeniedOne(ans[1..]);
      if i: nat :| i < |ans| && ans[i].Refusal? && i > 0 {
        assert ans[1..][i - 1].Refusal?;
      }
      if i: nat :| i < |ans[1..]| && ans[1..][i].Refusal? {
        assert ans[i + 1].Refusal?;
      }
    }
  }

  lemma ReportedTold(st: Enc, heap: Heap, ans: seq<PacketAnswer>)
    requires |AllOuts(FramesBefore(ans))| <= |st.pl0|
    ensures ErrorTold(st.pl0, ans, Reported(Collected(st, heap, ans), ans))
  {
    hide Absorb, FramesBefore, FirstTold;
    DeniedOne(ans);
    var outs := AllOuts(FramesBefore(ans));
    AbsorbError(Result(0, NoRsps(|st.pl0|), heap, ERR_NONE), st.pl0[..|outs|], outs);
  }

  /** Whatever a conforming server answers, failing accesses and denied packets included: the reply is no longer
      than predicted, its results are those of the answers before the first denial, and the error says
      whether there was one. */
  lemma AnswersTaken(cfg: Config, last: nat, ts: seq<Trans>, ans: seq<PacketAnswer>, resets: nat, heap: Heap)
    requires Legal(cfg) && last < TWO16 && ValidAll(ts) && SetTrans(cfg, last, ts).ok
    requires AnswersConform(Packets(SetTrans(cfg, last, ts).st), ans)
    ensures var st := SetTrans(cfg, last, ts).st; var reply := AnswerWords(Packets(st), ans);
      && 4 * |reply| <= RspSize(st) && |AllOuts(FramesBefore(ans))| <= |st.pl0|
      && var v := SetRsp(cfg, st, last, resets, heap, reply); var r := Collected(st, heap, ans);
      && (v.Bad? || v.End?) && (if v.Bad? then v.code else v.p.res.err) == Reported(r, ans)
      && ErrorTold(st.pl0, ans, if v.Bad? then v.code else v.p.res.err)
      && v.p.res == r && v.p.resets == resets + Resets(FramesBefore(ans))
      && (|FramesBefore(ans)| == |ans| ==> v.p.oldest == NextCnt(st.last) && |AllOuts(FramesBefore(ans))| == |st.pl0|)
  {
    hide *;
    var st := SetTrans(cfg, last, ts).st;
    var ps, fs := Packets(st), FramesBefore(ans);
    var k := |fs|;
    AnswerCount(ps, ans);
    AnswerSplit(ps, ans);
    SplitParts(ps, ans, fs);
    FailingConforms(ps, fs, k);
    RequestAnswerable(cfg, last, ts, fs + Failing(ps[k..]));
    AnswerWordsSize(ps, ans);
    if k == |ps| {
      assert ps[..k] == ps;
      ReplyAccepted(cfg, last, ts, fs, resets, heap);
      AllCollected(st, last, resets, heap, ans);
    } else {
      var rest := AfterDenial(ps, ans, k);
      ThreeFit(cfg);
      AccessDenied(cfg, last, ts, k, fs, 3, ans[k].conId, rest, resets, heap);
      SomeCollected(SetRsp(cfg, st, last, resets, heap, AnswerWords(ps, ans)), st, heap, ans, ps[k].cnt, resets + Resets(fs));
    }
    ReportedTold(st, heap, ans);
  }

  lemma SplitParts(ps: seq<Packet>, ans: seq<PacketAnswer>, fs: seq<Frame>)
    requires AnswersConform(ps, ans) && SplitAs(ps, ans, fs)
    ensures var k := |fs|;
      && k <= |ps| && FramesConform(ps[..k], fs)
      && (k == |ps| ==> AnswerWords(ps, ans) == StreamReply(ps[..k], fs))
      && (k < |ps| ==> ans[k].Refusal? && AnswersConform(ps[k + 1..], ans[k + 1..]))
      && (k < |ps| ==> AnswerWords(ps, ans) == DeniedWords(ps[..k], fs, 3, ans[k].conId, AfterDenial(ps, ans, k)))
  {}

  lemma AnswerCount(ps: seq<Packet>, ans: seq<PacketAnswer>)
    requires AnswersConform(ps, ans)
    ensures |ans| == |ps|
  {}

  lemma ThreeFit(cfg: Config)
    requires Legal(cfg)
    ensures 4 * 3 <= cfg.maxRspSize
  {}

  lemma AllCollected(st: Enc, last: nat, resets: nat, heap: Heap, ans: seq<PacketAnswer>)
    requires |AllOuts(FramesBefore(ans))| == |st.pl0| && |FramesBefore(ans)| == |ans|
    ensures Absorb(Fresh0(st, last, resets, heap).res, st.pl0, AllOuts(FramesBefore(ans))) == Collected(st, heap, ans)
    ensures forall r: Result :: Reported(r, ans) == r.err
  {
    hide Absorb;
    assert st.pl0[..|st.pl0|] == st.pl0;
  }

  lemma SomeCollected(v: Verdict, st: Enc, heap: Heap, ans: seq<PacketAnswer>, cnt: nat, resets: nat)
    requires Denied(v, st.pl0, AllOuts(FramesBefore(ans)), heap, cnt, resets) && |FramesBefore(ans)| < |ans|
    ensures |AllOuts(FramesBefore(ans))| < |st.pl0|
    ensures v.Bad? && v.p.res == Collected(st, heap, ans) && v.code == Reported(Collected(st, heap, ans), ans) && v.p.resets == resets
  {
    hide Absorb;
  }

  function AllAnswered(fs: seq<Frame>): (ans: seq<PacketAnswer>)
    ensures |ans| == |fs|
  {
    seq(|fs|, i requires 0 <= i < |fs| => Answered(fs[i]))
  }

  lemma {:induction false} NoneDenied(fs: seq<Frame>)
    ensures FramesBefore(AllAnswered(fs)) == fs
  {
    if fs != [] {
      assert AllAnswered(fs)[1..] == AllAnswered(fs[1..]);
      NoneDenied(fs[1..]);
    }
  }
}
