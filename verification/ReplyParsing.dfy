/** A conforming reply is parsed to its end, record by record. */
module ReplyParsing {
  import opened Words
  import opened Errors
  import opened Protocol
  import opened Semantics
  import opened Encoder
  import opened Reply

  /** START, the answers and END of a packet reply, without the PL2 length. */
  function StartWord(f: Frame): Word {
    Word(0, CMD_PL0_START, f.conId, if f.reset then DEV_RESET else PL_NO_ERROR)
  }

  function PacketReplyLen(p: Packet, f: Frame): nat
    requires |f.outs| == |Accesses(p)|
  {
    3 + |AccsReply(Accesses(p), f.outs)|
  }

  lemma PacketReplyIs(p: Packet, f: Frame, tail: seq<Word>)
    requires |f.outs| == |Accesses(p)|
    ensures var n := PacketReplyLen(p, f);
      && |PacketReply(p, f)| == n
      && PacketReply(p, f) + tail
         == [FromU32(4 * n), StartWord(f)] + (AccsReply(Accesses(p), f.outs) + ([Words.Head(0, CMD_PL0_END, p.cnt)] + tail))
  {
    hide AccsReply, Accesses;
  }

  lemma StartParsed(pl0: seq<Trans>, maxRsp: nat, rsp: seq<Word>, p: Parse, n: nat, f: Frame, body: seq<Word>)
    requires p.wi == p.next && p.wi <= |rsp| && rsp[p.wi..] == [FromU32(4 * n), StartWord(f)] + body
    requires 4 * n <= maxRsp && 4 * n < TWO32
    ensures var q := p.(wi := p.wi + 2, next := p.next + n, resets := p.resets + if f.reset then 1 else 0);
      && ParseLoop(pl0, maxRsp, rsp, p) == ParseLoop(pl0, maxRsp, rsp, q)
      && q.wi <= |rsp| && rsp[q.wi..] == body
  {
    hide EndStep, ReadStep, WriteStep, FromU32, ParseLoop;
    FromToU32(4 * n);
    var q := p.(wi := p.wi + 2, next := p.next + n, resets := p.resets + if f.reset then 1 else 0);
    assert rsp[p.wi] == rsp[p.wi..][0] && rsp[p.wi + 1] == rsp[p.wi..][1];
    assert Step(pl0, maxRsp, rsp, p) == More(q);
    LoopStep(pl0, maxRsp, rsp, p, q);
    assert rsp[q.wi..] == rsp[p.wi..][2..] == body;
  }

  lemma LoopEnd(pl0: seq<Trans>, maxRsp: nat, rsp: seq<Word>, p: Parse)
    requires p.wi < |rsp| && !Step(pl0, maxRsp, rsp, p).More?
    ensures ParseLoop(pl0, maxRsp, rsp, p) == Step(pl0, maxRsp, rsp, p)
  {
    hide Step;
    StepAdvances(pl0, maxRsp, rsp, p);
  }

  lemma EndParsed(pl0: seq<Trans>, maxRsp: nat, rsp: seq<Word>, p: Parse, tail: seq<Word>)
    requires p.wi != p.next && p.wi <= |rsp| && p.oldest < TWO16
    requires rsp[p.wi..] == [Words.Head(0, CMD_PL0_END, p.oldest)] + tail
    ensures p.wi < |rsp| && rsp[p.wi + 1..] == tail
    ensures ParseLoop(pl0, maxRsp, rsp, p) ==
      if p.res.i == |pl0| then End(p.(wi := p.wi + 1))
      else ParseLoop(pl0, maxRsp, rsp, p.(wi := p.wi + 1, oldest := NextCnt(p.oldest)))
  {
    HeadParts(0, CMD_PL0_END, p.oldest);
    assert rsp[p.wi] == rsp[p.wi..][0];
    assert rsp[p.wi + 1..] == rsp[p.wi..][1..] == tail;
    hide StartStep, ReadStep, WriteStep, NextCnt, Words.Head, Field16, IsReadCmd, IsWriteCmd, ParseLoop;
    if p.res.i != |pl0| {
      LoopStep(pl0, maxRsp, rsp, p, p.(wi := p.wi + 1, oldest := NextCnt(p.oldest)));
    } else {
      LoopEnd(pl0, maxRsp, rsp, p);
    }
  }

  /** State after a whole packet's reply, before the count is moved on. */
  function AfterPacket(pl0: seq<Trans>, p: Parse, pk: Packet, f: Frame): Parse
    requires |f.outs| == |Accesses(pk)| && p.res.i + |f.outs| <= |pl0|
  {
    Parse(p.wi + PacketReplyLen(pk, f), p.next + PacketReplyLen(pk, f), p.oldest,
          p.resets + (if f.reset then 1 else 0), Absorb(p.res, pl0[p.res.i..p.res.i + |f.outs|], f.outs))
  }

  lemma PacketParsed(pl0: seq<Trans>, maxRsp: nat, rsp: seq<Word>, p: Parse, pk: Packet, f: Frame, tail: seq<Word>)
    requires Describe(pl0, p.res.i, Accesses(pk)) && AllConform(Accesses(pk), f.outs)
    requires p.wi == p.next && p.wi <= |rsp| && rsp[p.wi..] == PacketReply(pk, f) + tail
    requires pk.cnt == p.oldest < TWO16 && 4 * PacketReplyLen(pk, f) <= maxRsp < TWO32
    ensures var q := AfterPacket(pl0, p, pk, f);
      && q.wi <= |rsp| && rsp[q.wi..] == tail && q.wi == q.next && q.res.i == p.res.i + |f.outs|
      && ParseLoop(pl0, maxRsp, rsp, p) ==
         if q.res.i == |pl0| then End(q) else ParseLoop(pl0, maxRsp, rsp, q.(oldest := NextCnt(p.oldest)))
  {
    hide ParseLoop, AccsReply, Accesses, Absorb, PacketReply, Conforms, NextCnt;
    var accs := Accesses(pk);
    var n := PacketReplyLen(pk, f);
    var end := [Words.Head(0, CMD_PL0_END, pk.cnt)] + tail;
    PacketReplyIs(pk, f, tail);
    StartParsed(pl0, maxRsp, rsp, p, n, f, AccsReply(accs, f.outs) + end);
    var q1 := p.(wi := p.wi + 2, next := p.next + n, resets := p.resets + if f.reset then 1 else 0);
    AnswersParsed(pl0, maxRsp, rsp, q1, accs, f.outs, end);
    var run := pl0[p.res.i..p.res.i + |accs|];
    var q2 := q1.(wi := q1.wi + |AccsReply(accs, f.outs)|, res := Absorb(p.res, run, f.outs));
    EndParsed(pl0, maxRsp, rsp, q2, tail);
    AbsorbCount(p.res, run, f.outs);
    assert AfterPacket(pl0, p, pk, f) == q2.(wi := q2.wi + 1);
  }

  // ---- The whole reply ----

  ghost predicate CountsInStep(ps: seq<Packet>) {
    forall i :: 0 < i < |ps| ==> ps[i].cnt == NextCnt(ps[i - 1].cnt)
  }

  ghost predicate RepliesFit(ps: seq<Packet>, fs: seq<Frame>, maxRsp: nat)
    requires FramesConform(ps, fs)
  {
    forall i :: 0 <= i < |ps| ==> 4 * PacketReplyLen(ps[i], fs[i]) <= maxRsp
  }

  lemma {:induction false} OutsLen(ps: seq<Packet>, fs: seq<Frame>)
    requires FramesConform(ps, fs)
    ensures |AllOuts(fs)| == |StreamAccesses(ps)|
  {
    if ps != [] {
      assert AllConform(Accesses(ps[0]), fs[0].outs);
      OutsLen(ps[1..], fs[1..]);
    }
  }

  lemma DescribeSplit(pl0: seq<Trans>, lo: nat, a: seq<Access>, b: seq<Access>)
    requires Describe(pl0, lo, a + b)
    ensures Describe(pl0, lo, a) && Describe(pl0, lo + |a|, b)
  {
    hide ValidSize;
    forall k | 0 <= k < |a| ensures pl0[lo + k].acc.kind == a[k].kind && pl0[lo + k].acc.n == a[k].n && ValidSize(a[k].kind, a[k].n) {
      assert (a + b)[k] == a[k];
    }
    forall k | 0 <= k < |b| ensures pl0[lo + |a| + k].acc.kind == b[k].kind && pl0[lo + |a| + k].acc.n == b[k].n && ValidSize(b[k].kind, b[k].n) {
      assert (a + b)[|a| + k] == b[k] && pl0[lo + |a| + k] == pl0[lo + (|a| + k)];
    }
  }

  /** From a packet boundary on, the reply is consumed exactly; the count ends at the last packet's. */
  lemma {:induction false} StreamParsed(pl0: seq<Trans>, maxRsp: nat, rsp: seq<Word>, p: Parse, ps: seq<Packet>, fs: seq<Frame>)
    requires ps != [] && FramesConform(ps, fs) && RepliesFit(ps, fs, maxRsp) && maxRsp < TWO32
    requires Describe(pl0, p.res.i, StreamAccesses(ps)) && |pl0| == p.res.i + |StreamAccesses(ps)|
    requires Accesses(ps[|ps| - 1]) != []
    requires CountsInStep(ps) && ps[0].cnt == p.oldest < TWO16
    requires p.wi == p.next && p.wi <= |rsp| && rsp[p.wi..] == StreamReply(ps, fs)
    ensures |AllOuts(fs)| == |pl0| - p.res.i
    ensures ParseLoop(pl0, maxRsp, rsp, p) ==
      End(Parse(|rsp|, |rsp|, ps[|ps| - 1].cnt, p.resets + Resets(fs), Absorb(p.res, pl0[p.res.i..], AllOuts(fs))))
    decreases |ps|
  {
    hide ParseLoop, Absorb, Accesses, PacketReply, AccsReply, Describe, Conforms, Absorb1;
    var accs, f, i := Accesses(ps[0]), fs[0], p.res.i;
    var tail := StreamReply(ps[1..], fs[1..]);
    OutsLen(ps, fs);
    assert AllConform(accs, f.outs);
    assert StreamAccesses(ps) == accs + StreamAccesses(ps[1..]);
    DescribeSplit(pl0, i, accs, StreamAccesses(ps[1..]));
    PacketParsed(pl0, maxRsp, rsp, p, ps[0], f, tail);
    var q := AfterPacket(pl0, p, ps[0], f);
    var mid := i + |f.outs|;
    if |ps| == 1 {
      assert StreamAccesses(ps[1..]) == [] && tail == [];
      assert pl0[i..mid] == pl0[i..] && AllOuts(fs) == f.outs by { assert AllOuts(fs[1..]) == []; }
      assert q.wi == |rsp|;
    } else {
      LastNonEmpty(ps[1..]);
      var p2 := q.(oldest := NextCnt(p.oldest));
      assert ps[1..][0].cnt == NextCnt(p.oldest);
      assert CountsInStep(ps[1..]);
      assert NextCnt(p.oldest) < TWO16;
      StreamParsed(pl0, maxRsp, rsp, p2, ps[1..], fs[1..]);
      assert pl0[i..] == pl0[i..mid] + pl0[mid..];
      AbsorbAppend(p.res, pl0[i..mid], f.outs, pl0[mid..], AllOuts(fs[1..]));
    }
  }

  lemma {:induction false} LastNonEmpty(ps: seq<Packet>)
    requires ps != [] && Accesses(ps[|ps| - 1]) != []
    ensures StreamAccesses(ps) != []
  {
    hide Accesses;
    if |ps| > 1 {
      assert ps[1..][|ps| - 2] == ps[|ps| - 1];
      LastNonEmpty(ps[1..]);
    }
  }
}
