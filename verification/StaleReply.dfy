/** Replies to other requests are refused: the PL1 count tells them apart. */
module StaleReply {
  import opened Words
  import opened Errors
  import opened Protocol
  import opened Semantics
  import opened Encoder
  import opened Reply
  import opened ReplyParsing
  import opened EndToEnd

  /** Refused as a connection error. */
  predicate Refused(v: Verdict) {
    v.Bad? && v.code == ERR_SERVER_CON
  }

  lemma ReadSkips(t: Trans, a: Access, o: Outcome, rest: seq<Word>, p: Parse)
    requires a.kind.Read? && ValidSize(Read, a.n) && Conforms(a, o)
    ensures var v := ReadStep(t, RspWords(a, o)[0], rest, p);
      Refused(v) || (v.More? && v.p == p.(wi := p.wi + |RspWords(a, o)|, res := v.p.res))
  {
    hide Put, ToBytes, FirstErr, Note;
  }

  lemma WriteSkips(t: Trans, a: Access, o: Outcome, p: Parse)
    requires !a.kind.Read? && ValidSize(a.kind, a.n) && Conforms(a, o)
    ensures var v := WriteStep(t, RspWords(a, o)[0], p);
      Refused(v) || (v.More? && v.p == p.(wi := p.wi + |RspWords(a, o)|, res := v.p.res))
  {
    hide FirstErr, Note;
  }

  /** Whatever the records say, a conforming answer is refused, or skipped as a whole. */
  lemma AnswerSkipped(pl0: seq<Trans>, maxRsp: nat, rsp: seq<Word>, p: Parse, a: Access, o: Outcome, tail: seq<Word>)
    requires ValidSize(a.kind, a.n) && Conforms(a, o)
    requires p.wi <= |rsp| && rsp[p.wi..] == RspWords(a, o) + tail && p.next != p.wi
    ensures p.wi < |rsp| && var v := Step(pl0, maxRsp, rsp, p);
      Refused(v) || (v.More? && v.p == p.(wi := p.wi + |RspWords(a, o)|, res := v.p.res))
  {
    hide RspWords, ReadStep, WriteStep, ToWords, IsReadCmd, IsWriteCmd, ValidSize, Conforms;
    AnswerHead(a, o);
    assert rsp[p.wi] == rsp[p.wi..][0] == RspWords(a, o)[0];
    if p.res.i < |pl0| {
      if a.kind.Read? {
        assert ValidSize(Read, a.n);
        ReadSkips(pl0[p.res.i], a, o, rsp[p.wi + 1..], p);
      } else {
        WriteSkips(pl0[p.res.i], a, o, p);
      }
    }
  }

  /** n words further on, with results r. */
  function After(p: Parse, n: nat, r: Result): Parse {
    p.(wi := p.wi + n, res := r)
  }

  /** So are all answers of a packet. */
  lemma {:induction false} AnswersSkipped(pl0: seq<Trans>, maxRsp: nat, rsp: seq<Word>, p: Parse,
                                          accs: seq<Access>, outs: seq<Outcome>, tail: seq<Word>)
    requires AllConform(accs, outs) && ValidSizes(accs)
    requires p.wi <= |rsp| && rsp[p.wi..] == AccsReply(accs, outs) + tail && p.next > p.wi + |AccsReply(accs, outs)|
    ensures Refused(ParseLoop(pl0, maxRsp, rsp, p)) || exists r: Result ::
      var q := After(p, |AccsReply(accs, outs)|, r);
      q.wi <= |rsp| && rsp[q.wi..] == tail && ParseLoop(pl0, maxRsp, rsp, p) == ParseLoop(pl0, maxRsp, rsp, q)
    decreases |accs|
  {
    hide Step, ParseLoop, RspWords, Conforms, ValidSize;
    if accs == [] {
      assert AccsReply(accs, outs) + tail == tail && After(p, 0, p.res) == p;
    } else {
      var a, o := accs[0], outs[0];
      var ws, rest := RspWords(a, o), AccsReply(accs[1..], outs[1..]) + tail;
      assert Conforms(a, o) && ValidSize(a.kind, a.n);
      assert rsp[p.wi..] == ws + rest;
      AnswerSkipped(pl0, maxRsp, rsp, p, a, o, rest);
      var v := Step(pl0, maxRsp, rsp, p);
      if Refused(v) {
        LoopEnd(pl0, maxRsp, rsp, p);
      } else {
        var q := v.p;
        LoopStep(pl0, maxRsp, rsp, p, q);
        assert rsp[q.wi..] == rsp[p.wi..][|ws|..] == rest;
        AnswersSkipped(pl0, maxRsp, rsp, q, accs[1..], outs[1..], tail);
        if !Refused(ParseLoop(pl0, maxRsp, rsp, q)) {
          var r: Result :| var q2 := After(q, |AccsReply(accs[1..], outs[1..])|, r);
            q2.wi <= |rsp| && rsp[q2.wi..] == tail && ParseLoop(pl0, maxRsp, rsp, q) == ParseLoop(pl0, maxRsp, rsp, q2);
          assert After(q, |AccsReply(accs[1..], outs[1..])|, r) == After(p, |AccsReply(accs, outs)|, r);
        }
      }
    }
  }

  lemma TooLong(pl0: seq<Trans>, maxRsp: nat, rsp: seq<Word>, p: Parse, n: nat)
    requires p.wi == p.next && p.wi < |rsp| && rsp[p.wi] == FromU32(4 * n) && maxRsp < 4 * n < TWO32
    ensures Refused(ParseLoop(pl0, maxRsp, rsp, p))
  {
    FromToU32(4 * n);
    hide FromU32, U32, EndStep, ReadStep, WriteStep;
    LoopEnd(pl0, maxRsp, rsp, p);
  }

  lemma WrongEnd(pl0: seq<Trans>, maxRsp: nat, rsp: seq<Word>, p: Parse, cnt: nat, tail: seq<Word>)
    requires p.wi != p.next && p.wi <= |rsp| && rsp[p.wi..] == [Words.Head(0, CMD_PL0_END, cnt)] + tail
    requires cnt < TWO16 && cnt != p.oldest
    ensures Refused(ParseLoop(pl0, maxRsp, rsp, p))
  {
    HeadField(0, CMD_PL0_END, cnt);
    assert rsp[p.wi] == rsp[p.wi..][0];
    hide StartStep, ReadStep, WriteStep, Field16;
    LoopEnd(pl0, maxRsp, rsp, p);
  }

  /** A packet's reply with another PL1 count than the awaited one is refused, whatever it answers. */
  lemma PacketRefused(pl0: seq<Trans>, maxRsp: nat, rsp: seq<Word>, p: Parse, pk: Packet, f: Frame, tail: seq<Word>)
    requires AllConform(Accesses(pk), f.outs) && ValidSizes(Accesses(pk))
    requires p.wi == p.next && p.wi <= |rsp| && rsp[p.wi..] == PacketReply(pk, f) + tail
    requires pk.cnt < TWO16 && pk.cnt != p.oldest && 4 * PacketReplyLen(pk, f) < TWO32
    ensures Refused(ParseLoop(pl0, maxRsp, rsp, p))
  {
    hide ParseLoop, AccsReply, Accesses, PacketReply, Conforms, ValidSizes, FromU32;
    var accs, n := Accesses(pk), PacketReplyLen(pk, f);
    var end := [Words.Head(0, CMD_PL0_END, pk.cnt)] + tail;
    PacketReplyIs(pk, f, tail);
    assert rsp[p.wi] == rsp[p.wi..][0] == FromU32(4 * n);
    if 4 * n > maxRsp {
      TooLong(pl0, maxRsp, rsp, p, n);
    } else {
      StartParsed(pl0, maxRsp, rsp, p, n, f, AccsReply(accs, f.outs) + end);
      var q := p.(wi := p.wi + 2, next := p.next + n, resets := p.resets + if f.reset then 1 else 0);
      AnswersSkipped(pl0, maxRsp, rsp, q, accs, f.outs, end);
      if !Refused(ParseLoop(pl0, maxRsp, rsp, q)) {
        var r: Result :| var q2 := After(q, |AccsReply(accs, f.outs)|, r);
          q2.wi <= |rsp| && rsp[q2.wi..] == end && ParseLoop(pl0, maxRsp, rsp, q) == ParseLoop(pl0, maxRsp, rsp, q2);
        WrongEnd(pl0, maxRsp, rsp, After(q, |AccsReply(accs, f.outs)|, r), pk.cnt, tail);
      }
    }
  }

  /** A conforming reply to another request is never accepted: if its first PL1 count is not the awaited
      one, it is refused as a connection error, whatever it answers and whatever the client asked for. */
  lemma OtherReplyRefused(cfg: Config, st: Enc, last: nat, resets: nat, heap: Heap, ps: seq<Packet>, fs: seq<Frame>)
    requires ps != [] && FramesConform(ps, fs) && ValidSizes(Accesses(ps[0]))
    requires ps[0].cnt < TWO16 && ps[0].cnt != NextCnt(last) && 4 * PacketReplyLen(ps[0], fs[0]) < TWO32
    ensures Refused(SetRsp(cfg, st, last, resets, heap, StreamReply(ps, fs)))
  {
    hide Accesses, PacketReply, ParseLoop, NextCnt, Conforms, ValidSizes, PacketReplyLen;
    var rsp := StreamReply(ps, fs);
    var p := Fresh0(st, last, resets, heap);
    assert AllConform(Accesses(ps[0]), fs[0].outs);
    assert rsp[0..] == PacketReply(ps[0], fs[0]) + StreamReply(ps[1..], fs[1..]);
    PacketRefused(st.pl0, cfg.maxRspSize, rsp, p, ps[0], fs[0], StreamReply(ps[1..], fs[1..]));
  }
}
