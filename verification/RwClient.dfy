/** The read/write client: transactions go through the handler, the mailbox and the server and back. */
module RwClient {
  import opened Option
  import opened Words
  import opened Errors
  import opened Protocol
  import opened Semantics
  import opened Encoder
  import opened Simulation
  import opened Request
  import opened Compiler
  import opened Limits
  import opened Reply
  import opened EndToEnd
  import opened Aggregate
  import Mailbox
  import opened Fill32
  import opened FillThrough
  import opened RwHandler
  import opened DeniedReply

  /** What a server makes of the packets it decodes: device memory afterwards, and its answers. */
  type Server = (Mem, seq<Packet>) -> (Mem, seq<PacketAnswer>)

  /** The server decodes what was sent, acts on it, and answers packet by packet. */
  function Answer(server: Server, m: Mem, rq: seq<Word>): (Mem, seq<Word>) {
    match ParseStream(rq)
    case None => (m, [])
    case Some(ps) =>
      var (m2, ans) := server(m, ps);
      (m2, if AnswersConform(ps, ans) then AnswerWords(ps, ans) else [])
  }

  /** The server's answers to ps conform to the protocol; any access may fail, any packet may be denied. */
  predicate Conforming(server: Server, m: Mem, ps: seq<Packet>) {
    AnswersConform(ps, server(m, ps).1)
  }

  /** The server executes every access of ps and fails none. */
  predicate Faultless(server: Server, m: Mem, ps: seq<Packet>) {
    PacketsDatasOk(ps) && server(m, ps) == (ServeStream(m, ps).0, AllAnswered(ServeStream(m, ps).1))
  }

  lemma {:induction false} ServeDone(m: Mem, accs: seq<Access>)
    requires DatasOk(accs)
    ensures AllDone(Serve(m, accs).1)
    decreases |accs|
  {
    hide Flash, Fetch;
    if accs != [] {
      ServeDone(Serve1(m, accs[0]).0, accs[1..]);
    }
  }

  lemma {:induction false} ServeStreamDone(m: Mem, ps: seq<Packet>)
    requires PacketsDatasOk(ps)
    ensures FramesDone(ServeStream(m, ps).1) && Resets(ServeStream(m, ps).1) == 0
    decreases |ps|
  {
    hide Accesses, Serve, DatasOk;
    if ps != [] {
      ServeDone(m, Accesses(ps[0]));
      ServeStreamDone(Serve(m, Accesses(ps[0])).0, ps[1..]);
    }
  }

  /** Does the request of st fit the request buffer, so that no block data is left out? */
  predicate FitsRq(cfg: Config, st: Enc) {
    RqSize(st) <= 4 * cfg.rqWiMax
  }

  lemma AnswerIs(server: Server, m: Mem, ps: seq<Packet>)
    requires ParseStream(StreamWords(ps)) == Some(ps) && Conforming(server, m, ps)
    ensures Answer(server, m, StreamWords(ps)) == (server(m, ps).0, AnswerWords(ps, server(m, ps).1))
  {}

  lemma ConformingIs(server: Server, m: Mem, ps: seq<Packet>)
    ensures Conforming(server, m, ps) <==> AnswersConform(ps, server(m, ps).1)
  {}

  /** What the server sends for an accepted request. */
  lemma Answering(cfg: Config, last: nat, ts: seq<Trans>, server: Server, m: Mem)
    requires Legal(cfg) && last < TWO16 && ValidAll(ts) && SetTrans(cfg, last, ts).ok
    requires Conforming(server, m, Packets(SetTrans(cfg, last, ts).st))
    ensures var ps := Packets(SetTrans(cfg, last, ts).st);
      && AnswersConform(ps, server(m, ps).1)
      && Answer(server, m, StreamWords(ps)) == (server(m, ps).0, AnswerWords(ps, server(m, ps).1))
  {
    hide *;
    var ps := Packets(SetTrans(cfg, last, ts).st);
    ConformingIs(server, m, ps);
    MappedMeant(ts);
    CompilePreserves(cfg, last, ts, MappedAll(ts));
    AnswerIs(server, m, ps);
  }

  lemma AnsweredConform(ps: seq<Packet>, fs: seq<Frame>)
    requires FramesConform(ps, fs)
    ensures AnswersConform(ps, AllAnswered(fs))
  {
    hide Accesses, Conforms;
  }

  lemma {:induction false} AnsweredWords(ps: seq<Packet>, fs: seq<Frame>)
    requires FramesConform(ps, fs) && AnswersConform(ps, AllAnswered(fs))
    ensures AnswerWords(ps, AllAnswered(fs)) == StreamReply(ps, fs)
  {
    hide Accesses, PacketReply, Conforms;
    if ps != [] {
      assert AllAnswered(fs)[1..] == AllAnswered(fs[1..]);
      AnsweredConform(ps[1..], fs[1..]);
      AnsweredWords(ps[1..], fs[1..]);
    }
  }

  /** A server that fails nothing: memory is as after the transactions, and every record is done. */
  lemma FaultlessCollected(cfg: Config, last: nat, ts: seq<Trans>, qs: seq<Trans>, server: Server, w: World)
    requires Legal(cfg) && last < TWO16 && ValidAll(ts) && SetTrans(cfg, last, ts).ok && FitsRq(cfg, SetTrans(cfg, last, ts).st)
    requires Meant(ts, qs)
    requires Faultless(server, w.mem, Packets(SetTrans(cfg, last, ts).st))
    ensures ValidDatas(qs) && AnswersConform(Packets(SetTrans(cfg, last, ts).st), server(w.mem, Packets(SetTrans(cfg, last, ts).st)).1)
    ensures var st := SetTrans(cfg, last, ts).st; var ps := Packets(st); var (m2, ans) := server(w.mem, ps);
      && 4 * |AnswerWords(ps, ans)| == RspSize(st) && |AllOuts(FramesBefore(ans))| == |st.pl0| && Reported(Collected(st, w.heap, ans), ans) == ERR_NONE
      && Collected(st, w.heap, ans).recs == AllFine(st.pl0)
      && World(m2, Collected(st, w.heap, ans).heap) == RunOps(w, OpsOf(qs))
  {
    var st := SetTrans(cfg, last, ts).st;
    var ps := Packets(st);
    assert RqSize(st) <= 4 * cfg.rqWiMax;
    var fs := ServeStream(w.mem, ps).1;
    assert PacketsDatasOk(ps) && server(w.mem, ps) == (ServeStream(w.mem, ps).0, AllAnswered(fs));
    hide *;
    RoundTrip(cfg, last, ts, qs, w, 0);
    CompilePreserves(cfg, last, ts, qs);
    AnsweredConform(ps, fs);
    AnsweredWords(ps, fs);
    ServeStreamDone(w.mem, ps);
    ReplyAccepted(cfg, last, ts, fs, 0, w.heap);
    NoneDenied(fs);
    AllCollected(st, last, 0, w.heap, AllAnswered(fs));
    FineRecords(st.pl0, Collected(st, w.heap, AllAnswered(fs)).recs);
  }

  lemma FineRecords(pl0: seq<Trans>, recs: seq<Rsp>)
    requires |recs| == |pl0| && forall k :: 0 <= k < |pl0| ==> recs[k] == Rsp(pl0[k].acc.n, NO_ERROR)
    ensures recs == AllFine(pl0)
  {}

  lemma {:induction false} AnswersJoined(ps: seq<Packet>, ans: seq<PacketAnswer>)
    requires AnswersConform(ps, ans)
    ensures Mailbox.Join(AnswerPackets(ps, ans)) == AnswerWords(ps, ans)
  {
    hide AnswerPacket, AnswerConforms;
    if ps != [] {
      RestConforms(ps, ans, 1);
      AnswersJoined(ps[1..], ans[1..]);
      assert AnswerPackets(ps, ans)[1..] == AnswerPackets(ps[1..], ans[1..]);
    }
  }

  /** The mailbox can frame every answer of a conforming server to an accepted request. */
  lemma AnswersFramed(ps: seq<Packet>, ans: seq<PacketAnswer>, limit: nat)
    requires AnswersConform(ps, ans) && SizesValid(ps) && limit < TWO32
    requires forall i :: 0 <= i < |ps| ==> PacketRsp(ps[i]) <= limit
    ensures Mailbox.AllFramed(AnswerPackets(ps, ans))
  {
    hide AnswerPacket, AnswerConforms, ValidSizes, Accesses, PacketRsp;
    forall i | 0 <= i < |ps| ensures Mailbox.Framed(AnswerPackets(ps, ans)[i]) {
      assert ValidSizes(Accesses(ps[i])) && AnswerConforms(ps[i], ans[i]) && PacketRsp(ps[i]) <= limit;
      AnswerSize(ps[i], ans[i]);
      FromToU32(4 * |AnswerPacket(ps[i], ans[i])|);
    }
  }

  lemma RequestFramed(cfg: Config, last: nat, ts: seq<Trans>, ans: seq<PacketAnswer>)
    requires Legal(cfg) && last < TWO16 && ValidAll(ts) && SetTrans(cfg, last, ts).ok
    requires AnswersConform(Packets(SetTrans(cfg, last, ts).st), ans)
    ensures var ps := Packets(SetTrans(cfg, last, ts).st);
      Mailbox.AllFramed(AnswerPackets(ps, ans)) && Mailbox.Join(AnswerPackets(ps, ans)) == AnswerWords(ps, ans)
  {
    hide *;
    var ps := Packets(SetTrans(cfg, last, ts).st);
    NoFrames(ps);
    RequestAnswerable(cfg, last, ts, Failing(ps));
    RspLimitSmall(cfg);
    forall i | 0 <= i < |ps| ensures PacketRsp(ps[i]) <= RspLimit(cfg) {
      AnyFills(ts);
      PacketSizes(cfg, last, true, ts, i);
    }
    AnswersFramed(ps, ans, RspLimit(cfg));
    AnswersJoined(ps, ans);
  }

  lemma NoFrames(ps: seq<Packet>)
    ensures FramesConform(ps, Failing(ps))
  {
    FailingConforms(ps, [], 0);
    assert ps[0..] == ps && [] + Failing(ps) == Failing(ps);
  }

  /** The mailbox cuts the request into its packets and reads one reply each; the replies are taken
      exactly if together they fit the receive buffer. */
  lemma Exchanged(cfg: Config, last: nat, ts: seq<Trans>, ans: seq<PacketAnswer>, max: nat)
    requires Legal(cfg) && last < TWO16 && ValidAll(ts) && SetTrans(cfg, last, ts).ok
    requires AnswersConform(Packets(SetTrans(cfg, last, ts).st), ans)
    ensures var ps := Packets(SetTrans(cfg, last, ts).st); var answer := AnswerWords(ps, ans);
      var r := Mailbox.RecvPkts(Mailbox.Recv(true, true, [] + answer, []), |ps|, max);
      if 4 * |answer| <= max then r == Mailbox.Recv(true, true, [], answer) else !r.ok && !r.up
  {
    hide *;
    var ps := Packets(SetTrans(cfg, last, ts).st);
    RequestFramed(cfg, last, ts, ans);
    Mailbox.RecvFramed(AnswerPackets(ps, ans), [], [], max);
    var answer := AnswerWords(ps, ans);
    assert answer + [] == [] + answer && [] + answer == answer;
  }

  // ---- One call of execute_trans, as a function ----

  /** last: PL1 count last used; up: connected; inbox: words sent by the server that are not read yet;
      resets: device resets counted. */
  datatype Session = Session(last: nat, up: bool, inbox: seq<Word>, resets: nat)

  /** recs: results of the PL0 accesses. */
  datatype Turn = Turn(err: nat, after: World, s: Session, recs: seq<Rsp>)

  /** late: how many words of the answer come only after the call has ended. max: the receive limit. */
  function TurnOf(cfg: Config, max: nat, s: Session, ts: seq<Trans>, server: Server, w: World, late: nat): Turn
    requires Legal(cfg)
  {
    var b := SetTrans(cfg, s.last, ts);
    if !b.ok then Turn(ERR_FN_PARAM, w, s.(last := b.st.last), NoRsps(|b.st.pl0|))
    else
      var s1 := s.(last := NextCnt(b.st.last));
      if !s.up then Turn(ERR_SERVER_CON, w, s1, NoRsps(|b.st.pl0|))
      else
        var ps := Packets(b.st);
        var a := Answer(server, w.mem, StreamWords(ps));
        var k := InTime(a.1, late);
        var r := Mailbox.Arrive(Mailbox.RecvPkts(Mailbox.Recv(true, true, s.inbox + a.1[..k], []), |ps|, max), a.1[k..]);
        Received(cfg, b.st, s.last, s1.(up := r.up, inbox := r.inbox), r, World(a.0, w.heap))
  }

  function InTime(words: seq<Word>, late: nat): (k: nat)
    ensures k <= |words|
  {
    if late <= |words| then |words| - late else 0
  }

  /** The end of the call: a time-out or a closed connection, or a reply to be parsed. */
  function Received(cfg: Config, st: Enc, last: nat, s: Session, r: Mailbox.Recv, w: World): Turn {
    if !r.ok then Turn(ERR_SERVER_CON, w, s, NoRsps(|st.pl0|))
    else
      var v := SetRsp(cfg, st, last, s.resets, w.heap, r.rsp);
      Turn(if v.Bad? then v.code else v.p.res.err, w.(heap := v.p.res.heap), s.(resets := v.p.resets), v.p.res.recs)
  }

  lemma AnyFills(ts: seq<Trans>)
    ensures FillsIn(ts, true)
  {}

  lemma RspLimitSmall(cfg: Config)
    requires Legal(cfg)
    ensures RspLimit(cfg) < TWO32
  {}

  /** The handler's records of the request st, with the results recs. */
  ghost predicate Holds(h: RwPacketHandler, st: Enc, recs: seq<Rsp>)
    reads h
  {
    && h.rwTrans == st.rw && h.pl0Trans == st.pl0 && h.pl0TransRsp == recs && h.rwTransRsp == NoRsps(|st.rw|)
    && h.pl1CntOutstandingLast == NextCnt(st.last)
  }

  /** A conforming answer in time: what execute_trans makes of it. */
  lemma TimelyTurn(cfg: Config, max: nat, s: Session, ts: seq<Trans>, server: Server, w: World)
    requires Legal(cfg) && s.last < TWO16 && ValidAll(ts) && SetTrans(cfg, s.last, ts).ok && s.up && s.inbox == []
    requires Conforming(server, w.mem, Packets(SetTrans(cfg, s.last, ts).st))
    ensures var st := SetTrans(cfg, s.last, ts).st; var ps := Packets(st); var (m2, ans) := server(w.mem, ps);
      && AnswersConform(ps, ans) && |AllOuts(FramesBefore(ans))| <= |st.pl0|
      && var t := TurnOf(cfg, max, s, ts, server, w, 0); var r := Collected(st, w.heap, ans);
      if 4 * |AnswerWords(ps, ans)| <= max then
        t == Turn(Reported(r, ans), World(m2, r.heap), Session(NextCnt(st.last), true, [], s.resets + Resets(FramesBefore(ans))), r.recs)
      else t.err == ERR_SERVER_CON && t.after == World(m2, w.heap) && !t.s.up
  {
    hide *;
    var st := SetTrans(cfg, s.last, ts).st;
    var ps := Packets(st);
    var (m2, ans) := server(w.mem, ps);
    Answering(cfg, s.last, ts, server, w.mem);
    AnswersTaken(cfg, s.last, ts, ans, s.resets, w.heap);
    Exchanged(cfg, s.last, ts, ans, max);
    var answer := AnswerWords(ps, ans);
    TurnParts(cfg, max, s, ts, server, w, 0);
    AllThere(answer);
    var r0 := Mailbox.RecvPkts(Mailbox.Recv(true, true, [] + answer, []), |ps|, max);
    ReceivedParts(cfg, st, s.last, s.(last := NextCnt(st.last), up := r0.up, inbox := r0.inbox + []), Mailbox.Arrive(r0, []), World(m2, w.heap));
    ArriveNone(r0);
  }

  lemma AllThere(words: seq<Word>)
    ensures InTime(words, 0) == |words| && words[..|words|] == words && words[|words|..] == []
  {}

  lemma ArriveNone(r: Mailbox.Recv)
    ensures Mailbox.Arrive(r, []) == r && r.inbox + [] == r.inbox
  {}

  lemma TurnParts(cfg: Config, max: nat, s: Session, ts: seq<Trans>, server: Server, w: World, late: nat)
    requires Legal(cfg) && SetTrans(cfg, s.last, ts).ok && s.up
    ensures var b := SetTrans(cfg, s.last, ts); var ps := Packets(b.st); var a := Answer(server, w.mem, StreamWords(ps));
      var k := InTime(a.1, late);
      var r0 := Mailbox.RecvPkts(Mailbox.Recv(true, true, s.inbox + a.1[..k], []), |ps|, max); var r := Mailbox.Arrive(r0, a.1[k..]);
      && r == Mailbox.Recv(r0.ok, r0.up, r0.inbox + a.1[k..], r0.rsp)
      && TurnOf(cfg, max, s, ts, server, w, late)
         == Received(cfg, b.st, s.last, s.(last := NextCnt(b.st.last), up := r.up, inbox := r.inbox), r, World(a.0, w.heap))
  {
    hide Answer, SetTrans, Received, Packets, StreamWords, Mailbox.RecvPkts, NextCnt, InTime, Legal;
  }

  lemma ReceivedParts(cfg: Config, st: Enc, last: nat, s: Session, r: Mailbox.Recv, w: World)
    ensures var t := Received(cfg, st, last, s, r, w); var v := SetRsp(cfg, st, last, s.resets, w.heap, r.rsp);
      && t.s == s.(resets := t.s.resets)
      && (!r.ok ==> t == Turn(ERR_SERVER_CON, w, s, NoRsps(|st.pl0|)))
      && (r.ok ==> t == Turn(if v.Bad? then v.code else v.p.res.err, World(w.mem, v.p.res.heap), s.(resets := v.p.resets), v.p.res.recs))
  {
    hide SetRsp;
  }

  class Client {
    const handler: RwPacketHandler
    const mailbox: Mailbox.SocketMailbox

    /** Between calls the connection is in step: nothing is left unread. */
    ghost predicate Ready()
      reads handler, mailbox
    {
      Legal(handler.cfg) && handler.pl1CntOutstandingLast < TWO16 && mailbox.connected && mailbox.inbox == []
    }

    constructor (h: RwPacketHandler, mb: Mailbox.SocketMailbox)
      ensures handler == h && mailbox == mb
    {
      handler, mailbox := h, mb;
    }

    function Now(): Session
      reads handler, mailbox
    {
      Session(handler.pl1CntOutstandingLast, mailbox.connected, mailbox.inbox, handler.deviceResetCount)
    }

    /** execute_trans with a server and device memory w.mem; w.heap is the client's own memory. late: how many
        words of the answer come after the call has ended.
        A refused list sends nothing. On a connection in step the answers of a conforming server are taken,
        whatever they are, denied packets included, and the connection stays in step; unless they are too long,
        which breaks it, although the device has acted on the request. A request that fits its buffer and of
        which nothing fails does exactly what the transactions ask for. qs: what they mean. */
    method ExecuteTrans(ts: seq<Trans>, ghost qs: seq<Trans>, server: Server, w: World, late: nat) returns (err: nat, after: World)
      requires Legal(handler.cfg) && handler.pl1CntOutstandingLast < TWO16 && ValidAll(ts) && Meant(ts, qs)
      modifies handler, mailbox
      ensures Turn(err, after, Now(), handler.pl0TransRsp) == TurnOf(handler.cfg, mailbox.maxNumBytesRsp, old(Now()), ts, server, w, late)
      ensures mailbox.maxNumBytesRsp == old(mailbox.maxNumBytesRsp) && handler.pl1CntOutstandingLast < TWO16
      ensures ValidDatas(qs)
      ensures var b := SetTrans(handler.cfg, old(handler.pl1CntOutstandingLast), ts);
        && (!b.ok ==> err == ERR_FN_PARAM && after == w && (old(Ready()) ==> Ready()) && mailbox.outbox == old(mailbox.outbox))
        && (b.ok && old(mailbox.connected) ==> mailbox.outbox == old(mailbox.outbox) + Mailbox.AllWords(Packets(b.st)))
      ensures var b := SetTrans(handler.cfg, old(handler.pl1CntOutstandingLast), ts);
        old(Ready()) && late == 0 && b.ok && Conforming(server, w.mem, Packets(b.st)) ==>
          var ps := Packets(b.st); var m2: Mem, ans: seq<PacketAnswer> := server(w.mem, ps).0, server(w.mem, ps).1;
          && AnswersConform(ps, ans) && |AllOuts(FramesBefore(ans))| <= |b.st.pl0|
          && if 4 * |AnswerWords(ps, ans)| <= mailbox.maxNumBytesRsp then
               var r := Collected(b.st, w.heap, ans);
               && err == Reported(r, ans) && ErrorTold(b.st.pl0, ans, err) && after == World(m2, r.heap) && Ready() && Holds(handler, b.st, r.recs)
               && handler.deviceResetCount == old(handler.deviceResetCount) + Resets(FramesBefore(ans))
             else err == ERR_SERVER_CON && after == w.(mem := m2) && !mailbox.connected
      ensures var b := SetTrans(handler.cfg, old(handler.pl1CntOutstandingLast), ts);
        old(Ready()) && late == 0 && b.ok && FitsRq(handler.cfg, b.st) && Faultless(server, w.mem, Packets(b.st)) ==>
          if RspSize(b.st) <= mailbox.maxNumBytesRsp then
            err == ERR_NONE && after == RunOps(w, OpsOf(qs)) && Ready() && Holds(handler, b.st, AllFine(b.st.pl0))
          else err == ERR_SERVER_CON && after == w.(mem := RunOps(w, OpsOf(qs)).mem) && !mailbox.connected
      ensures err == ERR_NONE ==> 0 < |ts| == |handler.rwTrans| == |handler.rwTransRsp| && |handler.pl0Trans| == |handler.pl0TransRsp|
    {
      hide SetTrans, RunOps, OpsOf, MappedAll, Meant, ErrorTold, Legal, ValidTrans, RspSize, RqSize, AllFine, AnswerWords, AnswersConform, Collected, Reported,
           Conforming, Faultless, FitsRq, AllOuts, Resets, FramesBefore, Mailbox.AllWords, Packets, NextCnt, ValidDatas, TurnOf, NoRsps;
      MappedValid(ts);
      MeantIs(ts, qs);
      ghost var cfg, s, max := handler.cfg, Now(), mailbox.maxNumBytesRsp;
      ghost var b := SetTrans(cfg, s.last, ts);
      if Ready() && b.ok && late == 0 {
        if FitsRq(cfg, b.st) && Faultless(server, w.mem, Packets(b.st)) {
          FaultlessCollected(cfg, s.last, ts, qs, server, w);
          ConformingIs(server, w.mem, Packets(b.st));
        }
        if Conforming(server, w.mem, Packets(b.st)) {
          TimelyTurn(cfg, max, s, ts, server, w);
          ReportedTold(b.st, w.heap, server(w.mem, Packets(b.st)).1);
        }
      }
      err, after := Transact(ts, server, w, late);
    }

    /** The call, on any connection. */
    method Transact(ts: seq<Trans>, server: Server, w: World, late: nat) returns (err: nat, after: World)
      requires Legal(handler.cfg) && handler.pl1CntOutstandingLast < TWO16 && ValidAll(ts)
      modifies handler, mailbox
      ensures Turn(err, after, Now(), handler.pl0TransRsp)
           == TurnOf(handler.cfg, mailbox.maxNumBytesRsp, old(Now()), ts, server, w, late)
      ensures mailbox.maxNumBytesRsp == old(mailbox.maxNumBytesRsp) && handler.pl1CntOutstandingLast < TWO16
      ensures var b := SetTrans(handler.cfg, old(handler.pl1CntOutstandingLast), ts);
        && (!b.ok ==> err == ERR_FN_PARAM && after == w && mailbox.outbox == old(mailbox.outbox)
                      && mailbox.connected == old(mailbox.connected) && mailbox.inbox == old(mailbox.inbox))
        && (b.ok && old(mailbox.connected) ==> mailbox.outbox == old(mailbox.outbox) + Mailbox.AllWords(Packets(b.st)))
        && (b.ok ==> Holds(handler, b.st, handler.pl0TransRsp))
        && (b.ok ==> 0 < |ts| == |handler.rwTrans| == |handler.rwTransRsp| && |handler.pl0Trans| == |handler.pl0TransRsp|)
    {
      hide SetTrans, Start, Answer, StreamWords, MappedAll, Legal, ValidTrans, SetRsp, RspSize, RqSize, InTime,
           Mailbox.Chained, Mailbox.CutPackets, Mailbox.AllWords, Mailbox.RecvPkts, Packets, NextCnt, NoRsps;
      LastBound(handler.cfg, handler.pl1CntOutstandingLast, ts);
      ghost var cfg, s := handler.cfg, Now();
      after := w;
      var ok := handler.SetTransactions(ts);
      if !ok {
        return ERR_FN_PARAM, after;
      }
      ghost var st := handler.enc;
      RwCount(cfg, s.last, ts);
      NoRspsLen(|st.pl0|);
      var rq, rqBytes, rspBytes, num := handler.GetRq();
      ClientSends(cfg, s.last, ts);
      var answer := (w.mem, []);
      if mailbox.connected {
        answer := Answer(server, w.mem, rq);
      }
      after := World(answer.0, w.heap);
      var rsp;
      var k := InTime(answer.1, late);
      ok, rsp := mailbox.Execute(rq, num, num, answer.1[..k], answer.1[k..]);
      if !ok {
        return ERR_SERVER_CON, after;
      }
      var heap;
      err, heap := handler.SetResponse(st, s.last, rsp, w.heap);
      after := World(answer.0, heap);
    }

    /** mExecuteSingleTrans: one transaction, with the number of bytes it moved, which is 0 if any access failed
        or any packet was denied. */
    method ExecuteSingleTrans(t: Trans, ghost q: Trans, server: Server, w: World) returns (err: nat, numBytesOk: nat, after: World)
      requires Ready() && ValidTrans(t) && Meant([t], [q])
      modifies handler, mailbox
      ensures err != ERR_NONE ==> numBytesOk == 0
      ensures var b := SetTrans(handler.cfg, old(handler.pl1CntOutstandingLast), [t]);
        b.ok && Answerable(server, w.mem, Packets(b.st), mailbox.maxNumBytesRsp) ==>
          var ans := server(w.mem, Packets(b.st)).1;
          && Ready() && (err == ERR_NONE <==> AllExecuted(ans))
          && |AllOuts(FramesBefore(ans))| <= |b.st.pl0| && ErrorTold(b.st.pl0, ans, err)
          && |b.st.rw| == |b.st.cuts| == 1
          && (err == ERR_NONE ==> |b.st.pl0| > 0 && numBytesOk == (if EndKept(b.st, 0) then t.acc.n else b.st.pl0[0].acc.n) % TWO16)
      ensures ValidData(q.acc.kind, q.acc.n, q.acc.data)
      ensures var b := SetTrans(handler.cfg, old(handler.pl1CntOutstandingLast), [t]);
        b.ok && FitsRq(handler.cfg, b.st) && RspSize(b.st) <= mailbox.maxNumBytesRsp && Faultless(server, w.mem, Packets(b.st)) ==>
          && err == ERR_NONE && Ready() && after == RunOps(w, Ops(q))
          && |b.st.rw| == |b.st.cuts| == 1 && (EndKept(b.st, 0) ==> numBytesOk == t.acc.n % TWO16)
    {
      hide SetTrans, RunOps, OpsOf, Ops, Legal, ValidTrans, RspSize, AllFine, NoRsps, TransRsp, EndKept, Packets, NextCnt, FitsRq, MappedAll, Meant, ErrorTold,
           ValidData, Mailbox.AllWords, Mapped, Collected, Reported, Conforming, Faultless, AnswerWords, AllOuts, AllDone, AllExecuted, Answerable,
           TurnOf;
      ghost var cfg, last := handler.cfg, handler.pl1CntOutstandingLast;
      ghost var b := SetTrans(cfg, last, [t]);
      SingleOps(t, q);
      if b.ok && FitsRq(cfg, b.st) && Faultless(server, w.mem, Packets(b.st)) {
        SingleFaultless(cfg, last, t, server, w, mailbox.maxNumBytesRsp);
      }
      if b.ok && Answerable(server, w.mem, Packets(b.st), mailbox.maxNumBytesRsp) {
        AnswerableIs(server, w.mem, Packets(b.st), mailbox.maxNumBytesRsp);
        SingleCollected(cfg, last, t, server(w.mem, Packets(b.st)).1, w.heap);
      }
      err, after := ExecuteTrans([t], [q], server, w, 0);
      if err != ERR_NONE {
        numBytesOk := 0;
        return;
      }
      var rsps := handler.GetTransRsp();
      numBytesOk := rsps[0].ok;
    }

    /** fill32 with a server that fails nothing. Wrong addresses and lengths are refused, and so is a fill
        that would reach the last word of the request buffer if its payload were sent in full. Every other
        one stores the word at every fourth address, touches nothing else, and leaves the connection in step. */
    method Fill(addr: nat, d: seq<byte>, numBytes: nat, am: nat, server: Server, w: World) returns (err: nat, after: World)
      requires Ready() && |d| == 4 && numBytes < TWO32 && addr + numBytes <= TWO64 && am < 256
      modifies handler, mailbox
      ensures addr % 4 != 0 || numBytes == 0 || numBytes % 4 != 0 ==>
        err == ERR_FN_PARAM && after == w && Ready() && mailbox.outbox == old(mailbox.outbox)
      ensures addr % 4 == 0 && numBytes != 0 && numBytes % 4 == 0 ==>
        var b := SetTrans(handler.cfg, old(handler.pl1CntOutstandingLast), FillList(addr, d, numBytes, am));
        && (!b.ok ==> err == ERR_FN_PARAM && after == w && Ready() && mailbox.outbox == old(mailbox.outbox))
        && (b.ok && FitsRq(handler.cfg, b.st) && RspSize(b.st) <= mailbox.maxNumBytesRsp && Faultless(server, w.mem, Packets(b.st)) ==>
            err == ERR_NONE && Ready() && after == w.(mem := StoreWords(w.mem, if am == 132 then 15 else am, addr, d, numBytes / 4)))
      ensures FillCall(handler.cfg, addr, numBytes, am) && numBytes / 64 + 48 <= mailbox.maxNumBytesRsp ==>
        var b := SetTrans(handler.cfg, old(handler.pl1CntOutstandingLast), FillList(addr, d, numBytes, am));
        if !FillRoom(handler.cfg, addr, numBytes, am) then err == ERR_FN_PARAM && after == w && Ready()
        else Faultless(server, w.mem, Packets(b.st)) ==>
          err == ERR_NONE && Ready() && after == w.(mem := StoreWords(w.mem, am, addr, d, numBytes / 4))
    {
      hide SetTrans, Meant, ErrorTold, RunOps, OpsOf, Legal, RspSize, FitsRq, StoreWords, Stores, FillsAligned, MappedAll, Packets, FillList, FillRoom, FillCall,
           Faultless, Conforming, Collected, Reported, Holds, ValidAll, ValidDatas, MapOf, AnswerWords, AllOuts, TurnOf;
      ghost var cfg, last := handler.cfg, handler.pl1CntOutstandingLast;
      FillOutcome(cfg, last, addr, d, numBytes, am);
      var ts;
      err, ts := Split(addr, d, numBytes, am);
      after := w;
      if err == ERR_NONE {
        MappedMeant(ts);
        StoresAll(ts, am, addr, d, numBytes / 4, w);
        err, after := ExecuteTrans(ts, MappedAll(ts), server, w, 0);
      }
    }
  }

  lemma StoresAll(ts: seq<Trans>, am: nat, addr: nat, d: seq<byte>, k: nat, w: World)
    requires Stores(ts, am, addr, d, k)
    ensures ValidAll(ts) && ValidDatas(MappedAll(ts))
    ensures RunOps(w, OpsOf(MappedAll(ts))) == w.(mem := StoreWords(w.mem, MapOf(am), addr, d, k))
  {
    hide RunOps, OpsOf, MappedAll, ValidAll, ValidDatas, StoreWords, MapOf;
  }

  /** Which lists of fill32 are accepted, and that they fit; map numbers below 12 are not aliases. */
  lemma FillOutcome(cfg: Config, last: nat, addr: nat, d: seq<byte>, numBytes: nat, am: nat)
    requires Legal(cfg) && |d| == 4
    ensures MapOf(am) == if am == 132 then 15 else am
    ensures FillCall(cfg, addr, numBytes, am) ==>
      var b := SetTrans(cfg, last, FillList(addr, d, numBytes, am));
      && addr % 4 == 0 && numBytes % 4 == 0 && numBytes > 0 && am < AM12
      && (b.ok <==> FillRoom(cfg, addr, numBytes, am))
      && (b.ok ==> FitsRq(cfg, b.st) && RspSize(b.st) <= numBytes / 64 + 48)
  {
    assert MapOf(am) == if am == 132 then 15 else am;
    hide SetTrans, FillList, FillRoom, Usable, RqSize, RspSize;
    if FillCall(cfg, addr, numBytes, am) {
      FillAccepted(cfg, last, addr, d, numBytes, am);
    }
  }

  /** No packet is denied and no access fails. */
  ghost predicate AllExecuted(ans: seq<PacketAnswer>) {
    |FramesBefore(ans)| == |ans| && AllDone(AllOuts(FramesBefore(ans)))
  }

  /** A conforming answer that fits the receive buffer. */
  predicate Answerable(server: Server, m: Mem, ps: seq<Packet>, max: nat) {
    Conforming(server, m, ps) && 4 * |AnswerWords(ps, server(m, ps).1)| <= max
  }

  lemma AnswerableIs(server: Server, m: Mem, ps: seq<Packet>, max: nat)
    requires Answerable(server, m, ps, max)
    ensures Conforming(server, m, ps) && AnswersConform(ps, server(m, ps).1) && 4 * |AnswerWords(ps, server(m, ps).1)| <= max
  {}

  /** No error is returned exactly if every packet was executed and every access done; then every record
      says so. */
  lemma CollectedExactly(st: Enc, heap: Heap, ans: seq<PacketAnswer>)
    requires |AllOuts(FramesBefore(ans))| <= |st.pl0|
    requires |FramesBefore(ans)| == |ans| ==> |AllOuts(FramesBefore(ans))| == |st.pl0|
    ensures var r := Collected(st, heap, ans);
      && |r.recs| == |st.pl0|
      && (Reported(r, ans) == ERR_NONE <==> AllExecuted(ans))
      && (Reported(r, ans) == ERR_NONE ==> r.recs == AllFine(st.pl0))
  {
    hide Absorb, AllOuts, FirstErr, RecOf, FramesBefore;
    var r0, outs := Result(0, NoRsps(|st.pl0|), heap, ERR_NONE), AllOuts(FramesBefore(ans));
    var pl0 := st.pl0[..|outs|];
    AbsorbRecords(r0, pl0, outs);
    AbsorbError(r0, pl0, outs);
    var k := FirstFailure(outs);
    if k == |outs| {
      NoFailure(outs);
      if |FramesBefore(ans)| == |ans| {
        assert pl0 == st.pl0;
        DoneRecords(st.pl0, outs, Collected(st, heap, ans).recs);
        FineRecords(st.pl0, Collected(st, heap, ans).recs);
      }
    } else {
      FirstErrSet(outs[k], pl0[k].acc.kind);
    }
  }

  lemma {:induction false} NoFailure(outs: seq<Outcome>)
    requires FirstFailure(outs) == |outs|
    ensures AllDone(outs)
  {
    if outs != [] {
      NoFailure(outs[1..]);
      assert forall k :: 0 < k < |outs| ==> outs[k] == outs[1..][k - 1];
    }
  }

  /** The one transaction of st, of n bytes, reports these, in 16 bits; or, if it was split and ends at 2^64, those of
      its first piece only. */
  predicate OneCount(st: Enc, recs: seq<Rsp>, n: nat) {
    && |st.rw| == |st.cuts| == 1 && |recs| == |st.pl0| > 0
    && TransRsp(st.rw, st.pl0, recs, NoRsps(1)) == [Rsp((if EndKept(st, 0) then n else st.pl0[0].acc.n) % TWO16, NO_ERROR)]
  }

  /** One transaction: its byte count, if no error was returned. */
  lemma SingleCollected(cfg: Config, last: nat, t: Trans, ans: seq<PacketAnswer>, heap: Heap)
    requires Legal(cfg) && last < TWO16 && ValidTrans(t) && SetTrans(cfg, last, [t]).ok
    requires AnswersConform(Packets(SetTrans(cfg, last, [t]).st), ans)
    ensures var st := SetTrans(cfg, last, [t]).st;
      && |AllOuts(FramesBefore(ans))| <= |st.pl0| && |st.rw| == |st.cuts| == 1
      && var r := Collected(st, heap, ans);
      && (Reported(r, ans) == ERR_NONE <==> AllExecuted(ans))
      && (Reported(r, ans) == ERR_NONE ==> OneCount(st, r.recs, t.acc.n))
  {
    assert ValidAll([t]) && [t][0] == t;
    hide *;
    var st := SetTrans(cfg, last, [t]).st;
    AnswersTaken(cfg, last, [t], ans, 0, heap);
    CollectedExactly(st, heap, ans);
    RwCount(cfg, last, [t]);
    SingleCount(cfg, last, t);
  }

  lemma SingleCount(cfg: Config, last: nat, t: Trans)
    requires Legal(cfg) && last < TWO16 && ValidTrans(t) && SetTrans(cfg, last, [t]).ok
    ensures var st := SetTrans(cfg, last, [t]).st; OneCount(st, AllFine(st.pl0), t.acc.n)
  {
    assert ValidAll([t]) && [t][0] == t;
    hide SetTrans, TransRsp, EndKept, Legal, ValidTrans, NoRsps, AllFine;
    NoRspsLen(1);
    OneNoRsp();
    FineAggregated(cfg, last, [t], NoRsps(1));
    WrappedAggregated(cfg, last, t, NO_RSP);
    var st := SetTrans(cfg, last, [t]).st;
    FineLen(st.pl0);
  }

  lemma OneNoRsp()
    ensures NoRsps(1) == [NO_RSP]
  {}

  lemma SingleFaultless(cfg: Config, last: nat, t: Trans, server: Server, w: World, max: nat)
    requires Legal(cfg) && last < TWO16 && ValidTrans(t)
    requires var b := SetTrans(cfg, last, [t]); b.ok && FitsRq(cfg, b.st) && Faultless(server, w.mem, Packets(b.st))
    ensures var st := SetTrans(cfg, last, [t]).st; RspSize(st) <= max ==> Answerable(server, w.mem, Packets(st), max)
  {
    assert ValidAll([t]);
    hide *;
    var ps := Packets(SetTrans(cfg, last, [t]).st);
    MappedMeant([t]);
    FaultlessCollected(cfg, last, [t], MappedAll([t]), server, w);
    ConformingIs(server, w.mem, ps);
    if RspSize(SetTrans(cfg, last, [t]).st) <= max {
      MadeAnswerable(server, w.mem, ps, max);
    }
  }

  lemma MadeAnswerable(server: Server, m: Mem, ps: seq<Packet>, max: nat)
    requires AnswersConform(ps, server(m, ps).1) && 4 * |AnswerWords(ps, server(m, ps).1)| <= max
    ensures Answerable(server, m, ps, max)
  {}

  lemma {:induction false} ApplyLast(cfg: Config, st: Enc, acts: seq<Act>)
    requires st.last < TWO16
    ensures Apply(cfg, st, acts).last < TWO16
    decreases |acts|
  {
    hide NeedRq, Sufficient;
    if acts != [] {
      ApplyLast(cfg, Do(cfg, st, acts[0]), acts[1..]);
    }
  }

  lemma {:induction false} AddAllLast(cfg: Config, st: Enc, ts: seq<Trans>)
    requires Legal(cfg) && Sane(st) && st.last < TWO16
    ensures AddAll(cfg, st, ts).st.last < TWO16
    decreases |ts|
  {
    hide Apply, Compile, Admitted, Sane, Legal;
    if ts != [] {
      TryAddSane(cfg, st, ts[0]);
      ApplyLast(cfg, st, Compile(cfg, st, ts[0]));
      if TryAdd(cfg, st, ts[0]).Some? {
        AddAllLast(cfg, TryAdd(cfg, st, ts[0]).value, ts[1..]);
      }
    }
  }

  /** The PL1 count stays in its 16 bits, also over refused lists. */
  lemma LastBound(cfg: Config, last: nat, ts: seq<Trans>)
    requires Legal(cfg) && last < TWO16
    ensures SetTrans(cfg, last, ts).st.last < TWO16 && NextCnt(SetTrans(cfg, last, ts).st.last) < TWO16
  {
    AddAllLast(cfg, Start(last), ts);
  }

  lemma SingleOps(t: Trans, q: Trans)
    requires ValidTrans(t) && Meant([t], [q])
    ensures ValidData(q.acc.kind, q.acc.n, q.acc.data) && ValidDatas([q]) && OpsOf([q]) == Ops(q)
  {
    assert [t][0] == t && [q][0] == q;
    OneOp(q);
  }

  lemma NoRspsLen(n: nat)
    ensures |NoRsps(n)| == n
  {}

  lemma RwCount(cfg: Config, last: nat, ts: seq<Trans>)
    requires Legal(cfg) && last < TWO16 && ValidAll(ts) && SetTrans(cfg, last, ts).ok
    ensures |SetTrans(cfg, last, ts).st.rw| == |ts| > 0
  {
    hide *;
    RequestAggregated(cfg, last, ts, NoRsps(|ts|));
  }

  /** Every accepted request can be cut into its packets, whatever its size. */
  lemma ClientSends(cfg: Config, last: nat, ts: seq<Trans>)
    requires Legal(cfg) && last < TWO16 && ValidAll(ts) && SetTrans(cfg, last, ts).ok
    ensures var ps := Packets(SetTrans(cfg, last, ts).st);
      Mailbox.Chained(StreamWords(ps), |ps|) && Mailbox.CutPackets(StreamWords(ps), |ps|) == Mailbox.AllWords(ps)
  {
    hide *;
    SetTransInv(cfg, last, true, ts) by { AnyFills(ts); }
    PacketsValid(cfg, last, true, SetTrans(cfg, last, ts).st);
    Mailbox.RequestPackets(Packets(SetTrans(cfg, last, ts).st));
  }
}
