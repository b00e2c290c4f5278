/** What a late reply does to the read/write client: later requests read packets that are not their own. */
module LateReply {
  import opened Words
  import opened Errors
  import opened Protocol
  import opened Semantics
  import opened Encoder
  import opened Simulation
  import opened Request
  import opened Compiler
  import opened Limits
  import opened Reply
  import opened ReplyParsing
  import opened EndToEnd
  import opened StaleReply
  import opened DeniedReply
  import opened RwClient
  import opened RequestRun
  import opened Mailbox

  /** A reply packet that is not read yet: the request packet it answers, which was number n of the run. */
  datatype Unread = Unread(n: nat, p: Packet, a: PacketAnswer)

  /** The PL1 count of packet number n of the run. */
  function Cnt(n: nat): nat {
    n % TWO16
  }

  ghost predicate UnreadOk(u: Unread) {
    && AnswerConforms(u.p, u.a) && ValidSizes(Accesses(u.p)) && PacketRsp(u.p) < TWO32 && u.p.cnt == Cnt(u.n)
  }

  function UnreadWords(u: Unread): seq<Word> {
    if AnswerConforms(u.p, u.a) then AnswerPacket(u.p, u.a) else []
  }

  function Pkts(us: seq<Unread>): (pkts: seq<seq<Word>>)
    ensures |pkts| == |us|
  {
    seq(|us|, i requires 0 <= i < |us| => UnreadWords(us[i]))
  }

  /** Reply packets in the order of the requests, of which total packets have been numbered. */
  ghost predicate Queue(us: seq<Unread>, total: nat) {
    && (forall i :: 0 <= i < |us| ==> UnreadOk(us[i]) && us[i].n <= total)
    && (forall i, j :: 0 <= i < j < |us| ==> us[i].n < us[j].n)
  }

  /** A connected client for which the packets us are unread. */
  ghost predicate Waiting(s: Session, us: seq<Unread>, total: nat) {
    s.up && Queue(us, total) && s.inbox == Join(Pkts(us)) && s.last == Cnt(total)
  }

  /** The replies to a request whose first packet is number total + 1. */
  function Own(ps: seq<Packet>, ans: seq<PacketAnswer>, total: nat): (us: seq<Unread>)
    requires |ans| == |ps|
    ensures |us| == |ps|
  {
    seq(|ps|, i requires 0 <= i < |ps| => Unread(total + 1 + i, ps[i], ans[i]))
  }

  lemma OwnQueue(us: seq<Unread>, total: nat, ps: seq<Packet>, ans: seq<PacketAnswer>)
    requires Queue(us, total) && AnswersConform(ps, ans) && SizesValid(ps) && Numbered(ps, Cnt(total))
    requires forall i :: 0 <= i < |ps| ==> PacketRsp(ps[i]) < TWO32
    ensures Queue(us + Own(ps, ans, total), total + |ps|)
  {
    hide AnswerConforms, ValidSizes, Accesses, PacketRsp;
    var own, all := Own(ps, ans, total), us + Own(ps, ans, total);
    forall i | 0 <= i < |own| ensures UnreadOk(own[i]) {
      assert AnswerConforms(ps[i], ans[i]) && ValidSizes(Accesses(ps[i])) && PacketRsp(ps[i]) < TWO32;
      assert ps[i].cnt == Further(Cnt(total), i + 1);
      FurtherOf(total, i + 1);
    }
    forall i | 0 <= i < |all| ensures UnreadOk(all[i]) && all[i].n <= total + |ps| {
      assert all[i] == if i < |us| then us[i] else own[i - |us|];
    }
  }

  lemma FurtherOf(total: nat, k: nat)
    ensures Further(Cnt(total), k) == Cnt(total + k)
  {}

  lemma DropQueue(us: seq<Unread>, total: nat, j: nat)
    requires Queue(us, total) && j <= |us|
    ensures Queue(us[j..], total)
  {
    hide UnreadOk;
  }

  /** Numbers grow by at least one a packet. */
  lemma {:induction false} NumbersGrow(us: seq<Unread>, total: nat, j: nat)
    requires Queue(us, total) && j < |us|
    ensures us[j].n >= us[0].n + j
    decreases j
  {
    hide UnreadOk;
    if j > 0 {
      NumbersGrow(us, total, j - 1);
    }
  }

  lemma QueueFramed(us: seq<Unread>, total: nat)
    requires Queue(us, total)
    ensures AllFramed(Pkts(us))
  {
    hide AnswerPacket, AnswerConforms, ValidSizes, Accesses, PacketRsp, Framed;
    forall i | 0 <= i < |us| ensures Framed(Pkts(us)[i]) {
      assert UnreadOk(us[i]);
      OneFramed(us[i]);
    }
  }

  lemma OneFramed(u: Unread)
    requires UnreadOk(u)
    ensures Framed(UnreadWords(u)) && UnreadWords(u)[0] == FromU32(4 * |UnreadWords(u)|) && 4 * |UnreadWords(u)| < TWO32
  {
    hide AnswerPacket, Accesses, ValidSizes;
    AnswerSize(u.p, u.a);
    FromToU32(4 * |AnswerPacket(u.p, u.a)|);
  }

  lemma OwnWords(us: seq<Unread>, total: nat, ps: seq<Packet>, ans: seq<PacketAnswer>)
    requires AnswersConform(ps, ans)
    ensures Pkts(us + Own(ps, ans, total)) == Pkts(us) + AnswerPackets(ps, ans)
    ensures Join(Pkts(us + Own(ps, ans, total))) == Join(Pkts(us)) + AnswerWords(ps, ans)
  {
    hide AnswerPacket, AnswerConforms;
    var own := Own(ps, ans, total);
    forall i | 0 <= i < |ps| ensures UnreadWords(own[i]) == AnswerPackets(ps, ans)[i] {
      assert AnswerConforms(ps[i], ans[i]);
    }
    assert Pkts(us + own) == Pkts(us) + AnswerPackets(ps, ans);
    JoinAppend(Pkts(us), AnswerPackets(ps, ans));
    AnswersJoined(ps, ans);
  }

  /** A reply that begins with another packet's is never taken for a good one. */
  lemma ForeignFirst(cfg: Config, st: Enc, last: nat, resets: nat, heap: Heap, u: Unread, tail: seq<Word>)
    requires Legal(cfg) && UnreadOk(u) && u.p.cnt != NextCnt(last)
    ensures var v := SetRsp(cfg, st, last, resets, heap, UnreadWords(u) + tail); v.Bad? && v.code != ERR_NONE
  {
    OneFramed(u);
    ThreeFit(cfg);
    SmallLimit(cfg);
    var rsp := UnreadWords(u) + tail;
    var p := Fresh0(st, last, resets, heap);
    var bad := |rsp| < 2 || 4 * |rsp| > RspSize(st);
    if bad {
      assert SetRsp(cfg, st, last, resets, heap, rsp) == Bad(p, ERR_SERVER_CON);
    } else {
      assert SetRsp(cfg, st, last, resets, heap, rsp) == ParseLoop(st.pl0, cfg.maxRspSize, rsp, p);
      ForeignParsed(st.pl0, cfg.maxRspSize, rsp, p, u, tail);
    }
  }

  lemma SmallLimit(cfg: Config)
    requires Legal(cfg)
    ensures cfg.maxRspSize < TWO32
  {}

  lemma ForeignParsed(pl0: seq<Trans>, maxRsp: nat, rsp: seq<Word>, p: Parse, u: Unread, tail: seq<Word>)
    requires UnreadOk(u) && u.p.cnt != p.oldest && 12 <= maxRsp < TWO32
    requires p.wi == p.next == 0 && rsp == UnreadWords(u) + tail
    ensures var v := ParseLoop(pl0, maxRsp, rsp, p); v.Bad? && v.code != ERR_NONE
  {
    hide ParseLoop, Accesses, AccsReply, PacketReply, Conforms, ValidSizes, FromU32;
    assert rsp[0..] == rsp;
    match u.a {
      case Answered(f) =>
        assert AllConform(Accesses(u.p), f.outs);
        ReplyShort(u.p, f);
        PacketRefused(pl0, maxRsp, rsp, p, u.p, f, tail);
      case Refusal(conId) =>
        var rest := [Words.Head(0, CMD_PL0_END, u.p.cnt)] + tail;
        assert rsp == DeniedStart(3, conId) + rest;
        DeniedStep(pl0, maxRsp, rsp, p, 3, conId, rest);
    }
  }

  lemma ReplyShort(p: Packet, f: Frame)
    requires AllConform(Accesses(p), f.outs) && ValidSizes(Accesses(p)) && PacketRsp(p) < TWO32
    ensures 4 * PacketReplyLen(p, f) < TWO32
  {
    hide Accesses, PacketReplyLen;
    PacketReplySize(p, f);
  }

  // ---- One call ----

  /** After a call that left the connection up: j of the packets all have been read, or were there to be read. */
  ghost predicate After(t: Turn, all: seq<Unread>, num: nat, j: nat) {
    && j <= num <= |all| && t.s.inbox == Join(Pkts(all[j..])) && (j < num ==> t.err == ERR_SERVER_CON)
  }

  lemma PktsDrop(all: seq<Unread>, j: nat)
    requires j <= |all|
    ensures Pkts(all)[..j] == Pkts(all[..j]) && Pkts(all)[j..] == Pkts(all[j..])
    ensures Join(Pkts(all)) == Join(Pkts(all[..j])) + Join(Pkts(all[j..]))
  {
    hide UnreadWords;
    assert Pkts(all) == Pkts(all)[..j] + Pkts(all)[j..];
    assert Pkts(all)[..j] == Pkts(all[..j]) && Pkts(all)[j..] == Pkts(all[j..]);
    JoinAppend(Pkts(all)[..j], Pkts(all)[j..]);
  }

  /** What is unread after num packets were to be read, when n words were there. */
  lemma LeftOver(all: seq<Unread>, n: nat, num: nat, max: nat)
    requires AllFramed(Pkts(all)) && n <= |Join(Pkts(all))| && num <= |all|
    ensures var words := Join(Pkts(all)); var r := RecvPkts(Recv(true, true, words[..n], []), num, max);
      r.up ==> exists j: nat :: Left(r, all, n, num, j)
  {
    hide RecvPkts, Taken, Framed;
    var words := Join(Pkts(all));
    var r := RecvPkts(Recv(true, true, words[..n], []), num, max);
    RecvAny(Pkts(all), n, [], num, max);
    if r.up {
      var j: nat :| Taken(r, Pkts(all), n, [], num, j);
      TakenLeft(r, all, n, num, j);
    }
  }

  ghost predicate Left(r: Recv, all: seq<Unread>, n: nat, num: nat, j: nat) {
    && j <= num && j <= |all| && n <= |Join(Pkts(all))| && |Join(Pkts(all[..j]))| <= n
    && r.inbox + Join(Pkts(all))[n..] == Join(Pkts(all[j..]))
    && (if r.ok then j == num && r.rsp == Join(Pkts(all[..j])) else j < num && |Join(Pkts(all[..j]))| == n)
  }

  lemma TakenLeft(r: Recv, all: seq<Unread>, n: nat, num: nat, j: nat)
    requires Taken(r, Pkts(all), n, [], num, j)
    ensures Left(r, all, n, num, j)
  {
    PktsDrop(all, j);
    hide Pkts, Join, RecvPkts;
    var a, b := Join(Pkts(all[..j])), Join(Pkts(all[j..]));
    SplitAt(a, b, n);
    assert [] + a == a;
  }

  lemma SplitAt(a: seq<Word>, b: seq<Word>, n: nat)
    requires |a| <= n <= |a + b|
    ensures (a + b)[|a|..n] + (a + b)[n..] == b
  {}

  /** The words of own that come in time, behind what was unread. */
  lemma InTimeWords(unread: seq<Word>, own: seq<Word>, k: nat)
    requires k <= |own|
    ensures unread + own[..k] == (unread + own)[..|unread| + k] && own[k..] == (unread + own)[|unread| + k..]
  {}

  /** What numbers and sizes the packets of an accepted request have. */
  lemma RequestNumbers(cfg: Config, last: nat, ts: seq<Trans>)
    requires Legal(cfg) && last < TWO16 && ValidAll(ts) && SetTrans(cfg, last, ts).ok
    ensures var st := SetTrans(cfg, last, ts).st; var ps := Packets(st);
      && ps != [] && SizesValid(ps) && Numbered(ps, last) && NextCnt(st.last) == Further(last, |ps|)
      && forall i :: 0 <= i < |ps| ==> PacketRsp(ps[i]) < TWO32
  {
    var ps := Packets(SetTrans(cfg, last, ts).st);
    assert ps != [];
    hide *;
    NoFrames(ps);
    RequestAnswerable(cfg, last, ts, Failing(ps));
    CountsUsed(cfg, last, ts);
    NextIs(cfg, last, ts);
    RspLimitSmall(cfg);
    AnyFills(ts);
    forall i | 0 <= i < |ps| ensures PacketRsp(ps[i]) < TWO32 {
      PacketSizes(cfg, last, true, ts, i);
    }
  }

  lemma InTimeAll(own: seq<Word>, late: nat)
    ensures late == 0 ==> InTime(own, late) == |own|
    ensures late > 0 && own != [] ==> InTime(own, late) < |own|
  {}

  lemma LeftParts(r: Recv, all: seq<Unread>, n: nat, num: nat, j: nat)
    requires Left(r, all, n, num, j)
    ensures j <= num && j <= |all| && n <= |Join(Pkts(all))| && r.inbox + Join(Pkts(all))[n..] == Join(Pkts(all[j..]))
    ensures if r.ok then j == num && r.rsp == Join(Pkts(all[..j])) else j < num
  {}

  lemma AfterIs(t: Turn, all: seq<Unread>, num: nat, j: nat)
    requires j <= num <= |all| && t.s.inbox == Join(Pkts(all[j..])) && (j < num ==> t.err == ERR_SERVER_CON)
    ensures After(t, all, num, j)
  {}

  lemma HasWords(us: seq<Unread>, total: nat)
    requires Queue(us, total) && us != []
    ensures Join(Pkts(us)) != [] && Join(Pkts(us)) == UnreadWords(us[0]) + Join(Pkts(us[1..]))
  {
    assert UnreadOk(us[0]);
    OneFramed(us[0]);
    hide UnreadOk, UnreadWords, Framed;
    assert |UnreadWords(us[0])| > 0 by { FramedLen(UnreadWords(us[0])); }
    assert Pkts(us)[1..] == Pkts(us[1..]);
  }

  lemma FramedLen(p: seq<Word>)
    requires Framed(p)
    ensures |p| > 0
  {}

  /** With every word there, the connection up means that all packets were read. */
  lemma NoneLeft(r: Recv, all: seq<Unread>, total: nat, num: nat, j: nat)
    requires Queue(all, total) && num <= |all| && Left(r, all, |Join(Pkts(all))|, num, j)
    ensures j == num
  {
    if j < num {
      PktsDrop(all, j);
      DropQueue(all, total, j);
      HasWords(all[j..], total);
    }
  }

  /** Without its last word, the last packet is not read. */
  lemma NotAll(r: Recv, all: seq<Unread>, n: nat, j: nat)
    requires n < |Join(Pkts(all))| && Left(r, all, n, |all|, j)
    ensures j < |all|
  {
    assert all[..|all|] == all;
  }

  lemma {:induction false} UpIfOk(r: Recv, num: nat, max: nat)
    requires r.up
    ensures RecvPkts(r, num, max).ok ==> RecvPkts(r, num, max).up
    decreases num
  {
    hide U32;
    if num > 0 && r.ok {
      UpAfter(r, max);
      if RecvPkt(r, max).up {
        UpIfOk(RecvPkt(r, max), num - 1, max);
      } else {
        StopsThere(RecvPkt(r, max), num - 1, max);
      }
    }
  }

  lemma UpAfter(r: Recv, max: nat)
    requires r.up
    ensures RecvPkt(r, max).ok ==> RecvPkt(r, max).up
  {}

  /** The reply read starts with the oldest unread packet. */
  lemma FirstForeign(cfg: Config, st: Enc, last: nat, resets: nat, heap: Heap, us: seq<Unread>, all: seq<Unread>, num: nat, total: nat)
    requires Legal(cfg) && us != [] && us <= all && 0 < num <= |all| && Queue(all, total) && us[0].p.cnt != NextCnt(last)
    ensures var v := SetRsp(cfg, st, last, resets, heap, Join(Pkts(all[..num]))); v.Bad? && v.code != ERR_NONE
  {
    hide UnreadOk, SetRsp, Legal, NextCnt, UnreadWords;
    var qs := all[..num];
    assert qs[0] == us[0];
    assert Queue(qs, total) && UnreadOk(us[0]);
    HasWords(qs, total);
    ForeignFirst(cfg, st, last, resets, heap, us[0], Join(Pkts(qs[1..])));
  }

  /** What a call leaves, when all are the packets unread before it and its own ones, num, behind them. */
  ghost predicate Leaves(t: Turn, us: seq<Unread>, all: seq<Unread>, num: nat, late: nat, next: nat) {
    && (t.s.up ==> exists j: nat :: After(t, all, num, j))
    && (t.s.up && late == 0 ==> num <= |all| && t.s.inbox == Join(Pkts(all[num..])))
    && (us != [] && us[0].p.cnt != next ==> t.err != ERR_NONE)
    && (us == [] && late > 0 ==> t.err == ERR_SERVER_CON && (t.s.up ==> exists j: nat :: j < num && After(t, all, num, j)))
  }

  /** The call as it ends: what was received, and the verdict on it. */
  ghost predicate Ended(t: Turn, r: Recv, v: Verdict, late: seq<Word>) {
    && t.s.up == r.up && t.s.inbox == r.inbox + late
    && t.err == if r.ok then (if v.Bad? then v.code else v.p.res.err) else ERR_SERVER_CON
  }

  lemma TurnLeaves(cfg: Config, st: Enc, s: Session, heap: Heap, us: seq<Unread>, all: seq<Unread>, total: nat, num: nat, n: nat,
                   max: nat, t: Turn, late: nat, r0: Recv)
    requires Legal(cfg) && Queue(all, total) && us <= all && 0 < num <= |all| && n <= |Join(Pkts(all))|
    requires late == 0 ==> n == |Join(Pkts(all))|
    requires us == [] && late > 0 ==> |all| == num && n < |Join(Pkts(all))|
    requires r0 == RecvPkts(Recv(true, true, Join(Pkts(all))[..n], []), num, max)
    requires Ended(t, r0, SetRsp(cfg, st, s.last, s.resets, heap, r0.rsp), Join(Pkts(all))[n..])
    ensures Leaves(t, us, all, num, late, NextCnt(s.last))
  {
    hide Queue, RecvPkts, Left, After, SetRsp, Legal, NextCnt, Pkts, Join, UnreadOk;
    UpIfOk(Recv(true, true, Join(Pkts(all))[..n], []), num, max);
    QueueFramed(all, total);
    LeftOver(all, n, num, max);
    if r0.up {
      var j: nat :| Left(r0, all, n, num, j);
      LeftParts(r0, all, n, num, j);
      AfterIs(t, all, num, j);
      if late == 0 {
        NoneLeft(r0, all, total, num, j);
      }
      if us != [] && us[0].p.cnt != NextCnt(s.last) {
        FirstForeign(cfg, st, s.last, s.resets, heap, us, all, num, total);
      }
      if us == [] && late > 0 {
        NotAll(r0, all, n, j);
      }
    }
  }

  lemma LastAfter(cfg: Config, last: nat, ts: seq<Trans>, total: nat)
    requires Legal(cfg) && last < TWO16 && ValidAll(ts) && SetTrans(cfg, last, ts).ok && last == Cnt(total)
    ensures var st := SetTrans(cfg, last, ts).st; NextCnt(st.last) == Cnt(total + |Packets(st)|)
  {
    hide *;
    RequestNumbers(cfg, last, ts);
    var n := |Packets(SetTrans(cfg, last, ts).st)|;
    FurtherOf(total, n);
    assert NextCnt(SetTrans(cfg, last, ts).st.last) == Further(last, n);
  }

  /** An accepted request on a connection on which us are unread. */
  lemma QueueTurn(cfg: Config, max: nat, s: Session, us: seq<Unread>, total: nat, ts: seq<Trans>, server: Server, w: World, late: nat)
    requires Legal(cfg) && ValidAll(ts) && Waiting(s, us, total) && SetTrans(cfg, s.last, ts).ok
    requires Conforming(server, w.mem, Packets(SetTrans(cfg, s.last, ts).st))
    ensures var ps := Packets(SetTrans(cfg, s.last, ts).st); var ans := server(w.mem, ps).1;
      && |ans| == |ps| > 0 && var all := us + Own(ps, ans, total); var t := TurnOf(cfg, max, s, ts, server, w, late);
      && Queue(all, total + |ps|) && t.s.last == Cnt(total + |ps|)
      && Leaves(t, us, all, |ps|, late, NextCnt(s.last))
  {
    hide *;
    var st := SetTrans(cfg, s.last, ts).st;
    var ps := Packets(st);
    WaitingParts(s, us, total);
    var ans := server(w.mem, ps).1;
    Answering(cfg, s.last, ts, server, w.mem);
    var own := AnswerWords(ps, ans);
    AnswerCount(ps, ans);
    RequestNumbers(cfg, s.last, ts);
    LastAfter(cfg, s.last, ts, total);
    OwnQueue(us, total, ps, ans);
    OwnWords(us, total, ps, ans);
    OwnWords([], total, ps, ans);
    var all := us + Own(ps, ans, total);
    var unread := Join(Pkts(us));
    var k := InTime(own, late);
    InTimeWords(unread, own, k);
    TurnParts(cfg, max, s, ts, server, w, late);
    var r0 := RecvPkts(Recv(true, true, unread + own[..k], []), |ps|, max);
    var r := Recv(r0.ok, r0.up, r0.inbox + own[k..], r0.rsp);
    var t := TurnOf(cfg, max, s, ts, server, w, late);
    ReceivedParts(cfg, st, s.last, s.(last := NextCnt(st.last), up := r.up, inbox := r.inbox), r, World(server(w.mem, ps).0, w.heap));
    assert t.s.last == NextCnt(st.last);
    InTimeAll(own, late);
    var words, n := Join(Pkts(all)), |unread| + k;
    assert words == unread + own && n <= |words|;
    assert Recv(true, true, words[..n], []) == Recv(true, true, unread + own[..k], []);
    assert t.s.up == r0.up && t.s.inbox == r0.inbox + words[n..];
    assert us <= all;
    if us == [] {
      NoneUnread();
      HasWords(all, total + |ps|);
      assert late > 0 ==> k < |own|;
    }
    EndedIs(t, r0, SetRsp(cfg, st, s.last, s.resets, w.heap, r0.rsp), words[n..]);
    TurnLeaves(cfg, st, s, w.heap, us, all, total + |ps|, |ps|, n, max, t, late, r0);
  }

  lemma EndedIs(t: Turn, r: Recv, v: Verdict, late: seq<Word>)
    requires t.s.up == r.up && t.s.inbox == r.inbox + late && (!r.ok ==> t.err == ERR_SERVER_CON)
    requires r.ok ==> t.err == if v.Bad? then v.code else v.p.res.err
    ensures Ended(t, r, v, late)
  {}

  lemma NoneUnread()
    ensures Join(Pkts([])) == []
  {}

  lemma WaitingParts(s: Session, us: seq<Unread>, total: nat)
    requires Waiting(s, us, total)
    ensures s.last < TWO16 && s.up && Queue(us, total) && s.inbox == Join(Pkts(us)) && s.last == Cnt(total)
  {}

  // ---- Runs ----

  /** A call: what is asked for, and how many words of the answer come only after it has ended. */
  datatype Event = Event(ts: seq<Trans>, late: nat)

  ghost predicate AllConforming(server: Server) {
    forall m: Mem, ps: seq<Packet> :: Conforming(server, m, ps)
  }

  /** Does every call of the run return an error? */
  ghost predicate AllFail(cfg: Config, max: nat, s: Session, es: seq<Event>, server: Server, w: World)
    requires Legal(cfg)
    decreases |es|
  {
    es == [] ||
    (var t := TurnOf(cfg, max, s, es[0].ts, server, w, es[0].late);
     t.err != ERR_NONE && AllFail(cfg, max, t.s, es[1..], server, t.after))
  }

  /** Counts a refused list leaves unused. */
  function Skipped(cfg: Config, last: nat, ts: seq<Trans>): nat
    requires Legal(cfg)
  {
    (SetTrans(cfg, last, ts).st.last + TWO16 - Cnt(last)) % TWO16
  }

  /** By how much the counts get ahead of the oldest unread packet at most: a refused list may skip counts, and
      a late answer leaves more unread. */
  function Ahead(cfg: Config, last: nat, es: seq<Event>): nat
    requires Legal(cfg)
    decreases |es|
  {
    if es == [] then 0
    else
      var b := SetTrans(cfg, last, es[0].ts);
      (if !b.ok then Skipped(cfg, last, es[0].ts) else if es[0].late > 0 then |Packets(b.st)| else 0)
      + Ahead(cfg, NextLast(cfg, last, es[0].ts), es[1..])
  }

  ghost predicate EventsValid(es: seq<Event>) {
    forall i :: 0 <= i < |es| ==> ValidAll(es[i].ts)
  }

  lemma EventsTail(es: seq<Event>)
    requires EventsValid(es) && es != []
    ensures ValidAll(es[0].ts) && EventsValid(es[1..])
  {
    hide ValidAll;
  }

  /** After a refused list, and on a closed connection. */
  lemma TurnRefused(cfg: Config, max: nat, s: Session, ts: seq<Trans>, server: Server, w: World, late: nat)
    requires Legal(cfg)
    ensures var b := SetTrans(cfg, s.last, ts); var t := TurnOf(cfg, max, s, ts, server, w, late);
      && t.s.last == NextLast(cfg, s.last, ts)
      && (!b.ok ==> t.err == ERR_FN_PARAM && t.s == s.(last := b.st.last) && t.after == w)
      && (b.ok && !s.up ==> t.err == ERR_SERVER_CON && !t.s.up)
  {
    hide SetTrans, Answer, Mailbox.RecvPkts, SetRsp, NextCnt, Packets, StreamWords;
  }

  lemma Codes()
    ensures ERR_FN_PARAM != ERR_NONE && ERR_SERVER_CON != ERR_NONE
  {}

  lemma {:induction false} DownFails(cfg: Config, max: nat, s: Session, es: seq<Event>, server: Server, w: World)
    requires Legal(cfg) && !s.up
    ensures AllFail(cfg, max, s, es, server, w)
    decreases |es|
  {
    hide TurnOf, SetTrans, Legal;
    if es != [] {
      TurnRefused(cfg, max, s, es[0].ts, server, w, es[0].late);
      var t := TurnOf(cfg, max, s, es[0].ts, server, w, es[0].late);
      DownFails(cfg, max, t.s, es[1..], server, t.after);
    }
  }

  lemma SkippedTo(cfg: Config, last: nat, ts: seq<Trans>, total: nat)
    requires Legal(cfg) && last == Cnt(total) && SetTrans(cfg, last, ts).st.last < TWO16
    ensures SetTrans(cfg, last, ts).st.last == Cnt(total + Skipped(cfg, last, ts))
  {
    hide SetTrans;
    ModStep(total, SetTrans(cfg, last, ts).st.last);
  }

  lemma ModStep(total: nat, to: nat)
    requires to < TWO16
    ensures Cnt(total + (to + TWO16 - Cnt(Cnt(total))) % TWO16) == to
  {
    var r, q := total % TWO16, total / TWO16;
    assert Cnt(Cnt(total)) == r && total == TWO16 * q + r;
    var k := (to + TWO16 - r) % TWO16;
    assert k == if to >= r then to - r else to + TWO16 - r;
    assert total + k == TWO16 * (if to >= r then q else q + 1) + to;
  }

  /** The oldest unread packet is not the next reply awaited, less than 2^16 counts ahead. */
  lemma OldCount(us: seq<Unread>, total: nat, last: nat)
    requires Queue(us, total) && us != [] && last == Cnt(total) && total + 1 - us[0].n < TWO16
    ensures us[0].p.cnt != NextCnt(last)
  {
    hide AnswerConforms, ValidSizes, Accesses, PacketRsp;
    assert UnreadOk(us[0]);
    CountsApart(us[0].n, total + 1);
    FurtherOf(total, 1);
  }

  lemma CountsApart(a: nat, b: nat)
    requires a < b < a + TWO16
    ensures Cnt(a) != Cnt(b)
  {
    var k := b / TWO16 - a / TWO16;
    assert Cnt(a) == Cnt(b) ==> b - a == TWO16 * k;
    assert k <= 0 || k >= 1;
  }

  /** A connected client with unread packets, the oldest of which has at least number n. */
  ghost predicate Behind(s: Session, us: seq<Unread>, total: nat, n: nat) {
    us != [] && Waiting(s, us, total) && us[0].n >= n
  }

  ghost predicate IsBehind(s: Session, total: nat, n: nat) {
    exists us: seq<Unread> :: Behind(s, us, total, n)
  }

  lemma BehindBy(s: Session, total: nat, n: nat) returns (us: seq<Unread>)
    requires IsBehind(s, total, n)
    ensures us != [] && Waiting(s, us, total) && us[0].n >= n
  {
    hide Waiting;
    us :| Behind(s, us, total, n);
  }

  /** The state after a call that read j packets. */
  lemma StillBehind(t: Turn, all: seq<Unread>, total: nat, num: nat, j: nat)
    requires Queue(all, total) && After(t, all, num, j) && j < |all| && t.s.up && t.s.last == Cnt(total)
    ensures Behind(t.s, all[j..], total, all[0].n + j)
  {
    hide UnreadOk, Pkts, Join;
    DropQueue(all, total, j);
    NumbersGrow(all, total, j);
  }

  /** An accepted request on a connection that is behind: an error, and it is still behind, or closed. */
  lemma BehindTurn(cfg: Config, max: nat, s: Session, us: seq<Unread>, total: nat, ts: seq<Trans>, server: Server, w: World, late: nat)
    requires Legal(cfg) && ValidAll(ts) && Waiting(s, us, total) && us != [] && SetTrans(cfg, s.last, ts).ok
    requires Conforming(server, w.mem, Packets(SetTrans(cfg, s.last, ts).st)) && total + 1 - us[0].n < TWO16
    ensures var num := |Packets(SetTrans(cfg, s.last, ts).st)|; var t := TurnOf(cfg, max, s, ts, server, w, late);
      && t.err != ERR_NONE
      && (t.s.up ==> IsBehind(t.s, total + num, us[0].n + if late > 0 then 0 else num))
  {
    hide *;
    var ps := Packets(SetTrans(cfg, s.last, ts).st);
    var t := TurnOf(cfg, max, s, ts, server, w, late);
    WaitingParts(s, us, total);
    OldCount(us, total, s.last);
    QueueTurn(cfg, max, s, us, total, ts, server, w, late);
    var all := us + Own(ps, server(w.mem, ps).1, total);
    assert all[0] == us[0];
    LeavesParts(t, us, all, |ps|, late, NextCnt(s.last));
    if t.s.up {
      if late == 0 {
        AfterIs(t, all, |ps|, |ps|);
        StillBehind(t, all, total + |ps|, |ps|, |ps|);
        BehindFrom(t.s, all[|ps|..], total + |ps|, all[0].n + |ps|, us[0].n + |ps|);
      } else {
        var j: nat :| After(t, all, |ps|, j);
        AfterParts(t, all, |ps|, j);
        StillBehind(t, all, total + |ps|, |ps|, j);
        BehindFrom(t.s, all[j..], total + |ps|, all[0].n + j, us[0].n);
      }
    }
  }

  lemma LeavesParts(t: Turn, us: seq<Unread>, all: seq<Unread>, num: nat, late: nat, next: nat)
    requires Leaves(t, us, all, num, late, next)
    ensures t.s.up ==> exists j: nat :: After(t, all, num, j)
    ensures t.s.up && late == 0 ==> num <= |all| && t.s.inbox == Join(Pkts(all[num..]))
    ensures us != [] && us[0].p.cnt != next ==> t.err != ERR_NONE
    ensures us == [] && late > 0 ==> t.err == ERR_SERVER_CON && (t.s.up ==> exists j: nat :: j < num && After(t, all, num, j))
  {}

  lemma AfterParts(t: Turn, all: seq<Unread>, num: nat, j: nat)
    requires After(t, all, num, j)
    ensures j <= num <= |all|
  {}

  /** A client that is behind stays behind: every further call fails, over every run, as long as the counts do
      not get 2^16 ahead of the oldest unread packet. */
  lemma {:induction false} NeverRecovers(cfg: Config, max: nat, s: Session, us: seq<Unread>, total: nat, es: seq<Event>, server: Server, w: World)
    requires Legal(cfg) && EventsValid(es) && AllConforming(server) && Waiting(s, us, total) && us != []
    requires total + 1 - us[0].n + Ahead(cfg, s.last, es) < TWO16
    ensures AllFail(cfg, max, s, es, server, w)
    decreases |es|
  {
    hide *;
    if es == [] {
      NoneFail(cfg, max, s, server, w);
    } else {
      var ts, late := es[0].ts, es[0].late;
      var t := TurnOf(cfg, max, s, ts, server, w, late);
      EventsTail(es);
      AheadIs(cfg, s.last, es);
      TurnRefused(cfg, max, s, ts, server, w, late);
      Codes();
      if !SetTrans(cfg, s.last, ts).ok {
        SkipsOn(cfg, s, us, total, ts);
        NeverRecovers(cfg, max, t.s, us, total + Skipped(cfg, s.last, ts), es[1..], server, w);
      } else {
        var num := |Packets(SetTrans(cfg, s.last, ts).st)|;
        ServerConforms(server, w.mem, Packets(SetTrans(cfg, s.last, ts).st));
        BehindTurn(cfg, max, s, us, total, ts, server, w, late);
        if t.s.up {
          var n := us[0].n + if late > 0 then 0 else num;
          var vs := BehindBy(t.s, total + num, n);
          NeverRecovers(cfg, max, t.s, vs, total + num, es[1..], server, t.after);
        } else {
          DownFails(cfg, max, t.s, es[1..], server, t.after);
        }
      }
      FailStep(cfg, max, s, es, server, w);
    }
  }

  lemma BehindFrom(s: Session, us: seq<Unread>, total: nat, n: nat, m: nat)
    requires Behind(s, us, total, n) && m <= n
    ensures IsBehind(s, total, m)
  {
    hide Waiting;
    assert Behind(s, us, total, m);
  }

  lemma BehindParts(s: Session, us: seq<Unread>, total: nat, n: nat)
    requires Behind(s, us, total, n)
    ensures us != [] && Waiting(s, us, total) && us[0].n >= n
  {}

  lemma NoneFail(cfg: Config, max: nat, s: Session, server: Server, w: World)
    requires Legal(cfg)
    ensures AllFail(cfg, max, s, [], server, w)
  {}

  lemma FailStep(cfg: Config, max: nat, s: Session, es: seq<Event>, server: Server, w: World)
    requires Legal(cfg) && es != []
    requires var t := TurnOf(cfg, max, s, es[0].ts, server, w, es[0].late);
      t.err != ERR_NONE && AllFail(cfg, max, t.s, es[1..], server, t.after)
    ensures AllFail(cfg, max, s, es, server, w)
  {
    hide TurnOf;
  }

  lemma AheadIs(cfg: Config, last: nat, es: seq<Event>)
    requires Legal(cfg) && es != []
    ensures var b := SetTrans(cfg, last, es[0].ts);
      Ahead(cfg, last, es) == (if !b.ok then Skipped(cfg, last, es[0].ts) else if es[0].late > 0 then |Packets(b.st)| else 0)
        + Ahead(cfg, NextLast(cfg, last, es[0].ts), es[1..])
  {
    hide SetTrans, Skipped, NextLast, Packets;
  }

  /** A refused list leaves the unread packets as they are. */
  lemma SkipsOn(cfg: Config, s: Session, us: seq<Unread>, total: nat, ts: seq<Trans>)
    requires Legal(cfg) && Waiting(s, us, total) && !SetTrans(cfg, s.last, ts).ok
    ensures Waiting(s.(last := SetTrans(cfg, s.last, ts).st.last), us, total + Skipped(cfg, s.last, ts))
  {
    hide SetTrans, Skipped, UnreadOk, Pkts, Join, Legal;
    LastBound(cfg, s.last, ts);
    SkippedTo(cfg, s.last, ts, total);
  }

  /** A client in step. */
  predicate InStep(s: Session) {
    s.last < TWO16 && s.up && s.inbox == []
  }

  lemma InStepWaits(s: Session)
    requires InStep(s)
    ensures Waiting(s, [], s.last)
  {}

  lemma ServerConforms(server: Server, m: Mem, ps: seq<Packet>)
    requires AllConforming(server)
    ensures Conforming(server, m, ps)
  {
    hide Conforming;
  }

  lemma InStepParts(s: Session)
    ensures InStep(s) <==> s.last < TWO16 && s.up && s.inbox == []
  {}

  lemma LeftBehind(t: Turn, all: seq<Unread>, total: nat, num: nat, j: nat, m: nat)
    requires Queue(all, total) && After(t, all, num, j) && j < |all| && t.s.up && t.s.last == Cnt(total) && m <= all[0].n
    ensures IsBehind(t.s, total, m) && !InStep(t.s)
  {
    hide *;
    StillBehind(t, all, total, num, j);
    BehindParts(t.s, all[j..], total, all[0].n + j);
    WaitingParts(t.s, all[j..], total);
    HasWords(all[j..], total);
    BehindFrom(t.s, all[j..], total, all[0].n + j, m);
    InStepParts(t.s);
  }

  /** An answer of which words come late, to a client in step. */
  lemma FirstLate(cfg: Config, max: nat, s: Session, ts: seq<Trans>, server: Server, w: World, late: nat)
    requires Legal(cfg) && ValidAll(ts) && InStep(s) && SetTrans(cfg, s.last, ts).ok && late > 0
    requires Conforming(server, w.mem, Packets(SetTrans(cfg, s.last, ts).st))
    ensures var num := |Packets(SetTrans(cfg, s.last, ts).st)|; var t := TurnOf(cfg, max, s, ts, server, w, late);
      && t.err == ERR_SERVER_CON && !InStep(t.s)
      && (t.s.up ==> IsBehind(t.s, s.last + num, s.last + 1))
  {
    hide *;
    var ps := Packets(SetTrans(cfg, s.last, ts).st);
    var t := TurnOf(cfg, max, s, ts, server, w, late);
    InStepWaits(s);
    QueueTurn(cfg, max, s, [], s.last, ts, server, w, late);
    var own := Own(ps, server(w.mem, ps).1, s.last);
    assert [] + own == own;
    LeavesParts(t, [], own, |ps|, late, NextCnt(s.last));
    InStepParts(t.s);
    if t.s.up {
      var j: nat :| j < |ps| && After(t, own, |ps|, j);
      OwnNumber(ps, server(w.mem, ps).1, s.last);
      LeftBehind(t, own, s.last + |ps|, |ps|, j, s.last + 1);
    }
  }

  lemma OwnNumber(ps: seq<Packet>, ans: seq<PacketAnswer>, total: nat)
    requires |ans| == |ps| > 0
    ensures Own(ps, ans, total)[0].n == total + 1
  {}

  lemma LateTail(cfg: Config, max: nat, s: Session, e: Event, es: seq<Event>, server: Server, w: World)
    requires Legal(cfg) && ValidAll(e.ts) && EventsValid(es) && AllConforming(server) && InStep(s) && SetTrans(cfg, s.last, e.ts).ok
    requires |Packets(SetTrans(cfg, s.last, e.ts).st)| + Ahead(cfg, NextLast(cfg, s.last, e.ts), es) < TWO16 && e.late > 0
    ensures AllFail(cfg, max, s, [e] + es, server, w)
  {
    hide *;
    var num := |Packets(SetTrans(cfg, s.last, e.ts).st)|;
    var t := TurnOf(cfg, max, s, e.ts, server, w, e.late);
    ServerConforms(server, w.mem, Packets(SetTrans(cfg, s.last, e.ts).st));
    FirstLate(cfg, max, s, e.ts, server, w, e.late);
    TurnRefused(cfg, max, s, e.ts, server, w, e.late);
    Codes();
    var all := [e] + es;
    assert all[0] == e && all[1..] == es;
    if t.s.up {
      var vs := BehindBy(t.s, s.last + num, s.last + 1);
      NeverRecovers(cfg, max, t.s, vs, s.last + num, es, server, t.after);
    } else {
      DownFails(cfg, max, t.s, es, server, t.after);
    }
    FailStep(cfg, max, s, all, server, w);
  }

  /** The first late answer: its call fails, and so does every call after it, in every run in which the counts do
      not get 2^16 ahead. If nothing is late, the client stays in step. */
  lemma LateExactly(cfg: Config, max: nat, s: Session, e: Event, es: seq<Event>, server: Server, w: World)
    requires Legal(cfg) && ValidAll(e.ts) && EventsValid(es) && AllConforming(server) && InStep(s) && SetTrans(cfg, s.last, e.ts).ok
    requires |Packets(SetTrans(cfg, s.last, e.ts).st)| + Ahead(cfg, NextLast(cfg, s.last, e.ts), es) < TWO16
    requires 4 * |Answer(server, w.mem, StreamWords(Packets(SetTrans(cfg, s.last, e.ts).st))).1| <= max
    ensures InStep(TurnOf(cfg, max, s, e.ts, server, w, e.late).s) <==> e.late == 0
    ensures e.late > 0 ==> AllFail(cfg, max, s, [e] + es, server, w)
  {
    hide *;
    var ps := Packets(SetTrans(cfg, s.last, e.ts).st);
    ServerConforms(server, w.mem, ps);
    if e.late == 0 {
      InStepParts(s);
      TimelyTurn(cfg, max, s, e.ts, server, w);
      Answering(cfg, s.last, e.ts, server, w.mem);
      CntBound(SetTrans(cfg, s.last, e.ts).st.last);
      InStepParts(TurnOf(cfg, max, s, e.ts, server, w, 0).s);
    } else {
      FirstLate(cfg, max, s, e.ts, server, w, e.late);
      LateTail(cfg, max, s, e, es, server, w);
    }
  }
}
