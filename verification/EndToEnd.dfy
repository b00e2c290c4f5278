/** Main results about replies: sizes, error replies, and the whole round trip through memory. */
module EndToEnd {
  import opened Words
  import opened Errors
  import opened Protocol
  import opened Semantics
  import opened Encoder
  import opened Simulation
  import opened Invariant
  import opened Request
  import opened Compiler
  import opened Limits
  import opened Reply
  import opened ReplyParsing

  // ---- Reply sizes ----

  lemma RspWordsLen(a: Access, o: Outcome)
    requires ValidSize(a.kind, a.n) && Conforms(a, o)
    ensures 4 * |RspWords(a, o)| <= RspBytes(a.kind, a.n)
    ensures o.Done? ==> 4 * |RspWords(a, o)| == RspBytes(a.kind, a.n)
  {}

  lemma {:induction false} AccsRspCons(accs: seq<Access>)
    requires accs != []
    ensures AccsRsp(accs) == RspBytes(accs[0].kind, accs[0].n) + AccsRsp(accs[1..])
  {
    hide RspBytes;
    if |accs| == 1 {
      assert accs[..0] == [] && accs[1..] == [];
    } else {
      var front := accs[..|accs| - 1];
      AccsRspCons(front);
      assert front[1..] == accs[1..][..|accs| - 2];
    }
  }

  ghost predicate AllDone(outs: seq<Outcome>) {
    forall k :: 0 <= k < |outs| ==> outs[k].Done?
  }

  ghost predicate ValidSizes(accs: seq<Access>) {
    forall k :: 0 <= k < |accs| ==> ValidSize(accs[k].kind, accs[k].n)
  }

  lemma {:induction false} AccsReplyLen(accs: seq<Access>, outs: seq<Outcome>)
    requires AllConform(accs, outs) && ValidSizes(accs)
    ensures 4 * |AccsReply(accs, outs)| <= AccsRsp(accs)
    ensures AllDone(outs) ==> 4 * |AccsReply(accs, outs)| == AccsRsp(accs)
    decreases |accs|
  {
    hide RspWords, RspBytes, Conforms, ValidSize;
    if accs != [] {
      assert Conforms(accs[0], outs[0]) && ValidSize(accs[0].kind, accs[0].n);
      RspWordsLen(accs[0], outs[0]);
      AccsRspCons(accs);
      AccsReplyLen(accs[1..], outs[1..]);
    }
  }

  lemma PacketReplySize(p: Packet, f: Frame)
    requires AllConform(Accesses(p), f.outs) && ValidSizes(Accesses(p))
    ensures 4 * PacketReplyLen(p, f) <= PacketRsp(p)
    ensures AllDone(f.outs) ==> 4 * PacketReplyLen(p, f) == PacketRsp(p)
  {
    hide Accesses, AccsReply, AccsRsp;
    AccsReplyLen(Accesses(p), f.outs);
  }

  lemma {:induction false} StreamRspCons(ps: seq<Packet>)
    requires ps != []
    ensures StreamRsp(ps) == PacketRsp(ps[0]) + StreamRsp(ps[1..])
  {
    hide PacketRsp;
    if |ps| == 1 {
      assert ps[..0] == [] && ps[1..] == [];
    } else {
      var front := ps[..|ps| - 1];
      StreamRspCons(front);
      assert front[1..] == ps[1..][..|ps| - 2];
    }
  }

  ghost predicate SizesValid(ps: seq<Packet>) {
    forall i :: 0 <= i < |ps| ==> ValidSizes(Accesses(ps[i]))
  }

  ghost predicate FramesDone(fs: seq<Frame>) {
    forall i :: 0 <= i < |fs| ==> AllDone(fs[i].outs)
  }

  lemma {:induction false} StreamReplySize(ps: seq<Packet>, fs: seq<Frame>)
    requires FramesConform(ps, fs) && SizesValid(ps)
    ensures 4 * |StreamReply(ps, fs)| <= StreamRsp(ps)
    ensures FramesDone(fs) ==> 4 * |StreamReply(ps, fs)| == StreamRsp(ps)
  {
    hide Accesses, PacketReply, PacketRsp, Conforms, ValidSize;
    if ps != [] {
      assert AllConform(Accesses(ps[0]), fs[0].outs) && ValidSizes(Accesses(ps[0]));
      PacketReplySize(ps[0], fs[0]);
      PacketReplyIs(ps[0], fs[0], []);
      StreamRspCons(ps);
      StreamReplySize(ps[1..], fs[1..]);
    }
  }

  // ---- Packets of a built request, as the reply side needs them ----

  lemma RecordsDescribe(cfg: Config, st: Enc)
    requires DecoderOk(st) && RecordsOk(cfg, st)
    ensures Describe(st.pl0, 0, StreamAccesses(Packets(st)))
  {
    hide ValidSize, StreamAccesses, ExecCmds;
    PacketsAccesses(st);
    forall k | 0 <= k < |st.wire| ensures st.pl0[0 + k].acc.kind == st.wire[k].kind && st.pl0[0 + k].acc.n == st.wire[k].n
      && ValidSize(st.wire[k].kind, st.wire[k].n)
    {
      assert SentAs(cfg, st, k) && ValidPiece(st.pl0[k]);
    }
  }

  lemma {:induction false} PacketSizesValid(pl0: seq<Trans>, lo: nat, ps: seq<Packet>)
    requires Describe(pl0, lo, StreamAccesses(ps))
    ensures SizesValid(ps)
    decreases |ps|
  {
    hide Accesses, ValidSize;
    if ps != [] {
      DescribeSplit(pl0, lo, Accesses(ps[0]), StreamAccesses(ps[1..]));
      PacketSizesValid(pl0, lo + |Accesses(ps[0])|, ps[1..]);
      assert forall i :: 0 < i < |ps| ==> ps[i] == ps[1..][i - 1];
    }
  }

  lemma PacketsInStep(cnt0: nat, st: Enc)
    requires CountsOk(cnt0, st) && cnt0 < TWO16
    ensures CountsInStep(Packets(st)) && Packets(st)[0].cnt == NextCnt(cnt0)
    ensures Packets(st)[|st.closed|].cnt == NextCnt(st.last)
  {
    var ps := Packets(st);
    assert cnt0 % TWO16 == cnt0;
    hide NextCnt;
    forall i | 0 <= i < |ps| ensures ps[i].cnt == NextCnt((cnt0 + i) % TWO16) {
      NextMod(cnt0 + i);
      if i < |st.closed| {
        assert ps[i] == st.closed[i];
      }
    }
    forall i | 0 < i < |ps| ensures ps[i].cnt == NextCnt(ps[i - 1].cnt) {
      NextMod(cnt0 + (i - 1));
    }
  }

  /** Everything the parser relies on holds of an accepted request and any conforming reply to it. */
  lemma RequestAnswerable(cfg: Config, last: nat, ts: seq<Trans>, fs: seq<Frame>)
    requires Legal(cfg) && last < TWO16 && ValidAll(ts) && SetTrans(cfg, last, ts).ok
    requires FramesConform(Packets(SetTrans(cfg, last, ts).st), fs)
    ensures var st := SetTrans(cfg, last, ts).st; var ps := Packets(st);
      && Describe(st.pl0, 0, StreamAccesses(ps)) && |st.pl0| == |StreamAccesses(ps)|
      && Accesses(ps[|ps| - 1]) != [] && CountsInStep(ps) && ps[0].cnt == NextCnt(last)
      && ps[|ps| - 1].cnt == NextCnt(st.last)
      && RepliesFit(ps, fs, RspLimit(cfg)) && SizesValid(ps) && StreamRsp(ps) == RspSize(st)
  {
    var st := SetTrans(cfg, last, ts).st;
    var ps := Packets(st);
    SetTransInv(cfg, last, true, ts);
    InvParts(cfg, last, st);
    MappedMeant(ts);
    CompilePreserves(cfg, last, ts, MappedAll(ts));
    FramesDisciplined(cfg, last, ts, 0);
    assert FillsIn(ts, true);
    PacketSizes(cfg, last, true, ts, 0);
    hide SetTrans, Inv, BoundOk, GroupsOk, ParseStream, Describe, OpsOf, StreamAccesses, Accesses, RspLimit, CountsOk, FramesOk, ReplyOk, SizesOk, GoodFrame, Conforms, Legal, ValidTrans;
    PacketsCount(st);
    RecordsDescribe(cfg, st);
    PacketSizesValid(st.pl0, 0, ps);
    PacketsInStep(last, st);
    assert ps[|ps| - 1] == ps[|st.closed|];
    forall i | 0 <= i < |ps| ensures 4 * PacketReplyLen(ps[i], fs[i]) <= RspLimit(cfg) {
      assert AllConform(Accesses(ps[i]), fs[i].outs) && ValidSizes(Accesses(ps[i]));
      PacketReplySize(ps[i], fs[i]);
      PacketSizes(cfg, last, true, ts, i);
    }
  }

  // ---- Results of parsing ----

  /** The handler before a reply: no record done, PL1 count after the last request's. */
  function Fresh0(st: Enc, last: nat, resets: nat, heap: Heap): Parse {
    Parse(0, 0, NextCnt(last), resets, Result(0, NoRsps(|st.pl0|), heap, ERR_NONE))
  }

  /** rw_set_rsp on the request st, which was built when the PL1 count was last. */
  function SetRsp(cfg: Config, st: Enc, last: nat, resets: nat, heap: Heap, rsp: seq<Word>): Verdict {
    var p := Fresh0(st, last, resets, heap);
    if |rsp| < 2 || 4 * |rsp| > RspSize(st) then Bad(p, ERR_SERVER_CON)
    else ParseLoop(st.pl0, cfg.maxRspSize, rsp, p)
  }

  lemma SetRspParsed(cfg: Config, st: Enc, last: nat, resets: nat, heap: Heap, ps: seq<Packet>, fs: seq<Frame>)
    requires ps != [] && FramesConform(ps, fs) && RepliesFit(ps, fs, cfg.maxRspSize) && cfg.maxRspSize < TWO32
    requires Describe(st.pl0, 0, StreamAccesses(ps)) && |st.pl0| == |StreamAccesses(ps)|
    requires Accesses(ps[|ps| - 1]) != [] && CountsInStep(ps) && ps[0].cnt == NextCnt(last)
    requires 4 * |StreamReply(ps, fs)| <= RspSize(st)
    ensures |AllOuts(fs)| == |st.pl0|
    ensures var rsp := StreamReply(ps, fs);
      SetRsp(cfg, st, last, resets, heap, rsp) ==
      End(Parse(|rsp|, |rsp|, ps[|ps| - 1].cnt, resets + Resets(fs),
                Absorb(Fresh0(st, last, resets, heap).res, st.pl0, AllOuts(fs))))
  {
    hide Describe, Accesses, ParseLoop, PacketReply, Absorb, Resets, AllOuts, Conforms, CountsInStep, NextCnt, RspSize, StreamAccesses, PacketReplyLen, StreamReply;
    var rsp := StreamReply(ps, fs);
    var p := Fresh0(st, last, resets, heap);
    CntBound(last);
    assert rsp[p.wi..] == rsp && st.pl0[p.res.i..] == st.pl0;
    StreamParsed(st.pl0, cfg.maxRspSize, rsp, p, ps, fs);
    ReplyNotShort(ps, fs);
  }

  lemma FitsBuffer(cfg: Config, ps: seq<Packet>, fs: seq<Frame>)
    requires Legal(cfg) && FramesConform(ps, fs) && RepliesFit(ps, fs, RspLimit(cfg))
    ensures RepliesFit(ps, fs, cfg.maxRspSize) && cfg.maxRspSize < TWO32
  {
    hide PacketReplyLen, Accesses;
  }

  /** Replies stay in sync, with any mix of failing accesses: every conforming reply is no longer than
      predicted (exactly as long if nothing fails), is consumed exactly, and gives each PL0 record its
      own answer; the PL1 count awaited moves to the last one sent. */
  lemma ReplyAccepted(cfg: Config, last: nat, ts: seq<Trans>, fs: seq<Frame>, resets: nat, heap: Heap)
    requires Legal(cfg) && last < TWO16 && ValidAll(ts) && SetTrans(cfg, last, ts).ok
    requires FramesConform(Packets(SetTrans(cfg, last, ts).st), fs)
    ensures var st := SetTrans(cfg, last, ts).st; var rsp := StreamReply(Packets(st), fs);
      && 4 * |rsp| <= RspSize(st) && (FramesDone(fs) ==> 4 * |rsp| == RspSize(st))
      && |AllOuts(fs)| == |st.pl0|
      && SetRsp(cfg, st, last, resets, heap, rsp) ==
         End(Parse(|rsp|, |rsp|, NextCnt(st.last), resets + Resets(fs),
                   Absorb(Fresh0(st, last, resets, heap).res, st.pl0, AllOuts(fs))))
  {
    hide *;
    var st := SetTrans(cfg, last, ts).st;
    var ps := Packets(st);
    RequestAnswerable(cfg, last, ts, fs);
    FitsBuffer(cfg, ps, fs);
    StreamReplySize(ps, fs);
    assert ps != [] by { PacketsCount(st); }
    SetRspParsed(cfg, st, last, resets, heap, ps, fs);
  }

  lemma CntBound(c: nat)
    ensures NextCnt(c) < TWO16
  {}

  lemma ReplyNotShort(ps: seq<Packet>, fs: seq<Frame>)
    requires ps != [] && FramesConform(ps, fs)
    ensures |StreamReply(ps, fs)| >= 2
  {
    assert AllConform(Accesses(ps[0]), fs[0].outs);
    hide Accesses, AccsReply;
    PacketReplyIs(ps[0], fs[0], []);
  }

  /** Each record holds its own answer; the API error is that of the first failing access. */
  lemma {:induction false} AbsorbRecords(r: Result, ts: seq<Trans>, outs: seq<Outcome>)
    requires |ts| == |outs| && r.i + |ts| <= |r.recs|
    ensures var s := Absorb(r, ts, outs);
      && |s.recs| == |r.recs|
      && (forall k :: 0 <= k < r.i ==> s.recs[k] == r.recs[k])
      && (forall k :: 0 <= k < |ts| ==> s.recs[r.i + k] == RecOf(ts[k], outs[k]))
    decreases |ts|
  {
    hide FirstErr, Put, RecOf;
    if ts != [] {
      var r1 := Absorb1(r, ts[0], outs[0]);
      AbsorbRecords(r1, ts[1..], outs[1..]);
      forall k | 0 <= k < |ts| ensures Absorb(r, ts, outs).recs[r.i + k] == RecOf(ts[k], outs[k]) {
        if k > 0 {
          assert ts[k] == ts[1..][k - 1] && outs[k] == outs[1..][k - 1];
          assert r.i + k == r1.i + (k - 1);
        }
      }
    }
  }

  /** The first failing access, or the number of accesses. */
  function FirstFailure(outs: seq<Outcome>): nat {
    if outs == [] || outs[0].Failed? then 0 else 1 + FirstFailure(outs[1..])
  }

  /** What the API error err says about the answers outs: nothing if all accesses were done; else, for the first
      one that failed, whether the device is locked or cannot be accessed, or what kind of access it was. */
  ghost predicate FirstTold(ts: seq<Trans>, outs: seq<Outcome>, err: nat)
    requires |ts| == |outs|
  {
    && ((forall j :: 0 <= j < |outs| ==> outs[j].Done?) ==> err == 0)
    && forall k :: 0 <= k < |outs| && outs[k].Failed? && (forall j :: 0 <= j < k ==> outs[j].Done?) ==>
      err == if outs[k].err == 0x46 then 0x0410 else if outs[k].err == 0x48 then 0x0400
             else if ts[k].acc.kind.Read? then 0x0600 else 0x0610
  }

  lemma {:induction false} AbsorbError(r: Result, ts: seq<Trans>, outs: seq<Outcome>)
    requires |ts| == |outs|
    ensures FirstFailure(outs) <= |outs|
    ensures var k := FirstFailure(outs); var s := Absorb(r, ts, outs);
      && (r.err != ERR_NONE ==> s.err == r.err)
      && (r.err == ERR_NONE ==> if k == |outs| then s.err == ERR_NONE
          else outs[k].Failed? && s.err == FirstErr(ERR_NONE, outs[k].err, ts[k].acc.kind))
      && (r.err == ERR_NONE ==> FirstTold(ts, outs, s.err))
    decreases |ts|
  {
    if ts != [] {
      AbsorbError(Absorb1(r, ts[0], outs[0]), ts[1..], outs[1..]);
      FirstErrSet(outs[0], ts[0].acc.kind);
      if r.err == ERR_NONE {
        ToldMore(ts, outs, Absorb(r, ts, outs).err);
      }
    }
  }

  /** The first answer fails, or the others decide. */
  lemma ToldMore(ts: seq<Trans>, outs: seq<Outcome>, err: nat)
    requires |ts| == |outs| > 0
    requires if outs[0].Done? then FirstTold(ts[1..], outs[1..], err) else err == FirstErr(ERR_NONE, outs[0].err, ts[0].acc.kind)
    ensures FirstTold(ts, outs, err)
  {
    if outs[0].Done? {
      assert forall j :: 0 <= j < |outs| - 1 ==> outs[1..][j] == outs[j + 1] && ts[1..][j] == ts[j + 1];
      forall k | 0 <= k < |outs| && outs[k].Failed? && forall j :: 0 <= j < k ==> outs[j].Done?
        ensures err == if outs[k].err == 0x46 then 0x0410 else if outs[k].err == 0x48 then 0x0400
                       else if ts[k].acc.kind.Read? then 0x0600 else 0x0610
      {
        assert outs[1..][k - 1] == outs[k];
        assert forall j :: 0 <= j < k - 1 ==> outs[1..][j] == outs[j + 1];
      }
      if forall j :: 0 <= j < |outs| ==> outs[j].Done? {
        assert forall j :: 0 <= j < |outs| - 1 ==> outs[1..][j].Done?;
      }
    }
  }

  /** The error a reply leads to, whatever fails, in the API's own codes. */
  lemma ReplyTold(cfg: Config, last: nat, ts: seq<Trans>, fs: seq<Frame>, resets: nat, heap: Heap)
    requires Legal(cfg) && last < TWO16 && ValidAll(ts) && SetTrans(cfg, last, ts).ok
    requires FramesConform(Packets(SetTrans(cfg, last, ts).st), fs)
    ensures var st := SetTrans(cfg, last, ts).st; var v := SetRsp(cfg, st, last, resets, heap, StreamReply(Packets(st), fs));
      v.End? && |AllOuts(fs)| == |st.pl0| && FirstTold(st.pl0, AllOuts(fs), v.p.res.err)
  {
    hide *;
    var st := SetTrans(cfg, last, ts).st;
    ReplyAccepted(cfg, last, ts, fs, resets, heap);
    FreshIs(st, last, resets, World(map[], heap));
    AbsorbError(Fresh0(st, last, resets, heap).res, st.pl0, AllOuts(fs));
  }

  lemma FirstErrSet(o: Outcome, k: Kind)
    ensures o.Failed? ==> FirstErr(ERR_NONE, o.err, if k.Read? then Read else Write) == FirstErr(ERR_NONE, o.err, k) != ERR_NONE
  {}

  // ---- Executing the request ----

  function Fetch(m: Mem, am: nat, addr: nat, n: nat): (d: seq<byte>)
    ensures |d| == n
  {
    seq<byte>(n, i requires 0 <= i => Peek(m, Loc(am, addr + i)))
  }

  function Flash(m: Mem, am: nat, addr: nat, d: seq<byte>): Mem
    decreases |d|
  {
    if d == [] then m else Flash(m[Loc(am, addr) := d[0]], am, addr + 1, d[1..])
  }

  /** The device memory after an access, and what is answered. */
  function Serve1(m: Mem, a: Access): (Mem, Outcome)
    requires ValidData(a.kind, a.n, a.data)
  {
    match a.kind
    case Read => (m, Done(Fetch(m, a.am, a.addr, a.n)))
    case Write => (Flash(m, a.am, a.addr, a.data), Done([]))
    case Fill => (Flash(m, a.am, a.addr, seq(a.n, i requires 0 <= i => a.data[i % 8])), Done([]))
  }

  predicate DatasOk(accs: seq<Access>) {
    forall k :: 0 <= k < |accs| ==> ValidData(accs[k].kind, accs[k].n, accs[k].data)
  }

  /** A device that executes accesses in order and fails none. */
  function Serve(m: Mem, accs: seq<Access>): (r: (Mem, seq<Outcome>))
    requires DatasOk(accs)
    ensures |r.1| == |accs|
    decreases |accs|
  {
    if accs == [] then (m, [])
    else
      var (m1, o) := Serve1(m, accs[0]);
      var (m2, os) := Serve(m1, accs[1..]);
      (m2, [o] + os)
  }

  lemma {:induction false} RunLoads(w: World, ops: seq<Op>, am: nat, mode: nat, addr: nat, ptr: nat)
    requires forall i :: 0 <= i < |ops| ==> ops[i] == Load(am, mode, addr + i, ptr + i)
    ensures RunOps(w, ops) == w.(heap := Put(w.heap, ptr, Fetch(w.mem, am, addr, |ops|)))
    decreases |ops|
  {
    if ops != [] {
      var d := Fetch(w.mem, am, addr, |ops|);
      assert forall i :: 0 <= i < |ops[1..]| ==> ops[1..][i] == ops[i + 1];
      RunLoads(RunOp(w, ops[0]), ops[1..], am, mode, addr + 1, ptr + 1);
      assert d[1..] == Fetch(w.mem, am, addr + 1, |ops| - 1);
    }
  }

  lemma {:induction false} RunStores(w: World, ops: seq<Op>, am: nat, mode: nat, addr: nat, d: seq<byte>)
    requires |ops| == |d| && forall i :: 0 <= i < |ops| ==> ops[i] == Store(am, mode, addr + i, d[i])
    ensures RunOps(w, ops) == w.(mem := Flash(w.mem, am, addr, d))
    decreases |ops|
  {
    if ops != [] {
      assert forall i :: 0 <= i < |ops[1..]| ==> ops[1..][i] == ops[i + 1];
      RunStores(RunOp(w, ops[0]), ops[1..], am, mode, addr + 1, d[1..]);
    }
  }

  /** Serving one access and delivering its answer is running its byte operations. */
  lemma ServeIsRun(w: World, t: Trans)
    requires ValidData(t.acc.kind, t.acc.n, t.acc.data)
    ensures var (m, o) := Serve1(w.mem, t.acc);
      RunOps(w, Ops(t)) == World(m, if t.acc.kind.Read? then Put(w.heap, t.ptr, o.data) else w.heap)
  {
    var a := t.acc;
    match a.kind
    case Read => RunLoads(w, Ops(t), a.am, a.mode, a.addr, t.ptr);
    case Write => RunStores(w, Ops(t), a.am, a.mode, a.addr, a.data);
    case Fill => RunStores(w, Ops(t), a.am, a.mode, a.addr, seq(a.n, i requires 0 <= i => a.data[i % 8]));
  }

  lemma {:induction false} ServeAbsorbed(m: Mem, r: Result, ts: seq<Trans>)
    requires ValidDatas(ts)
    ensures DatasOk(Accs(ts))
    ensures var (m2, outs) := Serve(m, Accs(ts));
      AllConform(Accs(ts), outs) && AllDone(outs)
      && RunOps(World(m, r.heap), OpsOf(ts)) == World(m2, Absorb(r, ts, outs).heap)
    decreases |ts|
  {
    hide Flash, Fetch, Put, FirstErr;
    if ts == [] {
    } else {
      var t, w := ts[0], World(m, r.heap);
      var (m1, o) := Serve1(m, t.acc);
      var r1 := Absorb1(r, t, o);
      assert Accs(ts)[1..] == Accs(ts[1..]);
      ServeIsRun(w, t);
      assert Conforms(t.acc, o) && o.Done?;
      ServeAbsorbed(m1, r1, ts[1..]);
      RunConcat(w, Ops(t), OpsOf(ts[1..]));
    }
  }

  lemma {:induction false} ServeAppend(m: Mem, a: seq<Access>, b: seq<Access>)
    requires DatasOk(a) && DatasOk(b)
    ensures DatasOk(a + b)
    ensures var (m1, oa) := Serve(m, a); var (m2, ob) := Serve(m1, b); Serve(m, a + b) == (m2, oa + ob)
    decreases |a|
  {
    hide Serve1, ValidData;
    if a == [] {
      assert a + b == b && [] + Serve(m, b).1 == Serve(m, b).1;
    } else {
      var m1 := Serve1(m, a[0]).0;
      var oa := Serve(m1, a[1..]).1;
      var ob := Serve(Serve(m1, a[1..]).0, b).1;
      ServeAppend(m1, a[1..], b);
      assert (a + b)[0] == a[0] && (a + b)[1..] == a[1..] + b;
      assert [Serve1(m, a[0]).1] + (oa + ob) == ([Serve1(m, a[0]).1] + oa) + ob;
    }
  }

  predicate PacketsDatasOk(ps: seq<Packet>) {
    forall i :: 0 <= i < |ps| ==> DatasOk(Accesses(ps[i]))
  }

  /** The server: executes the decoded packets in order and answers each with a frame. */
  function ServeStream(m: Mem, ps: seq<Packet>): (r: (Mem, seq<Frame>))
    requires PacketsDatasOk(ps)
    ensures |r.1| == |ps|
    decreases |ps|
  {
    if ps == [] then (m, [])
    else
      var (m1, outs) := Serve(m, Accesses(ps[0]));
      var (m2, fs) := ServeStream(m1, ps[1..]);
      (m2, [Frame(false, 0, outs)] + fs)
  }

  lemma {:induction false} ServeConforms(m: Mem, accs: seq<Access>)
    requires DatasOk(accs)
    ensures AllConform(accs, Serve(m, accs).1)
    decreases |accs|
  {
    if accs != [] {
      ServeConforms(Serve1(m, accs[0]).0, accs[1..]);
    }
  }

  lemma {:induction false} ServeStreamIs(m: Mem, ps: seq<Packet>)
    requires PacketsDatasOk(ps)
    ensures FramesConform(ps, ServeStream(m, ps).1)
    ensures DatasOk(StreamAccesses(ps))
    ensures Serve(m, StreamAccesses(ps)) == (ServeStream(m, ps).0, AllOuts(ServeStream(m, ps).1))
    decreases |ps|
  {
    hide Accesses, Serve1, ValidData, Conforms;
    if ps != [] {
      var (m1, outs) := Serve(m, Accesses(ps[0]));
      ServeConforms(m, Accesses(ps[0]));
      ServeStreamIs(m1, ps[1..]);
      ServeAppend(m, Accesses(ps[0]), StreamAccesses(ps[1..]));
      assert ServeStream(m, ps).1[0].outs == outs;
    }
  }

  lemma {:induction false} PacketDatas(ps: seq<Packet>)
    requires DatasOk(StreamAccesses(ps))
    ensures PacketsDatasOk(ps)
  {
    hide Accesses, ValidData;
    if ps != [] {
      var a, b := Accesses(ps[0]), StreamAccesses(ps[1..]);
      assert StreamAccesses(ps) == a + b;
      forall k | 0 <= k < |a| ensures ValidData(a[k].kind, a[k].n, a[k].data) {
        assert (a + b)[k] == a[k];
      }
      forall k | 0 <= k < |b| ensures ValidData(b[k].kind, b[k].n, b[k].data) {
        assert (a + b)[|a| + k] == b[k];
      }
      PacketDatas(ps[1..]);
      assert forall i :: 0 < i < |ps| ==> ps[i] == ps[1..][i - 1];
    }
  }

  lemma RecordDatas(ts: seq<Trans>)
    requires ValidDatas(ts)
    ensures DatasOk(Accs(ts))
  {}

  /** End to end: for every accepted transaction list whose request fits the buffer, the server decodes
      the words sent, executes the commands and answers; the client accepts the answer without error,
      has every PL0 record fully done, and device and client memory are as if the transactions had been
      run directly, byte by byte. */
  lemma RoundTrip(cfg: Config, last: nat, ts: seq<Trans>, qs: seq<Trans>, w: World, resets: nat)
    requires Legal(cfg) && last < TWO16 && ValidAll(ts) && SetTrans(cfg, last, ts).ok && Meant(ts, qs)
    requires RqSize(SetTrans(cfg, last, ts).st) <= 4 * cfg.rqWiMax
    ensures ValidDatas(qs)
    ensures var st := SetTrans(cfg, last, ts).st;
      var decoded := ParseStream(StreamWords(Packets(st)));
      && decoded.Some? && PacketsDatasOk(decoded.value)
      && var (mem, fs) := ServeStream(w.mem, decoded.value);
      && FramesConform(decoded.value, fs)
      && var v := SetRsp(cfg, st, last, resets, w.heap, StreamReply(decoded.value, fs));
      && v.End? && v.p.res.err == ERR_NONE
      && |v.p.res.recs| == |st.pl0|
      && (forall k :: 0 <= k < |st.pl0| ==> v.p.res.recs[k] == Rsp(st.pl0[k].acc.n, NO_ERROR))
      && World(mem, v.p.res.heap) == RunOps(w, OpsOf(qs))
  {
    hide *;
    var st := SetTrans(cfg, last, ts).st;
    var ps := Packets(st);
    CompilePreserves(cfg, last, ts, qs);
    RecordDatas(st.pl0);
    PacketDatas(ps);
    ServeStreamIs(w.mem, ps);
    var fs := ServeStream(w.mem, ps).1;
    ReplyAccepted(cfg, last, ts, fs, resets, w.heap);
    var r := Fresh0(st, last, resets, w.heap).res;
    FreshIs(st, last, resets, w);
    ServeAbsorbed(w.mem, r, st.pl0);
    var outs := AllOuts(fs);
    AbsorbRecords(r, st.pl0, outs);
    AbsorbError(r, st.pl0, outs);
    DoneFirst(outs);
    DoneRecords(st.pl0, outs, Absorb(r, st.pl0, outs).recs);
  }

  lemma FreshIs(st: Enc, last: nat, resets: nat, w: World)
    ensures var r := Fresh0(st, last, resets, w.heap).res;
      r.i == 0 && |r.recs| == |st.pl0| && r.heap == w.heap && r.err == ERR_NONE && World(w.mem, r.heap) == w
  {}

  lemma {:induction false} DoneFirst(outs: seq<Outcome>)
    requires AllDone(outs)
    ensures FirstFailure(outs) == |outs|
  {
    if outs != [] {
      DoneFirst(outs[1..]);
    }
  }

  lemma DoneRecords(ts: seq<Trans>, outs: seq<Outcome>, recs: seq<Rsp>)
    requires |ts| == |outs| == |recs| && AllDone(outs)
    requires forall k :: 0 <= k < |ts| ==> recs[0 + k] == RecOf(ts[k], outs[k])
    ensures forall k :: 0 <= k < |ts| ==> recs[k] == Rsp(ts[k].acc.n, NO_ERROR)
  {
    forall k | 0 <= k < |ts| ensures recs[k] == Rsp(ts[k].acc.n, NO_ERROR) {
      assert recs[0 + k] == RecOf(ts[k], outs[k]);
    }
  }
}
