/** Runs of requests on one handler: PL1 counts stay in step, and late replies are told apart. */
module RequestRun {
  import opened Words
  import opened Protocol
  import opened Semantics
  import opened Encoder
  import opened Simulation
  import opened Request
  import opened Compiler
  import opened Reply
  import opened ReplyParsing
  import opened EndToEnd
  import opened StaleReply
  import RwClient

  /** The PL1 count last used, after a request that was sent or a list that was refused. */
  function NextLast(cfg: Config, last: nat, ts: seq<Trans>): nat
    requires Legal(cfg)
  {
    var b := SetTrans(cfg, last, ts);
    if b.ok then NextCnt(b.st.last) else b.st.last
  }

  /** The PL1 count last used before list i of a run. */
  function LastAt(cfg: Config, last: nat, rqs: seq<seq<Trans>>, i: nat): nat
    requires Legal(cfg) && i <= |rqs|
  {
    if i == 0 then last else NextLast(cfg, LastAt(cfg, last, rqs, i - 1), rqs[i - 1])
  }

  /** What list i of the run makes of the handler. */
  function BuiltAt(cfg: Config, last: nat, rqs: seq<seq<Trans>>, i: nat): Built
    requires Legal(cfg) && i < |rqs|
  {
    SetTrans(cfg, LastAt(cfg, last, rqs, i), rqs[i])
  }

  ghost predicate AllValid(rqs: seq<seq<Trans>>) {
    forall i :: 0 <= i < |rqs| ==> ValidAll(rqs[i])
  }

  lemma {:induction false} LastInRange(cfg: Config, last: nat, rqs: seq<seq<Trans>>, i: nat)
    requires Legal(cfg) && last < TWO16 && i <= |rqs|
    ensures LastAt(cfg, last, rqs, i) < TWO16
  {
    hide SetTrans, NextCnt, Legal;
    if i > 0 {
      LastInRange(cfg, last, rqs, i - 1);
      RwClient.LastBound(cfg, LastAt(cfg, last, rqs, i - 1), rqs[i - 1]);
    }
  }

  /** The 16-bit count n after cnt. */
  function Further(cnt: nat, n: nat): nat {
    (cnt + n) % TWO16
  }

  /** Packets are numbered from the count after cnt. */
  ghost predicate Numbered(ps: seq<Packet>, cnt: nat) {
    forall k :: 0 <= k < |ps| ==> ps[k].cnt == Further(cnt, k + 1)
  }

  /** A request uses as many counts as it has packets, in order. */
  lemma CountsUsed(cfg: Config, last: nat, ts: seq<Trans>)
    requires Legal(cfg) && last < TWO16 && ValidAll(ts) && SetTrans(cfg, last, ts).ok
    ensures var ps := Packets(SetTrans(cfg, last, ts).st);
      NextLast(cfg, last, ts) == Further(last, |ps|) && Numbered(ps, last)
  {
    hide *;
    var st := SetTrans(cfg, last, ts).st;
    SetTransInv(cfg, last, true, ts) by { RwClient.AnyFills(ts); }
    InvParts(cfg, last, st);
    CountsOf(last, st);
    NextIs(cfg, last, ts);
  }

  lemma NextIs(cfg: Config, last: nat, ts: seq<Trans>)
    requires Legal(cfg) && SetTrans(cfg, last, ts).ok
    ensures NextLast(cfg, last, ts) == NextCnt(SetTrans(cfg, last, ts).st.last)
  {}

  lemma CountsOf(cnt0: nat, st: Enc)
    requires CountsOk(cnt0, st)
    ensures NextCnt(st.last) == Further(cnt0, |Packets(st)|) && Numbered(Packets(st), cnt0)
  {
    hide NextCnt;
    var ps := Packets(st);
    NextMod(cnt0 + |st.closed|);
    assert cnt0 + |st.closed| + 1 == cnt0 + |ps|;
    forall k | 0 <= k < |ps| ensures ps[k].cnt == Further(cnt0, k + 1) {
      if k < |st.closed| {
        assert ps[k] == st.closed[k];
      }
    }
  }

  /** Over every run of lists, accepted and refused ones in any order: the counts stay in 16 bits; an
      accepted request numbers its packets from the count after the last one used; any conforming reply to
      it, whatever fails, is accepted to its last word, and leaves the handler awaiting the count from which
      the next list goes on. */
  lemma RunInStep(cfg: Config, last: nat, rqs: seq<seq<Trans>>, i: nat, fs: seq<Frame>, resets: nat, heap: Heap)
    requires Legal(cfg) && last < TWO16 && AllValid(rqs) && i < |rqs| && BuiltAt(cfg, last, rqs, i).ok
    requires FramesConform(Packets(BuiltAt(cfg, last, rqs, i).st), fs)
    ensures var from := LastAt(cfg, last, rqs, i); var st := BuiltAt(cfg, last, rqs, i).st; var ps := Packets(st);
      && from < TWO16 && LastAt(cfg, last, rqs, i + 1) == Further(from, |ps|) && Numbered(ps, from)
      && var v := SetRsp(cfg, st, from, resets, heap, StreamReply(ps, fs));
      && v.End? && v.p.wi == |StreamReply(ps, fs)| && v.p.oldest == LastAt(cfg, last, rqs, i + 1)
  {
    var from := LastAt(cfg, last, rqs, i);
    assert ValidAll(rqs[i]);
    hide *;
    BuiltIs(cfg, last, rqs, i);
    LastInRange(cfg, last, rqs, i);
    CountsUsed(cfg, from, rqs[i]);
    NextIs(cfg, from, rqs[i]);
    ReplyAccepted(cfg, from, rqs[i], fs, resets, heap);
  }

  /** A reply that comes late, to an earlier request j of the run, is never taken for the reply to request i,
      as long as the counts the two start from differ: it is refused, whatever it answers. They are equal
      only after a multiple of 2^16 counts have been used in between. */
  lemma LateRefused(cfg: Config, last: nat, rqs: seq<seq<Trans>>, j: nat, i: nat, fs: seq<Frame>, resets: nat, heap: Heap)
    requires Legal(cfg) && last < TWO16 && AllValid(rqs) && j < |rqs| && i < |rqs|
    requires BuiltAt(cfg, last, rqs, j).ok && BuiltAt(cfg, last, rqs, i).ok
    requires FramesConform(Packets(BuiltAt(cfg, last, rqs, j).st), fs)
    requires LastAt(cfg, last, rqs, j) != LastAt(cfg, last, rqs, i)
    ensures Refused(SetRsp(cfg, BuiltAt(cfg, last, rqs, i).st, LastAt(cfg, last, rqs, i), resets, heap,
                           StreamReply(Packets(BuiltAt(cfg, last, rqs, j).st), fs)))
  {
    var ps := Packets(BuiltAt(cfg, last, rqs, j).st);
    var from, to := LastAt(cfg, last, rqs, j), LastAt(cfg, last, rqs, i);
    assert ValidAll(rqs[j]) && |ps| > 0;
    hide *;
    LastInRange(cfg, last, rqs, j);
    LastInRange(cfg, last, rqs, i);
    BuiltIs(cfg, last, rqs, j);
    RequestAnswerable(cfg, from, rqs[j], fs);
    FirstFits(cfg, ps, fs);
    CountsDiffer(from, to);
    OtherReplyRefused(cfg, BuiltAt(cfg, last, rqs, i).st, to, resets, heap, ps, fs);
  }

  lemma BuiltIs(cfg: Config, last: nat, rqs: seq<seq<Trans>>, j: nat)
    requires Legal(cfg) && j < |rqs|
    ensures BuiltAt(cfg, last, rqs, j) == SetTrans(cfg, LastAt(cfg, last, rqs, j), rqs[j])
    ensures LastAt(cfg, last, rqs, j + 1) == NextLast(cfg, LastAt(cfg, last, rqs, j), rqs[j])
  {
    hide SetTrans, NextLast;
  }

  lemma CountsDiffer(a: nat, b: nat)
    requires a < TWO16 && b < TWO16 && a != b
    ensures NextCnt(a) != NextCnt(b) && NextCnt(a) < TWO16
  {}

  lemma FirstFits(cfg: Config, ps: seq<Packet>, fs: seq<Frame>)
    requires Legal(cfg) && ps != [] && FramesConform(ps, fs) && RepliesFit(ps, fs, RspLimit(cfg)) && SizesValid(ps)
    ensures |fs[0].outs| == |Accesses(ps[0])| && 4 * PacketReplyLen(ps[0], fs[0]) < TWO32 && ValidSizes(Accesses(ps[0]))
  {
    hide PacketReplyLen, Accesses, ValidSizes, Conforms;
    assert AllConform(Accesses(ps[0]), fs[0].outs);
    assert RspLimit(cfg) < TWO32;
  }
}
