/** The socket mailbox: PL2 packets are cut from a request, and replies read, by their length words. */
module Mailbox {
  import opened Words
  import opened Protocol

  // ---- Packets in a run of words ----

  function Join(pkts: seq<seq<Word>>): seq<Word> {
    if pkts == [] then [] else pkts[0] + Join(pkts[1..])
  }

  /** Do num length words, followed from the start of rq, stay inside rq? */
  predicate Chained(rq: seq<Word>, num: nat)
    decreases num
  {
    num == 0 || (rq != [] && U32(rq[0]) / 4 <= |rq| && Chained(rq[U32(rq[0]) / 4..], num - 1))
  }

  /** The first num packets of rq, cut by their length words. */
  function CutPackets(rq: seq<Word>, num: nat): (pkts: seq<seq<Word>>)
    requires Chained(rq, num)
    ensures |pkts| == num
    decreases num
  {
    if num == 0 then []
    else [rq[..U32(rq[0]) / 4]] + CutPackets(rq[U32(rq[0]) / 4..], num - 1)
  }

  lemma SendStep(sent: seq<seq<Word>>, rq: seq<Word>, w: nat, k: nat)
    requires w <= |rq| && k > 0 && Chained(rq[w..], k)
    ensures w < |rq| && var n := U32(rq[w]) / 4;
      && w + n <= |rq| && Chained(rq[w + n..], k - 1)
      && sent + CutPackets(rq[w..], k) == (sent + [rq[w..w + n]]) + CutPackets(rq[w + n..], k - 1)
  {
    hide U32;
    assert rq[w..][0] == rq[w];
    var n := U32(rq[w]) / 4;
    assert rq[w..][..n] == rq[w..w + n] && rq[w..][n..] == rq[w + n..];
    assert CutPackets(rq[w..], k) == [rq[w..w + n]] + CutPackets(rq[w + n..], k - 1);
  }

  /** p packets of rq have been added to the list before, and the rest of rq starts at word w. */
  ghost predicate Sent(before: seq<seq<Word>>, sent: seq<seq<Word>>, rq: seq<Word>, num: nat, p: nat, w: nat)
    requires Chained(rq, num)
  {
    && p <= num && w <= |rq| && |sent| == |before| + p && Chained(rq[w..], num - p)
    && sent + CutPackets(rq[w..], num - p) == before + CutPackets(rq, num)
  }

  lemma SentNone(before: seq<seq<Word>>, rq: seq<Word>, num: nat)
    requires Chained(rq, num)
    ensures Sent(before, before, rq, num, 0, 0)
  {
    assert rq[0..] == rq;
  }

  lemma SentNext(before: seq<seq<Word>>, sent: seq<seq<Word>>, rq: seq<Word>, num: nat, p: nat, w: nat)
    requires Chained(rq, num) && Sent(before, sent, rq, num, p, w) && p < num
    ensures w < |rq| && var n := U32(rq[w]) / 4;
      w + n <= |rq| && Sent(before, sent + [rq[w..w + n]], rq, num, p + 1, w + n)
  {
    hide Chained, CutPackets, U32;
    SendStep(sent, rq, w, num - p);
  }

  /** What has been sent after p packets. */
  lemma SentPart(before: seq<seq<Word>>, sent: seq<seq<Word>>, rq: seq<Word>, num: nat, p: nat, w: nat)
    requires Chained(rq, num) && Sent(before, sent, rq, num, p, w)
    ensures p <= num && sent == before + CutPackets(rq, num)[..p]
    ensures p == num ==> sent == before + CutPackets(rq, num)
  {
    var all := CutPackets(rq, num);
    assert sent == (before + all)[..|sent|];
    assert p == num ==> all[..p] == all;
  }

  function AllWords(ps: seq<Packet>): seq<seq<Word>> {
    if ps == [] then [] else [PacketWords(ps[0])] + AllWords(ps[1..])
  }

  /** The length words of a request lead from packet to packet, and after the last one to its end. */
  lemma {:induction false} RequestPackets(ps: seq<Packet>)
    requires ValidStream(ps)
    ensures Chained(StreamWords(ps), |ps|) && CutPackets(StreamWords(ps), |ps|) == AllWords(ps)
    ensures Join(AllWords(ps)) == StreamWords(ps)
  {
    hide PacketWords, ValidPacket;
    if ps != [] {
      var rq, first := StreamWords(ps), PacketWords(ps[0]);
      LengthWord(ps[0]);
      assert rq == first + StreamWords(ps[1..]);
      assert rq[0] == first[0] && rq[..|first|] == first && rq[|first|..] == StreamWords(ps[1..]);
      RequestPackets(ps[1..]);
      assert AllWords(ps)[1..] == AllWords(ps[1..]);
    }
  }

  // ---- Receiving ----

  /** up: connected; inbox: words on their way from the server; rsp: received so far. */
  datatype Recv = Recv(ok: bool, up: bool, inbox: seq<Word>, rsp: seq<Word>)

  /** One packet: its length word, then the rest. Nothing there is a timeout; a bad length is fatal. */
  function RecvPkt(r: Recv, max: nat): Recv {
    if !r.up || r.inbox == [] then r.(ok := false)
    else
      var size := U32(r.inbox[0]);
      var s := r.(inbox := r.inbox[1..], ok := false);
      if size == 0 then s
      else if size % 4 != 0 || size < 8 || size + 4 * |r.rsp| > max then s.(up := false)
      else if |r.inbox| < size / 4 then s.(up := false, inbox := [])
      else
        var t := r.(inbox := r.inbox[size / 4..]);
        if r.inbox[1] == ZERO then t.(ok := false, up := false)
        else t.(rsp := r.rsp + r.inbox[..size / 4])
  }

  function RecvPkts(r: Recv, num: nat, max: nat): Recv
    decreases num
  {
    if num == 0 || !r.ok then r else RecvPkts(RecvPkt(r, max), num - 1, max)
  }

  /** When a packet is received, and when the connection is closed, whatever is in the inbox: a length that is no
      multiple of 4, below 8 or beyond the receive buffer closes it, and so does a packet that is cut off or starts
      with a zero word; nothing there, or a length of 0, is a time-out. */
  lemma RecvExactly(r: Recv, max: nat)
    requires r.ok && r.up && r.inbox != []
    ensures var s := RecvPkt(r, max); var size := U32(r.inbox[0]);
      var fits := size % 4 == 0 && 8 <= size && size + 4 * |r.rsp| <= max && size <= 4 * |r.inbox|;
      && (s.ok <==> fits && r.inbox[1] != ZERO)
      && (s.up <==> s.ok || size == 0)
      && (s.ok ==> s.rsp == r.rsp + r.inbox[..size / 4] && s.inbox == r.inbox[size / 4..])
      && (!s.ok ==> s.rsp == r.rsp)
      && (size == 0 ==> s.inbox == r.inbox[1..])
  {}

  /** A packet the mailbox can frame: its length word is right, it has a payload, and that is not zero. */
  predicate Framed(p: seq<Word>) {
    2 <= |p| && U32(p[0]) == 4 * |p| && p[1] != ZERO
  }

  ghost predicate AllFramed(pkts: seq<seq<Word>>) {
    forall i :: 0 <= i < |pkts| ==> Framed(pkts[i])
  }

  lemma RecvOne(p: seq<Word>, rest: seq<Word>, rsp: seq<Word>, max: nat)
    requires Framed(p)
    ensures var r := RecvPkt(Recv(true, true, p + rest, rsp), max);
      if 4 * (|rsp| + |p|) <= max then r == Recv(true, true, rest, rsp + p) else !r.ok && !r.up
  {
    var inbox := p + rest;
    assert inbox[..|p|] == p && inbox[|p|..] == rest;
  }

  /** Framed packets are received exactly if all of them together fit the receive buffer;
      then the buffer holds them and nothing else has been read. */
  lemma {:induction false} RecvFramed(pkts: seq<seq<Word>>, rest: seq<Word>, rsp: seq<Word>, max: nat)
    requires AllFramed(pkts) && 4 * |rsp| <= max
    ensures var r := RecvPkts(Recv(true, true, Join(pkts) + rest, rsp), |pkts|, max);
      if 4 * (|rsp| + |Join(pkts)|) <= max then r == Recv(true, true, rest, rsp + Join(pkts)) else !r.ok && !r.up
    decreases |pkts|
  {
    hide RecvPkt, Framed;
    if pkts == [] {
      assert Join(pkts) + rest == rest && rsp + Join(pkts) == rsp;
    } else {
      var p, more := pkts[0], Join(pkts[1..]) + rest;
      assert Framed(p) && Join(pkts) + rest == p + more;
      RecvOne(p, more, rsp, max);
      if 4 * (|rsp| + |p|) <= max {
        RecvFramed(pkts[1..], rest, rsp + p, max);
        assert rsp + Join(pkts) == (rsp + p) + Join(pkts[1..]);
      }
    }
  }

  lemma {:induction false} JoinAppend(a: seq<seq<Word>>, b: seq<seq<Word>>)
    ensures Join(a + b) == Join(a) + Join(b)
  {
    if a == [] {
      assert a + b == b;
    } else {
      assert (a + b)[1..] == a[1..] + b;
      JoinAppend(a[1..], b);
    }
  }

  /** Of what is there: j packets are gone; what is left of the n words is in the inbox. */
  ghost predicate Taken(r: Recv, pkts: seq<seq<Word>>, n: nat, rsp: seq<Word>, num: nat, j: nat) {
    && j <= num && j <= |pkts| && |Join(pkts[..j])| <= n <= |Join(pkts)|
    && r.inbox == Join(pkts)[|Join(pkts[..j])|..n]
    && (if r.ok then j == num && r.rsp == rsp + Join(pkts[..j]) else j < num && r.inbox == [])
  }

  lemma NoneTaken(pkts: seq<seq<Word>>, n: nat, rsp: seq<Word>, num: nat, ok: bool)
    requires n <= |Join(pkts)| && if ok then num == 0 else num > 0 && n == 0
    ensures Taken(Recv(ok, true, Join(pkts)[..n], rsp), pkts, n, rsp, num, 0)
  {
    assert pkts[..0] == [] && rsp + [] == rsp;
  }

  lemma MoreTaken(r: Recv, pkts: seq<seq<Word>>, n: nat, rsp: seq<Word>, num: nat, j: nat)
    requires pkts != [] && num > 0 && |pkts[0]| <= n && Taken(r, pkts[1..], n - |pkts[0]|, rsp + pkts[0], num - 1, j)
    ensures Taken(r, pkts, n, rsp, num, j + 1)
  {
    var p, rest := pkts[0], Join(pkts[1..]);
    assert Join(pkts) == p + rest;
    assert pkts[..j + 1][1..] == pkts[1..][..j] && pkts[..j + 1][0] == p;
    assert Join(pkts[..j + 1]) == p + Join(pkts[1..][..j]);
    var k := |Join(pkts[1..][..j])|;
    assert Join(pkts)[|p| + k..n] == rest[k..n - |p|];
    assert (rsp + p) + Join(pkts[1..][..j]) == rsp + Join(pkts[..j + 1]);
  }

  lemma PartOnly(p: seq<Word>, n: nat, rsp: seq<Word>, max: nat)
    requires Framed(p) && 0 < n < |p|
    ensures !RecvPkt(Recv(true, true, p[..n], rsp), max).up
  {}

  /** Reading num packets when n words of what the server sends are there: unless the connection is closed,
      whole packets are taken in order, and a time-out is one at a packet boundary, with nothing left. */
  lemma {:induction false} RecvAny(pkts: seq<seq<Word>>, n: nat, rsp: seq<Word>, num: nat, max: nat)
    requires AllFramed(pkts) && n <= |Join(pkts)| && num <= |pkts|
    ensures var r := RecvPkts(Recv(true, true, Join(pkts)[..n], rsp), num, max);
      r.up ==> exists j: nat :: Taken(r, pkts, n, rsp, num, j)
    decreases num
  {
    hide RecvPkt, Framed, Taken;
    var r0 := Recv(true, true, Join(pkts)[..n], rsp);
    if num == 0 {
      NoneTaken(pkts, n, rsp, 0, true);
    } else if n == 0 {
      assert RecvPkt(r0, max) == r0.(ok := false) by { NothingThere(r0, max); }
      StopsThere(r0.(ok := false), num - 1, max);
      NoneTaken(pkts, n, rsp, num, false);
    } else {
      var p, rest := pkts[0], Join(pkts[1..]);
      assert Join(pkts) == p + rest && Framed(p);
      if n < |p| {
        assert Join(pkts)[..n] == p[..n];
        PartOnly(p, n, rsp, max);
        StaysDown(RecvPkt(r0, max), num - 1, max);
      } else {
        assert Join(pkts)[..n] == p + rest[..n - |p|];
        RecvOne(p, rest[..n - |p|], rsp, max);
        if 4 * (|rsp| + |p|) <= max {
          RecvAny(pkts[1..], n - |p|, rsp + p, num - 1, max);
          var r := RecvPkts(r0, num, max);
          if r.up {
            var j: nat :| Taken(r, pkts[1..], n - |p|, rsp + p, num - 1, j);
            MoreTaken(r, pkts, n, rsp, num, j);
          }
        } else {
          StaysDown(RecvPkt(r0, max), num - 1, max);
        }
      }
    }
  }

  lemma NothingThere(r: Recv, max: nat)
    requires r.up && r.inbox == []
    ensures RecvPkt(r, max) == r.(ok := false)
  {}

  lemma StopsThere(r: Recv, num: nat, max: nat)
    requires !r.ok
    ensures RecvPkts(r, num, max) == r
  {}

  lemma {:induction false} StaysDown(r: Recv, num: nat, max: nat)
    requires !r.up
    ensures !RecvPkts(r, num, max).up
    decreases num
  {
    if num > 0 && r.ok {
      StaysDown(RecvPkt(r, max), num - 1, max);
    }
  }

  /** Words that come after the last read. */
  function Arrive(r: Recv, late: seq<Word>): Recv {
    r.(inbox := r.inbox + late)
  }

  /** The mailbox over a connected socket. inbox: words the server has sent that are not read yet;
      outbox: packets handed to the socket. */
  class SocketMailbox {
    var connected: bool
    var maxNumBytesRsp: nat
    var inbox: seq<Word>
    var outbox: seq<seq<Word>>

    constructor ()
      ensures connected && inbox == [] && outbox == [] && maxNumBytesRsp == 0
    {
      connected, maxNumBytesRsp, inbox, outbox := true, 0, [], [];
    }

    method Config(max: nat)
      modifies `maxNumBytesRsp
      ensures maxNumBytesRsp == max
    {
      maxNumBytesRsp := max;
    }

    /** Sends num packets one by one. taken: how many the socket takes before it fails, which closes
        the connection. */
    method Send(rq: seq<Word>, num: nat, taken: nat) returns (ok: bool)
      requires Chained(rq, num)
      modifies `outbox, `connected
      ensures ok == connected == (old(connected) && taken >= num)
      ensures ok ==> outbox == old(outbox) + CutPackets(rq, num)
      ensures !old(connected) ==> outbox == old(outbox)
      ensures old(connected) && taken < num ==> outbox == old(outbox) + CutPackets(rq, num)[..taken]
    {
      if !connected {
        return false;
      }
      hide *;
      var w: nat, p: nat := 0, 0;
      SentNone(outbox, rq, num);
      while p < num
        invariant p <= num && p <= taken && connected && Sent(old(outbox), outbox, rq, num, p, w)
      {
        if p == taken {
          SentPart(old(outbox), outbox, rq, num, p, w);
          connected := false;
          return false;
        }
        SentNext(old(outbox), outbox, rq, num, p, w);
        var pktSize := U32(rq[w]);
        outbox := outbox + [rq[w..w + pktSize / 4]];
        w := w + pktSize / 4;
        p := p + 1;
      }
      SentPart(old(outbox), outbox, rq, num, p, w);
      return true;
    }

    method ReceivePl2Pkt(rsp: seq<Word>) returns (ok: bool, all: seq<Word>)
      modifies `connected, `inbox
      ensures Recv(ok, connected, inbox, all) == RecvPkt(Recv(true, old(connected), old(inbox), rsp), maxNumBytesRsp)
    {
      all := rsp;
      if !connected || inbox == [] {
        return false, all;
      }
      var pkt := inbox;
      var size := U32(pkt[0]);
      inbox := inbox[1..];
      if size == 0 {
        return false, all;
      }
      if size % 4 != 0 || size < 8 || size + 4 * |rsp| > maxNumBytesRsp {
        connected := false;
        return false, all;
      }
      if |pkt| < size / 4 {
        connected, inbox := false, [];
        return false, all;
      }
      inbox := pkt[size / 4..];
      if pkt[1] == ZERO {
        connected := false;
        return false, all;
      }
      return true, all + pkt[..size / 4];
    }

    /** Sends num packets, then reads as many. answer: what the server sends in the meantime; late: what it sends
        after that. */
    method Execute(rq: seq<Word>, num: nat, taken: nat, answer: seq<Word>, late: seq<Word>) returns (ok: bool, rsp: seq<Word>)
      requires Chained(rq, num)
      modifies `outbox, `inbox, `connected
      ensures old(connected) && taken >= num ==> outbox == old(outbox) + CutPackets(rq, num)
      ensures if old(connected) && taken >= num then
          Recv(ok, connected, inbox, rsp) == Arrive(RecvPkts(Recv(true, true, old(inbox) + answer, []), num, maxNumBytesRsp), late)
        else !ok && !connected && rsp == [] && inbox == old(inbox)
    {
      rsp := [];
      ok := Send(rq, num, taken);
      if !ok {
        return;
      }
      inbox := inbox + answer;
      var p := 0;
      while p < num
        invariant p <= num && ok && outbox == old(outbox) + CutPackets(rq, num)
        invariant RecvPkts(Recv(true, connected, inbox, rsp), num - p, maxNumBytesRsp)
               == RecvPkts(Recv(true, true, old(inbox) + answer, []), num, maxNumBytesRsp)
      {
        ok, rsp := ReceivePl2Pkt(rsp);
        if !ok {
          inbox := inbox + late;
          return;
        }
        p := p + 1;
      }
      inbox := inbox + late;
    }
  }
}
