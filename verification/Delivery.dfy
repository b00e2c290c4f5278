/** Which bytes of a reply reach the client's memory, also when accesses fail. */
module Delivery {
  import opened Words
  import opened Errors
  import opened Protocol
  import opened Semantics
  import opened Encoder
  import opened Request
  import opened Compiler
  import opened Reply
  import opened ReplyParsing
  import opened EndToEnd
  import opened Aggregate

  /** The bytes of consecutive answers, up to and including the first that failed. */
  function Given(outs: seq<Outcome>): seq<byte> {
    if outs == [] then [] else outs[0].data + (if outs[0].Done? then Given(outs[1..]) else [])
  }

  /** Does the memory h hold the bytes d from ptr on? */
  ghost predicate Has(h: Heap, ptr: nat, d: seq<byte>) {
    forall i :: 0 <= i < |d| ==> HasAt(h, ptr + i, d[i])
  }

  predicate HasAt(h: Heap, a: nat, b: byte) {
    a in h && h[a] == b
  }

  /** Are h and g equal at address a? */
  predicate SameAt(h: Heap, g: Heap, a: nat) {
    (a in h <==> a in g) && (a in h ==> h[a] == g[a])
  }

  /** Outside lo to hi, h and g are equal. */
  ghost predicate SameOutside(h: Heap, g: Heap, lo: nat, hi: nat) {
    forall a: nat :: a < lo || hi <= a ==> SameAt(h, g, a)
  }

  lemma {:induction false} PutHas(h: Heap, ptr: nat, d: seq<byte>)
    ensures Has(Put(h, ptr, d), ptr, d) && SameOutside(h, Put(h, ptr, d), ptr, ptr + |d|)
    decreases |d|
  {
    if d != [] {
      var h1 := h[ptr := d[0]];
      var g := Put(h1, ptr + 1, d[1..]);
      PutHas(h1, ptr + 1, d[1..]);
      forall i | 0 <= i < |d| ensures HasAt(g, ptr + i, d[i]) {
        if i == 0 {
          assert SameAt(h1, g, ptr);
        } else {
          assert HasAt(g, ptr + 1 + (i - 1), d[1..][i - 1]);
        }
      }
      forall a: nat | a < ptr || ptr + |d| <= a ensures SameAt(h, g, a) {
        assert SameAt(h1, g, a) && SameAt(h, h1, a);
      }
    }
  }

  /** An answer carries the bytes its record will count, and not more than were asked for. */
  predicate Carries(t: Trans, o: Outcome) {
    if t.acc.kind.Read? then |o.data| == RecOf(t, o).ok <= t.acc.n && (o.Done? <==> RecOf(t, o).err == NO_ERROR)
    else o.data == []
  }

  ghost predicate AllCarry(ts: seq<Trans>, outs: seq<Outcome>) {
    |ts| == |outs| && forall j :: 0 <= j < |ts| ==> Carries(ts[j], outs[j])
  }

  lemma KeepHas(h: Heap, g: Heap, ptr: nat, d: seq<byte>, lo: nat, hi: nat)
    requires Has(h, ptr, d) && SameOutside(h, g, lo, hi) && (ptr + |d| <= lo || hi <= ptr)
    ensures Has(g, ptr, d)
  {
    forall i | 0 <= i < |d| ensures HasAt(g, ptr + i, d[i]) {
      assert HasAt(h, ptr + i, d[i]) && SameAt(h, g, ptr + i);
    }
  }

  lemma SameTrans(f: Heap, g: Heap, h: Heap, lo: nat, mid: nat, hi: nat)
    requires SameOutside(f, g, lo, mid) && SameOutside(g, h, mid, hi) && lo <= mid <= hi
    ensures SameOutside(f, h, lo, hi)
  {
    forall a: nat | a < lo || hi <= a ensures SameAt(f, h, a) {
      assert SameAt(f, g, a) && SameAt(g, h, a);
    }
  }

  lemma HasConcat(h: Heap, ptr: nat, a: seq<byte>, b: seq<byte>)
    requires Has(h, ptr, a) && Has(h, ptr + |a|, b)
    ensures Has(h, ptr, a + b)
  {
    forall i | 0 <= i < |a + b| ensures HasAt(h, ptr + i, (a + b)[i]) {
      if i < |a| {
        assert HasAt(h, ptr + i, a[i]);
      } else {
        assert HasAt(h, ptr + |a| + (i - |a|), b[i - |a|]);
      }
    }
  }

  lemma SameMore(g: Heap, h: Heap, lo: nat, hi: nat, hi2: nat)
    requires SameOutside(g, h, lo, hi) && hi <= hi2
    ensures SameOutside(g, h, lo, hi2)
  {}

  lemma SameSelf(h: Heap, lo: nat)
    ensures SameOutside(h, h, lo, lo) && Has(h, lo, [])
  {}

  lemma DoneAll(t: Trans, o: Outcome)
    requires t.acc.kind.Read? && Carries(t, o) && o.Done?
    ensures |o.data| == t.acc.n
  {}

  /** The answers to the pieces of a read: what is given is in the buffer in order, and nothing outside
      the pieces' part of it changes. */
  lemma {:induction false} ReadDelivered(r: Result, t: Trans, lo: nat, ps: seq<Trans>, hi: nat, outs: seq<Outcome>)
    requires t.acc.kind.Read? && Tile(t, lo, ps, hi) && AllCarry(ps, outs)
    ensures var h := Absorb(r, ps, outs).heap;
      lo <= hi && Has(h, t.ptr + lo, Given(outs)) && SameOutside(r.heap, h, t.ptr + lo, t.ptr + hi)
    decreases |ps|
  {
    hide Has, SameOutside, Put, FirstErr, Carries;
    TileLe(t, lo, ps, hi);
    if ps == [] {
      SameSelf(r.heap, t.ptr + lo);
    } else {
      var p, o := ps[0], outs[0];
      var r1, mid := Absorb1(r, p, o), lo + p.acc.n;
      var h := Absorb(r, ps, outs).heap;
      assert p.ptr == t.ptr + lo && p.acc.kind.Read?;
      assert Carries(p, o) && |o.data| <= p.acc.n by { CarriesLen(p, o); }
      PutHas(r.heap, p.ptr, o.data);
      TileLe(t, mid, ps[1..], hi);
      ReadDelivered(r1, t, mid, ps[1..], hi, outs[1..]);
      SameMore(r.heap, r1.heap, p.ptr, p.ptr + |o.data|, t.ptr + mid);
      SameTrans(r.heap, r1.heap, h, t.ptr + lo, t.ptr + mid, t.ptr + hi);
      KeepHas(r1.heap, h, p.ptr, o.data, t.ptr + mid, t.ptr + hi);
      if o.Done? {
        DoneAll(p, o);
        HasConcat(h, p.ptr, o.data, Given(outs[1..]));
      } else {
        assert o.data + [] == o.data;
      }
    }
  }

  lemma CarriesLen(t: Trans, o: Outcome)
    requires t.acc.kind.Read? && Carries(t, o)
    ensures |o.data| <= t.acc.n
  {}

  /** Writes and fills deliver nothing. */
  lemma {:induction false} NothingDelivered(r: Result, ts: seq<Trans>, outs: seq<Outcome>)
    requires |ts| == |outs| && forall j :: 0 <= j < |ts| ==> !ts[j].acc.kind.Read?
    ensures Absorb(r, ts, outs).heap == r.heap
    decreases |ts|
  {
    hide FirstErr, RecOf;
    if ts != [] {
      NothingDelivered(Absorb1(r, ts[0], outs[0]), ts[1..], outs[1..]);
    }
  }

  // ---- Whole requests ----

  /** The answers to transaction t. */
  function OutsOf(st: Enc, outs: seq<Outcome>, t: nat): seq<Outcome>
    requires t < |st.cuts| && Lo(st.cuts, t) <= st.cuts[t] <= |outs|
  {
    outs[Lo(st.cuts, t)..st.cuts[t]]
  }

  predicate Apart(a: Trans, b: Trans) {
    a.acc.kind.Read? && b.acc.kind.Read? ==> a.ptr + a.acc.n <= b.ptr || b.ptr + b.acc.n <= a.ptr
  }

  /** The read buffers do not overlap. */
  ghost predicate Disjoint(ts: seq<Trans>) {
    forall i, j :: 0 <= i < j < |ts| ==> Apart(ts[i], ts[j])
  }

  ghost predicate InBuffer(ts: seq<Trans>, a: nat) {
    exists i :: 0 <= i < |ts| && ts[i].acc.kind.Read? && ts[i].ptr <= a < ts[i].ptr + ts[i].acc.n
  }

  ghost predicate GroupHas(st: Enc, outs: seq<Outcome>, t: nat, h: Heap) {
    && t < |st.rw| && t < |st.cuts| && Lo(st.cuts, t) <= st.cuts[t] <= |outs|
    && |Given(OutsOf(st, outs, t))| <= st.rw[t].acc.n
    && (st.rw[t].acc.kind.Read? ==> Has(h, st.rw[t].ptr, Given(OutsOf(st, outs, t))))
  }

  lemma {:induction false} GivenLe(t: Trans, lo: nat, ps: seq<Trans>, hi: nat, outs: seq<Outcome>)
    requires Tile(t, lo, ps, hi) && AllCarry(ps, outs)
    ensures lo + |Given(outs)| <= hi
    decreases |ps|
  {
    TileLe(t, lo, ps, hi);
    hide Sub;
    if ps != [] {
      assert Carries(ps[0], outs[0]);
      TileLe(t, lo + ps[0].acc.n, ps[1..], hi);
      GivenLe(t, lo + ps[0].acc.n, ps[1..], hi, outs[1..]);
    }
  }

  /** The answers to one transaction change its own buffer only. */
  lemma GroupDelivered(r: Result, st: Enc, outs: seq<Outcome>, t: nat)
    requires GroupsOk(st) && AllCarry(st.pl0, outs) && t < |st.rw|
    ensures Lo(st.cuts, t) <= st.cuts[t] <= |st.pl0|
    ensures var h := Absorb(r, st.pl0[Lo(st.cuts, t)..st.cuts[t]], OutsOf(st, outs, t)).heap; var a := st.rw[t];
      && GroupHas(st, outs, t, h)
      && (if a.acc.kind.Read? then SameOutside(r.heap, h, a.ptr, a.ptr + a.acc.n) else h == r.heap)
  {
    hide Absorb, Has, SameOutside, Given, Tile, Carries;
    var lo, hi, a := Lo(st.cuts, t), st.cuts[t], st.rw[t];
    assert GroupOk(st.pl0, a, lo, hi);
    var ps, os := st.pl0[lo..hi], OutsOf(st, outs, t);
    assert AllCarry(ps, os);
    GivenLe(a, 0, ps, a.acc.n, os);
    TileFields(a, 0, ps, a.acc.n);
    assert a.ptr + 0 == a.ptr;
    if a.acc.kind.Read? {
      ReadDelivered(r, a, 0, ps, a.acc.n, os);
    } else {
      NothingDelivered(r, ps, os);
    }
  }

  /** After the answers to the first k transactions. */
  ghost predicate FirstHave(st: Enc, outs: seq<Outcome>, k: nat, h0: Heap, h: Heap) {
    && k <= |st.rw|
    && (forall t :: 0 <= t < k ==> GroupHas(st, outs, t, h))
    && (forall a: nat :: !InBuffer(st.rw[..k], a) ==> SameAt(h0, h, a))
  }

  lemma BufferMore(ts: seq<Trans>, k: nat, x: nat)
    requires k < |ts|
    ensures InBuffer(ts[..k], x) ==> InBuffer(ts[..k + 1], x)
  {
    assert forall i :: 0 <= i < k ==> ts[..k + 1][i] == ts[..k][i];
  }

  lemma NextHave(st: Enc, outs: seq<Outcome>, k: nat, h0: Heap, g: Heap, h: Heap)
    requires FirstHave(st, outs, k, h0, g) && k < |st.rw| && Disjoint(st.rw) && GroupHas(st, outs, k, h)
    requires var a := st.rw[k];
      if a.acc.kind.Read? then SameOutside(g, h, a.ptr, a.ptr + a.acc.n) else h == g
    ensures FirstHave(st, outs, k + 1, h0, h)
  {
    hide Has, Given, OutsOf;
    var a := st.rw[k];
    forall t | 0 <= t < k ensures GroupHas(st, outs, t, h) {
      assert GroupHas(st, outs, t, g) && Apart(st.rw[t], a);
      if a.acc.kind.Read? && st.rw[t].acc.kind.Read? {
        KeepHas(g, h, st.rw[t].ptr, Given(OutsOf(st, outs, t)), a.ptr, a.ptr + a.acc.n);
      }
    }
    forall x: nat | !InBuffer(st.rw[..k + 1], x) ensures SameAt(h0, h, x) {
      assert st.rw[..k + 1][k] == a;
      BufferMore(st.rw, k, x);
      assert SameAt(h0, g, x);
      if a.acc.kind.Read? {
        assert SameAt(g, h, x);
      }
    }
  }

  lemma {:induction false} GroupsDelivered(r: Result, st: Enc, outs: seq<Outcome>, k: nat)
    requires GroupsOk(st) && AllCarry(st.pl0, outs) && Disjoint(st.rw) && k <= |st.rw|
    ensures Lo(st.cuts, k) <= |st.pl0|
    ensures FirstHave(st, outs, k, r.heap, Absorb(r, st.pl0[..Lo(st.cuts, k)], outs[..Lo(st.cuts, k)]).heap)
    decreases k
  {
    hide Absorb, GroupHas, SameOutside, Disjoint, InBuffer, GroupOk, Carries;
    if k == 0 {
      NoneAbsorbed(r, st.pl0[..0], outs[..0]);
      assert forall a: nat :: SameAt(r.heap, r.heap, a);
    } else {
      var lo, hi := Lo(st.cuts, k - 1), st.cuts[k - 1];
      GroupsDelivered(r, st, outs, k - 1);
      var r1 := Absorb(r, st.pl0[..lo], outs[..lo]);
      GroupDelivered(r1, st, outs, k - 1);
      assert st.pl0[..hi] == st.pl0[..lo] + st.pl0[lo..hi] && outs[..hi] == outs[..lo] + outs[lo..hi];
      AbsorbAppend(r, st.pl0[..lo], outs[..lo], st.pl0[lo..hi], outs[lo..hi]);
      NextHave(st, outs, k - 1, r.heap, r1.heap, Absorb(r, st.pl0[..hi], outs[..hi]).heap);
    }
  }

  lemma NoneAbsorbed(r: Result, ts: seq<Trans>, outs: seq<Outcome>)
    requires ts == [] && outs == []
    ensures Absorb(r, ts, outs) == r
  {}

  // ---- Conforming replies ----

  lemma ConformCarries(t: Trans, a: Access, o: Outcome)
    requires Conforms(a, o) && t.acc.kind == a.kind && t.acc.n == a.n
    ensures Carries(t, o)
  {}

  lemma {:induction false} StreamConforms(ps: seq<Packet>, fs: seq<Frame>)
    requires FramesConform(ps, fs)
    ensures AllConform(StreamAccesses(ps), AllOuts(fs))
  {
    hide Accesses, Conforms;
    if ps != [] {
      assert AllConform(Accesses(ps[0]), fs[0].outs);
      StreamConforms(ps[1..], fs[1..]);
    }
  }

  lemma AnswersCarry(pl0: seq<Trans>, accs: seq<Access>, outs: seq<Outcome>)
    requires Describe(pl0, 0, accs) && |pl0| == |accs| && AllConform(accs, outs)
    ensures AllCarry(pl0, outs)
  {
    hide Conforms, Carries, ValidSize;
    forall j | 0 <= j < |pl0| ensures Carries(pl0[j], outs[j]) {
      assert pl0[0 + j].acc.kind == accs[j].kind && Conforms(accs[j], outs[j]);
      ConformCarries(pl0[j], accs[j], outs[j]);
    }
  }

  /** The result counts the bytes that are given. */
  lemma {:induction false} GivenCount(ps: seq<Trans>, outs: seq<Outcome>, recs: seq<Rsp>)
    requires AllCarry(ps, outs) && |recs| == |ps| && forall j :: 0 <= j < |ps| ==> ps[j].acc.kind.Read? && recs[j] == RecOf(ps[j], outs[j])
    ensures Counted(recs) <= |recs| && SumOk(recs[..Counted(recs)]) == |Given(outs)|
    decreases |ps|
  {
    hide RecOf;
    CountedLe(recs);
    if ps != [] {
      assert Carries(ps[0], outs[0]) && recs[0] == RecOf(ps[0], outs[0]);
      var k := Counted(recs);
      assert recs[..k][0] == recs[0];
      if outs[0].Done? {
        GivenCount(ps[1..], outs[1..], recs[1..]);
        assert recs[..k][1..] == recs[1..][..k - 1];
      } else {
        assert recs[..k][1..] == [];
      }
    }
  }

  /** Transaction t reports n bytes, in 16 bits, if it is a read. */
  ghost predicate Reports(st: Enc, outs: seq<Outcome>, recs: seq<Rsp>, t: nat) {
    && t < |st.rw| && t < |st.cuts| && Lo(st.cuts, t) <= st.cuts[t] <= |outs| && |recs| == |outs|
    && (st.rw[t].acc.kind.Read? ==>
        Summary(recs[Lo(st.cuts, t)..st.cuts[t]]).ok == |Given(OutsOf(st, outs, t))| % TWO16)
  }

  lemma GroupReports(st: Enc, outs: seq<Outcome>, recs: seq<Rsp>, t: nat)
    requires GroupsOk(st) && AllCarry(st.pl0, outs) && t < |st.rw| && |recs| == |st.pl0|
    requires forall j :: 0 <= j < |st.pl0| ==> recs[j] == RecOf(st.pl0[j], outs[j])
    ensures Reports(st, outs, recs, t)
  {
    hide RecOf, Given, Carries, Tile;
    var lo, hi, a := Lo(st.cuts, t), st.cuts[t], st.rw[t];
    assert GroupOk(st.pl0, a, lo, hi);
    TileFields(a, 0, st.pl0[lo..hi], a.acc.n);
    if a.acc.kind.Read? {
      var ps, os, rs := st.pl0[lo..hi], OutsOf(st, outs, t), recs[lo..hi];
      assert forall j :: 0 <= j < |ps| ==> rs[j] == recs[lo + j] && ps[j] == st.pl0[lo + j] && os[j] == outs[lo + j];
      GivenCount(ps, os, rs);
    }
  }

  /** rw_get_trans_rsp returns for each read the number of bytes given, in 16 bits. */
  ghost predicate Returned(st: Enc, outs: seq<Outcome>, rsps: seq<Rsp>) {
    && |rsps| == |st.rw| == |st.cuts|
    && forall t {:trigger rsps[t]} :: 0 <= t < |st.rw| && st.rw[t].acc.kind.Read? ==>
      Lo(st.cuts, t) <= st.cuts[t] <= |outs| && rsps[t].ok == |Given(OutsOf(st, outs, t))| % TWO16
  }

  lemma ReturnedIs(st: Enc, outs: seq<Outcome>, recs: seq<Rsp>, prior: seq<Rsp>)
    requires |st.rw| == |st.cuts| && 0 < |st.rw| == |prior| && |recs| == |st.pl0| && Correct(st, recs, prior)
    requires forall t :: 0 <= t < |st.rw| ==> Reports(st, outs, recs, t)
    ensures Returned(st, outs, TransRsp(st.rw, st.pl0, recs, prior))
  {
    hide TransRsp, Summary, Given, OutsOf;
    var out := TransRsp(st.rw, st.pl0, recs, prior);
    forall t | 0 <= t < |st.rw| && st.rw[t].acc.kind.Read?
      ensures Lo(st.cuts, t) <= st.cuts[t] <= |outs| && out[t].ok == |Given(OutsOf(st, outs, t))| % TWO16
    {
      assert ResultOk(st, recs, t, out[t]) && Reports(st, outs, recs, t);
    }
  }

  /** After any reply that answers every frame, to any accepted request whose read buffers do not overlap: each
      read buffer starts with the bytes answered to its own transaction, in order and up to the first failing
      access; rw_get_trans_rsp returns exactly their number, in 16 bits, if no split transaction ends at 2^64;
      and the client's memory outside the read buffers is as before. */
  lemma Delivered(cfg: Config, last: nat, ts: seq<Trans>, fs: seq<Frame>, heap: Heap, prior: seq<Rsp>)
    requires Legal(cfg) && last < TWO16 && ValidAll(ts) && SetTrans(cfg, last, ts).ok && |prior| == |ts|
    requires FramesConform(Packets(SetTrans(cfg, last, ts).st), fs) && Disjoint(ts)
    ensures var st := SetTrans(cfg, last, ts).st; var outs := AllOuts(fs);
      && |outs| == |st.pl0| && |st.rw| == |st.cuts| == |ts| > 0
      && var r := Absorb(Result(0, NoRsps(|st.pl0|), heap, ERR_NONE), st.pl0, outs);
      && (forall t :: 0 <= t < |ts| ==> GroupHas(st, outs, t, r.heap))
      && |r.recs| == |st.pl0|
      && ((forall t :: 0 <= t < |ts| ==> EndKept(st, t)) ==> Returned(st, outs, TransRsp(st.rw, st.pl0, r.recs, prior)))
      && (forall a: nat :: !InBuffer(ts, a) ==> SameAt(heap, r.heap, a))
  {
    assert ERR_NONE == 0;
    hide *;
    var st := SetTrans(cfg, last, ts).st;
    var ps, outs := Packets(st), AllOuts(fs);
    SetTransInv(cfg, last, true, ts) by { AllFills(ts); }
    RequestAnswerable(cfg, last, ts, fs);
    StreamConforms(ps, fs);
    OutsLen(ps, fs);
    AnswersCarry(st.pl0, StreamAccesses(ps), outs);
    SameBuffers(ts);
    RequestDelivered(st, outs, heap);
    RequestAggregated(cfg, last, ts, prior);
    var r := Absorb(Result(0, NoRsps(|st.pl0|), heap, ERR_NONE), st.pl0, outs);
    if forall t :: 0 <= t < |ts| ==> EndKept(st, t) {
      ReturnedIs(st, outs, r.recs, prior);
    }
  }

  lemma AllFills(ts: seq<Trans>)
    ensures FillsIn(ts, true)
  {}

  /** Mapping 132 to 15 moves no buffer. */
  lemma SameBuffers(ts: seq<Trans>)
    ensures Disjoint(ts) ==> Disjoint(MappedAll(ts))
    ensures forall a: nat :: InBuffer(ts, a) <==> InBuffer(MappedAll(ts), a)
  {
    var ms := MappedAll(ts);
    assert forall i :: 0 <= i < |ts| ==> ms[i].acc.kind == ts[i].acc.kind && ms[i].acc.n == ts[i].acc.n && ms[i].ptr == ts[i].ptr;
    assert Disjoint(ts) ==> forall i, j :: 0 <= i < j < |ts| ==> Apart(ts[i], ts[j]) && Apart(ms[i], ms[j]);
  }

  lemma RequestDelivered(st: Enc, outs: seq<Outcome>, heap: Heap)
    requires GroupsOk(st) && AllCarry(st.pl0, outs) && Disjoint(st.rw)
    ensures var r := Absorb(Result(0, NoRsps(|st.pl0|), heap, ERR_NONE), st.pl0, outs);
      && |r.recs| == |st.pl0|
      && (forall t :: 0 <= t < |st.rw| ==> GroupHas(st, outs, t, r.heap) && Reports(st, outs, r.recs, t))
      && (forall a: nat :: !InBuffer(st.rw, a) ==> SameAt(heap, r.heap, a))
  {
    hide Absorb, RecOf, GroupHas, Reports, InBuffer, Disjoint, GroupOk, SameAt, Carries;
    var r0 := Result(0, NoRsps(|st.pl0|), heap, ERR_NONE);
    var r := Absorb(r0, st.pl0, outs);
    GroupsDelivered(r0, st, outs, |st.rw|);
    assert st.pl0[..|st.pl0|] == st.pl0 && outs[..|st.pl0|] == outs && st.rw[..|st.rw|] == st.rw;
    AbsorbRecords(r0, st.pl0, outs);
    forall j | 0 <= j < |st.pl0| ensures r.recs[j] == RecOf(st.pl0[j], outs[j]) {
      assert r.recs[0 + j] == RecOf(st.pl0[j], outs[j]);
    }
    forall t | 0 <= t < |st.rw| ensures GroupHas(st, outs, t, r.heap) && Reports(st, outs, r.recs, t) {
      GroupReports(st, outs, r.recs, t);
    }
  }
}
