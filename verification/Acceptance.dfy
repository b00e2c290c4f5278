/** Which transactions and lists are accepted, in terms the caller sees. */
module Acceptance {
  import opened Words
  import opened Protocol
  import opened Semantics
  import opened Encoder
  import opened Compiler
  import opened ResultSize

  lemma {:induction false} AddAllMore(cfg: Config, st: Enc, ts: seq<Trans>, t: Trans)
    requires Legal(cfg) && Sane(st)
    ensures var b := AddAll(cfg, st, ts); var c := AddAll(cfg, st, ts + [t]);
      && (b.ok ==> Sane(b.st)) && (!b.ok ==> !c.ok)
      && (b.ok ==> (c.ok <==> Admitted(cfg, b.st, t)))
    decreases |ts|
  {
    hide Admitted, Compile, Apply, Record, Mapped, Sane, Legal;
    if ts == [] {
      assert [] + [t] == [t] && [t][1..] == [] && [t][0] == t;
      TryAddSane(cfg, st, t);
    } else {
      assert (ts + [t])[0] == ts[0] && (ts + [t])[1..] == ts[1..] + [t];
      TryAddSane(cfg, st, ts[0]);
      if TryAdd(cfg, st, ts[0]).Some? {
        AddAllMore(cfg, TryAdd(cfg, st, ts[0]).value, ts[1..], t);
      }
    }
  }

  lemma StartSizes(last: nat)
    ensures RqSize(Start(last)) == 16 && RspSize(Start(last)) == 12 && Sane(Start(last))
  {}

  /** A request of one transaction. An empty list is refused. */
  lemma OneAccepted(cfg: Config, last: nat, t: Trans)
    requires Legal(cfg)
    ensures SetTrans(cfg, last, [t]).ok <==> Takes(cfg, 16, 12, t)
    ensures !SetTrans(cfg, last, []).ok
  {
    hide Admitted, Takes, Legal, Start, RqSize, RspSize, AddAll;
    StartSizes(last);
    TakesIs(cfg, Start(last), t);
    AddAllMore(cfg, Start(last), [], t);
    assert [] + [t] == [t];
    assert AddAll(cfg, Start(last), []) == Built(true, Start(last)) by { AddAllNone(cfg, Start(last)); }
  }

  lemma AddAllNone(cfg: Config, st: Enc)
    requires Legal(cfg) && Sane(st)
    ensures AddAll(cfg, st, []) == Built(true, st)
  {}

  /** A list with one transaction more: accepted exactly if the list before it is, and the transaction is taken
      at the sizes of request and reply reported for that list. */
  lemma NextAccepted(cfg: Config, last: nat, ts: seq<Trans>, t: Trans)
    requires Legal(cfg) && ts != []
    ensures var b := SetTrans(cfg, last, ts);
      SetTrans(cfg, last, ts + [t]).ok <==> b.ok && Takes(cfg, RqSize(b.st), RspSize(b.st), t)
  {
    hide Admitted, Takes, Legal, Start, RqSize, RspSize, AddAll;
    StartSizes(last);
    AddAllMore(cfg, Start(last), ts, t);
    TakesIs(cfg, SetTrans(cfg, last, ts).st, t);
  }

  /** Without wrapping, a read or write at any address, of any alignment and length, is accepted on its own exactly
      if its payload leaves room: with default buffers up to 65459 bytes for a read, 65455 for a write. */
  lemma ShortAccepted(cfg: Config, last: nat, t: Trans)
    requires Legal(cfg) && !t.acc.kind.Fill? && t.acc.n < TWO32 - 16
    ensures SetTrans(cfg, last, [t]).ok <==>
      && t.acc.n > 0 && (t.acc.am <= 15 || t.acc.am == 132)
      && if t.acc.kind == Read then t.acc.n + 12 < cfg.maxRspSize else t.acc.n + 16 < 4 * cfg.rqWiMax
  {
    hide SetTrans;
    OneAccepted(cfg, last, t);
  }

  lemma {:induction false} RefusedFrom(cfg: Config, st: Enc, ts: seq<Trans>)
    requires Legal(cfg) && Sane(st) && !AddAll(cfg, st, ts).ok
    ensures var s := AddAll(cfg, st, ts).st; s == Start(s.last)
    decreases |ts|
  {
    hide Admitted, Compile, Apply, Record, Mapped, Sane, Legal;
    TryAddSane(cfg, st, ts[0]);
    if TryAdd(cfg, st, ts[0]).Some? {
      RefusedFrom(cfg, TryAdd(cfg, st, ts[0]).value, ts[1..]);
    }
  }

  /** All or nothing: of a refused list nothing is kept. */
  lemma RefusedLeavesNothing(cfg: Config, last: nat, ts: seq<Trans>)
    requires Legal(cfg) && !SetTrans(cfg, last, ts).ok
    ensures var s := SetTrans(cfg, last, ts).st;
      && s.closed == [] && s.cmds == [] && s.num == 0 && s.pl0 == [] && s.rw == [] && s.wire == []
      && s.wi == 3 && s.rsp == 8 && s.mask == 0 && s.ctx == Ctx(0, 0, 0)
  {
    if ts != [] {
      StartSizes(last);
      RefusedFrom(cfg, Start(last), ts);
    }
  }

  // ---- A size that is always enough for a list ----

  /** A bound on what a list adds to request and reply. */
  function ListCost(ts: seq<Trans>): nat {
    if ts == [] then 0 else 113 * ts[0].acc.n + 820 + ListCost(ts[1..])
  }

  /** Does t have the form of an acceptable transaction, whatever its size? */
  predicate WellFormed(t: Trans) {
    var a := t.acc;
    a.n > 0 && if a.kind == Fill then a.addr % 8 == 0 && a.n % 8 == 0 && a.mode == 0 && a.am <= 11 else a.am <= 15 || a.am == 132
  }

  ghost predicate AllWellFormed(ts: seq<Trans>) {
    forall i :: 0 <= i < |ts| ==> WellFormed(ts[i])
  }

  lemma FormTaken(cfg: Config, st: Enc, t: Trans, rest: nat)
    requires Legal(cfg) && WellFormed(t)
    requires Total(st) + 113 * t.acc.n + 820 + rest < 4 * cfg.rqWiMax && Total(st) + 113 * t.acc.n + 820 + rest < cfg.maxRspSize
    ensures Admitted(cfg, st, t) && t.acc.n > 0
  {
    TakesIs(cfg, st, t);
  }

  lemma {:induction false} EnoughRoom(cfg: Config, st: Enc, ts: seq<Trans>)
    requires Legal(cfg) && Sane(st) && AllWellFormed(ts)
    requires Total(st) + ListCost(ts) < 4 * cfg.rqWiMax && Total(st) + ListCost(ts) < cfg.maxRspSize
    ensures AddAll(cfg, st, ts).ok
    decreases |ts|
  {
    hide Legal, Sane, Total, Admitted, Compile, Apply, Record, Mapped, WellFormed;
    if ts == [] {
      AddAllNone(cfg, st);
    } else {
      assert WellFormed(ts[0]);
      FormTaken(cfg, st, ts[0], ListCost(ts[1..]));
      TransCost(cfg, st, ts[0]);
      TryAddSane(cfg, st, ts[0]);
      EnoughRoom(cfg, TryAdd(cfg, st, ts[0]).value, ts[1..]);
    }
  }

  /** Every list of well-formed transactions whose cost is less than both buffers is accepted; and only such
      transactions are. */
  lemma ListAccepted(cfg: Config, last: nat, ts: seq<Trans>)
    requires Legal(cfg) && ts != []
    ensures AllWellFormed(ts) && 20 + ListCost(ts) < 4 * cfg.rqWiMax && 20 + ListCost(ts) < cfg.maxRspSize ==> SetTrans(cfg, last, ts).ok
    ensures SetTrans(cfg, last, ts).ok ==> AllWellFormed(ts)
  {
    StartSizes(last);
    assert Total(Start(last)) == 20;
    hide *;
    TheList(cfg, last, ts);
    if AllWellFormed(ts) && 20 + ListCost(ts) < 4 * cfg.rqWiMax && 20 + ListCost(ts) < cfg.maxRspSize {
      EnoughRoom(cfg, Start(last), ts);
    }
    if SetTrans(cfg, last, ts).ok {
      OnlyWellFormed(cfg, Start(last), ts);
    }
  }

  lemma TheList(cfg: Config, last: nat, ts: seq<Trans>)
    requires Legal(cfg) && ts != [] && Sane(Start(last))
    ensures SetTrans(cfg, last, ts) == AddAll(cfg, Start(last), ts)
  {}

  lemma {:induction false} OnlyWellFormed(cfg: Config, st: Enc, ts: seq<Trans>)
    requires Legal(cfg) && Sane(st) && AddAll(cfg, st, ts).ok
    ensures AllWellFormed(ts)
    decreases |ts|
  {
    hide Legal, Sane, Compile, Apply, Record, Mapped, Takes, Admitted, WellFormed;
    if ts != [] {
      TryAddSane(cfg, st, ts[0]);
      TakesIs(cfg, st, ts[0]);
      FormOf(cfg, RqSize(st), RspSize(st), ts[0]);
      OnlyWellFormed(cfg, TryAdd(cfg, st, ts[0]).value, ts[1..]);
      assert forall i :: 0 < i < |ts| ==> ts[i] == ts[1..][i - 1];
    }
  }

  lemma FormOf(cfg: Config, rq: nat, rsp: nat, t: Trans)
    requires Takes(cfg, rq, rsp, t)
    ensures WellFormed(t)
  {}
}
