/** When the lengths of a request fit the 16 bits of its results. */
module ResultSize {
  import opened Words
  import opened Errors
  import opened Protocol
  import opened Semantics
  import opened Encoder
  import opened Tiling
  import opened Request
  import opened Limits
  import opened Reply
  import opened Aggregate

  /** Bytes of the request and its reply so far. */
  function Total(st: Enc): nat {
    4 * st.wi + st.rsp
  }

  /** What a step adds to both at most: two packet switches, three context commands, and the access. */
  function ActCost(act: Act): nat {
    match act
    case Fin => 28
    case Add(p) => if p.acc.n == 0 then 0 else 2 * p.acc.n + 110
  }

  function ActsCost(acts: seq<Act>): nat {
    if acts == [] then 0 else ActCost(acts[0]) + ActsCost(acts[1..])
  }

  lemma EmitCost(cfg: Config, st: Enc, p: Trans)
    ensures Total(Emit(cfg, st, p)) <= Total(st) + 2 * p.acc.n + 54
  {
    hide BaseOf, OnWire, SetBit;
  }

  lemma MakeRoomCost(cfg: Config, st: Enc, a: Access)
    ensures Total(MakeRoom(cfg, st, a)) <= Total(st) + 56
  {
    hide NeedRq, Sufficient, RspBytes;
  }

  lemma DoCost(cfg: Config, st: Enc, act: Act)
    ensures Total(Do(cfg, st, act)) <= Total(st) + ActCost(act)
  {
    if act.Add? && act.p.acc.n > 0 {
      MakeRoomCost(cfg, st, act.p.acc);
      EmitCost(cfg, MakeRoom(cfg, st, act.p.acc), act.p);
      hide MakeRoom, Emit, Total;
    }
  }

  lemma {:induction false} ApplyCost(cfg: Config, st: Enc, acts: seq<Act>)
    ensures Total(Apply(cfg, st, acts)) <= Total(st) + ActsCost(acts)
    decreases |acts|
  {
    hide Do, Total, ActCost;
    if acts != [] {
      DoCost(cfg, st, acts[0]);
      ApplyCost(cfg, Do(cfg, st, acts[0]), acts[1..]);
    }
  }

  lemma {:induction false} CostAppend(a: seq<Act>, b: seq<Act>)
    ensures ActsCost(a + b) == ActsCost(a) + ActsCost(b)
  {
    hide ActCost;
    if a == [] {
      assert a + b == b;
    } else {
      assert (a + b)[1..] == a[1..] + b;
      CostAppend(a[1..], b);
    }
  }

  lemma CostOne(act: Act)
    ensures ActsCost([act]) == ActCost(act) && ActsCost([]) == 0
  {
    assert [act][1..] == [];
  }

  lemma CutCost(c: bool, t: Trans, off: nat, k: nat)
    requires k <= 4
    ensures ActsCost(Cut(c, t, off, k)) <= 118
  {
    var act := Add(Sub(t, off, k));
    assert ActCost(act) <= 118;
    hide Sub, ActCost;
    CostOne(act);
  }

  lemma HeadCost(t: Trans)
    ensures ActsCost(HeadActs(t)) <= 354
  {
    var o1 := Skip(HeadCut(t, 0, 1), 0, 1);
    var o2 := Skip(HeadCut(t, o1, 2), o1, 2);
    hide HeadCut, Cut, Skip, ActsCost;
    var a, b, c := Cut(HeadCut(t, 0, 1), t, 0, 1), Cut(HeadCut(t, o1, 2), t, o1, 2), Cut(HeadCut(t, o2, 4), t, o2, 4);
    CutCost(HeadCut(t, 0, 1), t, 0, 1);
    CutCost(HeadCut(t, o1, 2), t, o1, 2);
    CutCost(HeadCut(t, o2, 4), t, o2, 4);
    CostAppend(a + b, c);
    CostAppend(a, b);
  }

  lemma TailCost(t: Trans)
    ensures ActsCost(TailActs(t)) <= 354
  {
    var o1 := BlocksEnd(t);
    var o2 := Skip(TailCut(t, o1, 4), o1, 4);
    var o3 := Skip(TailCut(t, o2, 2), o2, 2);
    hide TailCut, Cut, Skip, ActsCost, BlocksEnd;
    var a, b, c := Cut(TailCut(t, o1, 4), t, o1, 4), Cut(TailCut(t, o2, 2), t, o2, 2), Cut(TailCut(t, o3, 1), t, o3, 1);
    CutCost(TailCut(t, o1, 4), t, o1, 4);
    CutCost(TailCut(t, o2, 2), t, o2, 2);
    CutCost(TailCut(t, o3, 1), t, o3, 1);
    CostAppend(a + b, c);
    CostAppend(a, b);
  }

  lemma RoundCost(t: Trans, off: nat, nb: nat)
    requires off + nb <= t.acc.n
    ensures ActsCost(BlkRound(t, off, nb)) <= (if nb == 0 then 0 else 2 * nb + 110) + 28
  {
    var act := Add(Sub(t, off, nb));
    var tail := BlkRound(t, off, nb)[1..];
    assert ActCost(act) == (if nb == 0 then 0 else 2 * nb + 110) && ActCost(Fin) == 28;
    hide Sub, ActCost;
    CostOne(Fin);
    assert tail == [] || tail == [Fin];
  }

  /** Does the block loop have to switch packets first? */
  predicate Waits(cfg: Config, st: Enc, t: Trans, off: nat)
    requires off <= t.acc.n
  {
    t.acc.n - off >= 8 && Blk(cfg, st, t.acc.kind, t.acc.n - off, t.acc.addr + off) == 0
  }

  lemma AfterEmpty(cfg: Config, st: Enc, t: Trans, off: nat)
    requires Legal(cfg) && Sane(st) && off + 8 <= t.acc.n && Waits(cfg, st, t, off)
    ensures !Waits(cfg, Apply(cfg, st, BlkRound(t, off, 0)), t, off)
  {
    var p := Sub(t, off, 0);
    assert p.acc.n == 0;
    hide Sub, Blk, Legal, Sane;
    assert BlkRound(t, off, 0) == [Add(p)] + [Fin];
    ApplyAppend(cfg, st, [Add(p)], [Fin]);
    ApplyOne(cfg, st, p);
    assert [Fin][1..] == [] && Apply(cfg, st, [Fin]) == Finalize(st);
    FreshTakes(cfg, Finalize(st), t.acc.kind, t.acc.n - off, t.acc.addr + off);
  }

  lemma {:induction false} BlocksCost(cfg: Config, st: Enc, t: Trans, off: nat)
    requires Legal(cfg) && Sane(st) && off <= t.acc.n
    ensures ActsCost(Blocks(cfg, st, t, off)) <= 24 * (t.acc.n - off) + if Waits(cfg, st, t, off) then 56 else 28
    decreases t.acc.n - off, Used(st)
  {
    hide Blk, BlkRound, Apply, Legal, Sane, ActsCost;
    if t.acc.n - off >= 8 {
      var nb := Blk(cfg, st, t.acc.kind, t.acc.n - off, t.acc.addr + off);
      var round := BlkRound(t, off, nb);
      BlkRoundProgress(cfg, st, t, off);
      var s := Apply(cfg, st, round);
      BlocksCost(cfg, s, t, off + nb);
      RoundCost(t, off, nb);
      CostAppend(round, Blocks(cfg, s, t, off + nb));
      if nb == 0 {
        AfterEmpty(cfg, st, t, off);
      }
    } else {
      CostOne(Fin);
    }
  }

  lemma {:induction false} FillsCost(t: Trans, off: nat)
    ensures ActsCost(FillActs(t, off)) <= if off < t.acc.n then 112 * (t.acc.n - off) else 0
    decreases t.acc.n - off
  {
    if off < t.acc.n {
      var k := Min(t.acc.n - off, BLK_SIZE);
      var act := Add(Sub(t, off, k));
      assert ActCost(act) <= 112 * k;
      FillsCost(t, off + k);
      assert FillActs(t, off) == [act] + FillActs(t, off + k);
      hide Sub, ActCost, FillActs, ActsCost;
      CostOne(act);
      CostAppend([act], FillActs(t, off + k));
    }
  }

  lemma OpeningCost(cfg: Config, st: Enc, t: Trans)
    requires Legal(cfg)
    ensures ActsCost(Opening(cfg, st, t)) <= 56
  {
    hide Manageable, NewPacket, Apply, ActsCost;
    var a := FinIf(!Manageable(cfg, st, t));
    var b := FinIf(NewPacket(cfg, Apply(cfg, st, a), Mapped(t), t.acc.am));
    CostOne(Fin);
    assert ActCost(Fin) == 28;
    CostAppend(a, b);
  }

  lemma BodyCost(cfg: Config, st: Enc, t: Trans)
    requires Legal(cfg) && Sane(st) && t.acc.n > 0
    ensures ActsCost(BodyActs(cfg, st, t)) <= 112 * t.acc.n + 764
  {
    var m := Mapped(t);
    assert m.acc.n == t.acc.n;
    hide HeadActs, TailActs, HeadEnd, Apply, Sane, Legal, Mapped, FillActs, ActsCost, Waits;
    if t.acc.kind.Fill? {
      FillsCost(t, 0);
    } else {
      ApplySane(cfg, st, HeadActs(m));
      var blocks := Blocks(cfg, Apply(cfg, st, HeadActs(m)), m, HeadEnd(m));
      HeadCost(m);
      BlocksCost(cfg, Apply(cfg, st, HeadActs(m)), m, HeadEnd(m));
      TailCost(m);
      CostAppend(HeadActs(m) + blocks, TailActs(m));
      CostAppend(HeadActs(m), blocks);
    }
  }

  /** A transaction of n bytes adds at most 112 bytes per byte to request and reply, and 820 more. */
  lemma TransCost(cfg: Config, st: Enc, t: Trans)
    requires Legal(cfg) && Sane(st) && t.acc.n > 0
    ensures Total(Record(Apply(cfg, st, Compile(cfg, st, t)), Mapped(t))) <= Total(st) + 112 * t.acc.n + 820
  {
    hide Apply, Compile, Opening, BodyActs, ActsCost, Mapped, Sane, Legal;
    var open := Opening(cfg, st, t);
    var s := Apply(cfg, st, open);
    CompileIs(cfg, st, t);
    OpeningCost(cfg, st, t);
    BodyCost(cfg, s, t);
    CostAppend(open, BodyActs(cfg, s, t));
    ApplyCost(cfg, st, Compile(cfg, st, t));
  }

  // ---- Lengths and sums ----

  /** Buffers of at most 64 KB, as the default ones. */
  predicate Small(cfg: Config) {
    Legal(cfg) && cfg.maxRspSize <= TWO16 && 4 * cfg.rqWiMax <= TWO16
  }

  ghost predicate ShortAll(ts: seq<Trans>) {
    forall t :: 0 <= t < |ts| ==> ts[t].acc.n < TWO16
  }

  /** The length of an admitted transaction fits 16 bits exactly if the sum it was checked with did not wrap;
      and then request and reply were short before it. */
  lemma AdmittedShort(cfg: Config, st: Enc, t: Trans)
    requires Small(cfg) && Admitted(cfg, st, t) && t.acc.n < TWO32 && Total(st) < 0x100_0000
    ensures t.acc.n > 0
    ensures t.acc.n < TWO16 <==> CheckSum(st, t) < TWO32
    ensures t.acc.n < TWO16 ==> Total(st) < 2 * TWO16
  {
    var x := CheckSum(st, t);
    assert W32(x) < TWO16;
    if x < TWO32 {
      assert W32(x) == x;
    } else {
      assert t.acc.n >= TWO16;
    }
  }

  lemma {:induction false} ShortFrom(cfg: Config, st: Enc, ts: seq<Trans>)
    requires Small(cfg) && Sane(st) && Total(st) < 0x100_0000 && ValidAll(ts) && AddAll(cfg, st, ts).ok
    ensures Unwrapped(cfg, st, ts) <==> ShortAll(ts)
    decreases |ts|
  {
    hide Admitted, Compile, Apply, Record, Mapped, Sane, CheckSum, Total;
    if ts != [] {
      var t := ts[0];
      assert ValidTrans(t);
      AddAllStep(cfg, st, ts);
      AdmittedShort(cfg, st, t);
      TryAddSane(cfg, st, t);
      var s := TryAdd(cfg, st, t).value;
      if t.acc.n < TWO16 {
        TransCost(cfg, st, t);
        ShortFrom(cfg, s, ts[1..]);
        assert ShortAll(ts) <==> ShortAll(ts[1..]) by { ShortTail(ts); }
      }
    }
  }

  lemma ShortTail(ts: seq<Trans>)
    requires ts != [] && ts[0].acc.n < TWO16
    ensures ShortAll(ts) <==> ShortAll(ts[1..])
  {
    assert forall t :: 0 < t < |ts| ==> ts[t] == ts[1..][t - 1];
  }

  lemma StartSmall(last: nat)
    ensures Sane(Start(last)) && Total(Start(last)) < 0x100_0000
  {}

  /** With buffers of at most 64 KB, all lengths of an accepted list fit 16 bits exactly if no sum of the
      buffer check wrapped around. */
  lemma ResultsFit(cfg: Config, last: nat, ts: seq<Trans>)
    requires Small(cfg) && ValidAll(ts) && SetTrans(cfg, last, ts).ok
    ensures Sane(Start(last)) && (Unwrapped(cfg, Start(last), ts) <==> ShortAll(ts))
  {
    hide Small, AddAll, Unwrapped, ShortAll, Start, ValidAll;
    StartSmall(last);
    assert Legal(cfg) by { SmallLegal(cfg); }
    ShortFrom(cfg, Start(last), ts);
  }

  lemma SmallLegal(cfg: Config)
    requires Small(cfg)
    ensures Legal(cfg)
  {}

  /** Then, if nothing fails and no split transaction ends at 2^64, every result is the length itself. */
  lemma FullLengths(cfg: Config, last: nat, ts: seq<Trans>, prior: seq<Rsp>)
    requires Small(cfg) && last < TWO16 && ValidAll(ts) && SetTrans(cfg, last, ts).ok && |prior| == |ts|
    requires Sane(Start(last)) && Unwrapped(cfg, Start(last), ts)
    ensures var st := SetTrans(cfg, last, ts).st;
      && |st.rw| == |st.cuts| == |ts| > 0
      && ((forall t :: 0 <= t < |ts| ==> EndKept(st, t)) ==>
          && |TransRsp(st.rw, st.pl0, AllFine(st.pl0), prior)| == |ts|
          && forall t {:trigger ts[t]} :: 0 <= t < |ts| ==>
              TransRsp(st.rw, st.pl0, AllFine(st.pl0), prior)[t] == Rsp(ts[t].acc.n, NO_ERROR))
  {
    hide SetTrans, TransRsp, EndKept, AllFine, Unwrapped, Small, Legal, ValidTrans, ShortAll, Start, Sane;
    SmallLegal(cfg);
    ResultsFit(cfg, last, ts);
    FineAggregated(cfg, last, ts, prior);
    var st := SetTrans(cfg, last, ts).st;
    if forall t :: 0 <= t < |ts| ==> EndKept(st, t) {
      FineLen(st.pl0);
      ShortExact(ts, TransRsp(st.rw, st.pl0, AllFine(st.pl0), prior));
    }
  }

  lemma ShortExact(ts: seq<Trans>, out: seq<Rsp>)
    requires ShortAll(ts) && |out| == |ts| && forall t {:trigger ts[t]} :: 0 <= t < |ts| ==> out[t] == Rsp(ts[t].acc.n % TWO16, NO_ERROR)
    ensures forall t {:trigger ts[t]} :: 0 <= t < |ts| ==> out[t] == Rsp(ts[t].acc.n, NO_ERROR)
  {}
}
