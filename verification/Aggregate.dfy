/** Folding PL0 results back to the transactions of the API. */
module Aggregate {
  import opened Words
  import opened Errors
  import opened Semantics
  import opened Encoder
  import opened Invariant
  import opened Request
  import opened Compiler
  import opened Reply

  /** t: current transaction; end: its end address; out: results so far. */
  datatype Agg = Agg(t: nat, end: nat, out: seq<Rsp>)

  /** Result of a transaction after one more piece: only up to the first error, in 16 bits. */
  function Accumulate(cur: Rsp, r: Rsp): Rsp {
    if cur.err == NO_ERROR then Rsp((cur.ok + r.ok) % TWO16, r.err) else cur
  }

  const START_RSP := Rsp(0, NO_ERROR)

  /** One round of the loop over the PL0 records: pieces are matched by address. */
  function AggStep(rw: seq<Trans>, p: Trans, r: Rsp, s: Agg): Agg
    requires s.t < |rw| == |s.out|
  {
    var a := rw[s.t].acc;
    var end := if p.acc.addr == a.addr then W64(a.addr + a.n) else s.end;
    var out := s.out[s.t := Accumulate(s.out[s.t], r)];
    if W64(p.acc.addr + p.acc.n) < end then Agg(s.t, end, out)
    else Agg(s.t + 1, end, if s.t + 1 < |rw| then out[s.t + 1 := START_RSP] else out)
  }

  function AggLoop(rw: seq<Trans>, pl0: seq<Trans>, recs: seq<Rsp>, p: nat, s: Agg): seq<Rsp>
    requires s.t < |rw| == |s.out| && |recs| == |pl0| && p <= |pl0|
    decreases |pl0| - p
  {
    if p == |pl0| then s.out
    else
      var s1 := AggStep(rw, pl0[p], recs[p], s);
      if s1.t == |rw| then s1.out else AggLoop(rw, pl0, recs, p + 1, s1)
  }

  /** rw_get_trans_rsp: prior is what the result array held before. */
  function TransRsp(rw: seq<Trans>, pl0: seq<Trans>, recs: seq<Rsp>, prior: seq<Rsp>): seq<Rsp>
    requires 0 < |rw| == |prior| && |recs| == |pl0|
  {
    AggLoop(rw, pl0, recs, 0, Agg(0, 0, prior[0 := START_RSP]))
  }

  // ---- What a transaction's result should be ----

  /** Pieces up to and including the first failing one. */
  function Counted(recs: seq<Rsp>): nat {
    if recs == [] then 0 else if recs[0].err != NO_ERROR then 1 else 1 + Counted(recs[1..])
  }

  function SumOk(recs: seq<Rsp>): nat {
    if recs == [] then 0 else recs[0].ok + SumOk(recs[1..])
  }

  lemma {:induction false} CountedLe(recs: seq<Rsp>)
    ensures Counted(recs) <= |recs|
  {
    if recs != [] {
      CountedLe(recs[1..]);
    }
  }

  /** The first piece error, and the bytes done up to and including that piece, in 16 bits. */
  function Summary(recs: seq<Rsp>): Rsp {
    CountedLe(recs);
    var k := Counted(recs);
    Rsp(SumOk(recs[..k]) % TWO16, if k == 0 then NO_ERROR else recs[k - 1].err)
  }

  function Fold(cur: Rsp, recs: seq<Rsp>): Rsp
    decreases |recs|
  {
    if recs == [] then cur else Fold(Accumulate(cur, recs[0]), recs[1..])
  }

  lemma {:induction false} FoldAppend(cur: Rsp, recs: seq<Rsp>, r: Rsp)
    ensures Fold(cur, recs + [r]) == Accumulate(Fold(cur, recs), r)
    decreases |recs|
  {
    hide Accumulate;
    if recs == [] {
      assert ([] + [r])[1..] == [];
    } else {
      assert (recs + [r])[1..] == recs[1..] + [r];
      FoldAppend(Accumulate(cur, recs[0]), recs[1..], r);
    }
  }

  lemma {:induction false} FoldStuck(cur: Rsp, recs: seq<Rsp>)
    requires cur.err != NO_ERROR
    ensures Fold(cur, recs) == cur
    decreases |recs|
  {
    if recs != [] {
      FoldStuck(cur, recs[1..]);
    }
  }

  lemma ModAdd(a: nat, b: nat)
    ensures (a % TWO16 + b) % TWO16 == (a + b) % TWO16
  {}

  lemma {:induction false} FoldIsSummary(x: nat, recs: seq<Rsp>)
    ensures Counted(recs) <= |recs|
    ensures Fold(Rsp(x % TWO16, NO_ERROR), recs) == Rsp((x + SumOk(recs[..Counted(recs)])) % TWO16, Summary(recs).err)
    decreases |recs|
  {
    CountedLe(recs);
    if recs != [] {
      var r, k := recs[0], Counted(recs);
      ModAdd(x, r.ok);
      assert recs[..k][0] == r && recs[..k][1..] == recs[1..][..k - 1];
      if r.err != NO_ERROR {
        FoldStuck(Accumulate(Rsp(x % TWO16, NO_ERROR), r), recs[1..]);
        assert SumOk(recs[..k][1..]) == 0;
      } else {
        FoldIsSummary(x + r.ok, recs[1..]);
      }
    }
  }

  // ---- Addresses of the pieces ----

  function Off(ps: seq<Trans>, j: nat): nat
    requires j <= |ps|
  {
    if j == 0 then 0 else Off(ps, j - 1) + ps[j - 1].acc.n
  }

  lemma {:induction false} OffCons(ps: seq<Trans>, j: nat)
    requires 0 < j <= |ps|
    ensures Off(ps, j) == ps[0].acc.n + Off(ps[1..], j - 1)
    decreases j
  {
    if j > 1 {
      OffCons(ps, j - 1);
    }
  }

  lemma {:induction false} TileAt(t: Trans, lo: nat, ps: seq<Trans>, hi: nat, j: nat)
    requires Tile(t, lo, ps, hi) && j < |ps|
    ensures ps[j].acc.addr == t.acc.addr + lo + Off(ps, j) && ps[j].acc.n > 0
    ensures if j == |ps| - 1 then lo + Off(ps, j) + ps[j].acc.n == hi else lo + Off(ps, j) + ps[j].acc.n < hi
    decreases |ps|
  {
    var n := ps[0].acc.n;
    assert ps[0].acc.addr == t.acc.addr + lo;
    hide Sub;
    TileLe(t, lo + n, ps[1..], hi);
    if j > 0 {
      OffCons(ps, j);
      TileAt(t, lo + n, ps[1..], hi, j - 1);
    } else if |ps| > 1 {
      TileAt(t, lo + n, ps[1..], hi, 0);
    }
  }

  /** The addresses of transaction t's record number p, as the aggregation sees them. */
  lemma PieceAddr(st: Enc, t: nat, p: nat)
    requires GroupsOk(st) && t < |st.rw| && Lo(st.cuts, t) <= p < st.cuts[t]
    ensures p < |st.pl0|
    ensures var a, b := st.rw[t].acc, st.pl0[p].acc;
      && (b.addr == a.addr <==> p == Lo(st.cuts, t))
      && (if p == st.cuts[t] - 1 then b.addr + b.n == a.addr + a.n else b.addr + b.n < a.addr + a.n)
  {
    var lo, hi := Lo(st.cuts, t), st.cuts[t];
    assert GroupOk(st.pl0, st.rw[t], lo, hi);
    var ps := st.pl0[lo..hi];
    TileAt(st.rw[t], 0, ps, st.rw[t].acc.n, p - lo);
    if p > lo {
      TileAt(st.rw[t], 0, ps, st.rw[t].acc.n, p - lo - 1);
    }
  }

  // ---- The loop over one transaction's records ----

  /** The end address does not wrap to 0, or there is only one piece. */
  predicate EndKept(st: Enc, t: nat)
    requires t < |st.rw| && |st.rw| == |st.cuts|
  {
    st.rw[t].acc.addr + st.rw[t].acc.n < TWO64 || st.cuts[t] == Lo(st.cuts, t) + 1
  }

  ghost predicate Room64(st: Enc) {
    forall t :: 0 <= t < |st.rw| ==> st.rw[t].acc.addr + st.rw[t].acc.n <= TWO64
  }

  /** State in front of record p of transaction t. */
  ghost predicate AtPiece(st: Enc, recs: seq<Rsp>, t: nat, p: nat, s: Agg)
    requires |st.rw| == |st.cuts| && t < |st.rw| && |recs| == |st.pl0|
  {
    && Lo(st.cuts, t) <= p <= st.cuts[t] <= |st.pl0|
    && s.t == t && |s.out| == |st.rw|
    && s.out[t] == Fold(START_RSP, recs[Lo(st.cuts, t)..p])
    && (p > Lo(st.cuts, t) ==> s.end == st.rw[t].acc.addr + st.rw[t].acc.n)
  }

  lemma AggPiece(st: Enc, recs: seq<Rsp>, t: nat, p: nat, s: Agg)
    requires GroupsOk(st) && Room64(st) && |recs| == |st.pl0| && t < |st.rw| && EndKept(st, t)
    requires AtPiece(st, recs, t, p, s) && p < st.cuts[t]
    ensures var s1 := AggStep(st.rw, st.pl0[p], recs[p], s);
      var all := Fold(START_RSP, recs[Lo(st.cuts, t)..p + 1]);
      && |s1.out| == |s.out| && s1.out[t] == all
      && (forall i :: 0 <= i < t ==> s1.out[i] == s.out[i])
      && if p + 1 < st.cuts[t] then AtPiece(st, recs, t, p + 1, s1)
         else s1.t == t + 1 && (t + 1 < |st.rw| ==> s1.out[t + 1] == START_RSP)
  {
    hide GroupOk, Fold, Accumulate;
    var lo := Lo(st.cuts, t);
    PieceAddr(st, t, p);
    FoldAppend(START_RSP, recs[lo..p], recs[p]);
    assert recs[lo..p + 1] == recs[lo..p] + [recs[p]];
  }

  lemma {:induction false} AggGroup(st: Enc, recs: seq<Rsp>, t: nat, p: nat, s: Agg)
    requires GroupsOk(st) && Room64(st) && |recs| == |st.pl0| && t < |st.rw| && EndKept(st, t)
    requires AtPiece(st, recs, t, p, s) && p < st.cuts[t]
    ensures exists s1: Agg ::
      && |s1.out| == |s.out| && s1.out[t] == Fold(START_RSP, recs[Lo(st.cuts, t)..st.cuts[t]])
      && (forall i :: 0 <= i < t ==> s1.out[i] == s.out[i])
      && s1.t == t + 1 && (t + 1 < |st.rw| ==> s1.out[t + 1] == START_RSP)
      && AggLoop(st.rw, st.pl0, recs, p, s) ==
         if t + 1 == |st.rw| then s1.out else AggLoop(st.rw, st.pl0, recs, st.cuts[t], s1)
    decreases st.cuts[t] - p
  {
    hide GroupOk, Fold, Room64, EndKept, AggStep;
    var s1 := AggStep(st.rw, st.pl0[p], recs[p], s);
    AggPiece(st, recs, t, p, s);
    if p + 1 < st.cuts[t] {
      AggGroup(st, recs, t, p + 1, s1);
    }
  }

  // ---- All transactions ----

  ghost predicate NonEmptyGroups(st: Enc) {
    |st.rw| == |st.cuts| && forall t {:trigger st.rw[t]} :: 0 <= t < |st.rw| ==> Lo(st.cuts, t) < st.cuts[t]
  }

  lemma GroupsNonEmpty(st: Enc)
    requires GroupsOk(st) && forall t :: 0 <= t < |st.rw| ==> st.rw[t].acc.n > 0
    ensures NonEmptyGroups(st)
  {
    forall t | 0 <= t < |st.rw| ensures Lo(st.cuts, t) < st.cuts[t] {
      assert GroupOk(st.pl0, st.rw[t], Lo(st.cuts, t), st.cuts[t]);
    }
  }

  /** The results of transactions k and later. */
  lemma {:induction false} AggRest(st: Enc, recs: seq<Rsp>, k: nat, s: Agg)
    requires GroupsOk(st) && NonEmptyGroups(st) && Room64(st) && |recs| == |st.pl0| && k < |st.rw|
    requires forall t :: k <= t < |st.rw| ==> EndKept(st, t)
    requires s.t == k && |s.out| == |st.rw| && s.out[k] == START_RSP
    ensures Lo(st.cuts, k) <= |st.pl0|
    ensures var out := AggLoop(st.rw, st.pl0, recs, Lo(st.cuts, k), s);
      && |out| == |st.rw| && (forall i :: 0 <= i < k ==> out[i] == s.out[i])
      && forall t {:trigger out[t]} :: k <= t < |st.rw| ==> GroupDone(st, recs, t, out[t])
    decreases |st.rw| - k
  {
    hide GroupOk, Room64, Fold, EndKept, AggLoop;
    assert EndKept(st, k) && st.rw[k] == st.rw[k];
    assert GroupOk(st.pl0, st.rw[k], Lo(st.cuts, k), st.cuts[k]);
    assert Lo(st.cuts, k) <= st.cuts[k] <= |st.pl0| by { GroupBounds(st, k); }
    assert recs[Lo(st.cuts, k)..Lo(st.cuts, k)] == [] && Fold(START_RSP, []) == START_RSP by { FoldNone(START_RSP); }
    AggGroup(st, recs, k, Lo(st.cuts, k), s);
    var s1: Agg :|
      && |s1.out| == |s.out| && s1.out[k] == Fold(START_RSP, recs[Lo(st.cuts, k)..st.cuts[k]])
      && (forall i :: 0 <= i < k ==> s1.out[i] == s.out[i])
      && s1.t == k + 1 && (k + 1 < |st.rw| ==> s1.out[k + 1] == START_RSP)
      && AggLoop(st.rw, st.pl0, recs, Lo(st.cuts, k), s) ==
         if k + 1 == |st.rw| then s1.out else AggLoop(st.rw, st.pl0, recs, st.cuts[k], s1);
    if k + 1 < |st.rw| {
      assert Lo(st.cuts, k + 1) == st.cuts[k];
      AggRest(st, recs, k + 1, s1);
    }
  }

  ghost predicate GroupDone(st: Enc, recs: seq<Rsp>, t: nat, r: Rsp)
    requires |st.rw| == |st.cuts| && t < |st.rw| && |recs| == |st.pl0|
  {
    Lo(st.cuts, t) <= st.cuts[t] <= |recs| && r == Fold(START_RSP, recs[Lo(st.cuts, t)..st.cuts[t]])
  }

  lemma GroupBounds(st: Enc, t: nat)
    requires GroupsOk(st) && t < |st.rw|
    ensures Lo(st.cuts, t) <= st.cuts[t] <= |st.pl0|
  {
    assert GroupOk(st.pl0, st.rw[t], Lo(st.cuts, t), st.cuts[t]);
  }

  lemma FoldNone(c: Rsp)
    ensures Fold(c, []) == c
  {}

  /** The result of transaction t is the summary of its own records. */
  ghost predicate ResultOk(st: Enc, recs: seq<Rsp>, t: nat, r: Rsp)
    requires |st.rw| == |st.cuts| && t < |st.rw|
  {
    Lo(st.cuts, t) <= st.cuts[t] <= |recs| && r == Summary(recs[Lo(st.cuts, t)..st.cuts[t]])
  }

  ghost predicate Correct(st: Enc, recs: seq<Rsp>, prior: seq<Rsp>)
    requires |st.rw| == |st.cuts| && 0 < |st.rw| == |prior| && |recs| == |st.pl0|
  {
    var out := TransRsp(st.rw, st.pl0, recs, prior);
    |out| == |st.rw| && forall t {:trigger out[t]} :: 0 <= t < |st.rw| ==> ResultOk(st, recs, t, out[t])
  }

  lemma AggregateCorrect(st: Enc, recs: seq<Rsp>, prior: seq<Rsp>)
    requires GroupsOk(st) && NonEmptyGroups(st) && Room64(st) && |recs| == |st.pl0| && 0 < |st.rw| == |prior|
    requires forall t :: 0 <= t < |st.rw| ==> EndKept(st, t)
    ensures Correct(st, recs, prior)
  {
    hide GroupOk, Room64, Fold, EndKept, AggLoop, Summary;
    var out := TransRsp(st.rw, st.pl0, recs, prior);
    AggRest(st, recs, 0, Agg(0, 0, prior[0 := START_RSP]));
    forall t | 0 <= t < |st.rw| ensures ResultOk(st, recs, t, out[t]) {
      assert GroupDone(st, recs, t, out[t]);
      FoldIsSummary(0, recs[Lo(st.cuts, t)..st.cuts[t]]);
      SummaryIs(recs[Lo(st.cuts, t)..st.cuts[t]]);
    }
  }

  lemma SummaryIs(recs: seq<Rsp>)
    ensures Counted(recs) <= |recs|
    ensures Summary(recs) == Rsp((0 + SumOk(recs[..Counted(recs)])) % TWO16, Summary(recs).err)
  {
    CountedLe(recs);
  }

  // ---- Transactions that end at 2^64 ----

  /** Results of earlier transactions are never touched again. */
  lemma {:induction false} AggKeeps(rw: seq<Trans>, pl0: seq<Trans>, recs: seq<Rsp>, p: nat, s: Agg, i: nat)
    requires s.t < |rw| == |s.out| && |recs| == |pl0| && p <= |pl0| && i < s.t
    ensures |AggLoop(rw, pl0, recs, p, s)| == |rw| && AggLoop(rw, pl0, recs, p, s)[i] == s.out[i]
    decreases |pl0| - p
  {
    hide Accumulate;
    if p < |pl0| {
      var s1 := AggStep(rw, pl0[p], recs[p], s);
      if s1.t < |rw| {
        AggKeeps(rw, pl0, recs, p + 1, s1, i);
      }
    }
  }

  /** The loop reaches transaction k in its start state if all earlier ends are kept. */
  lemma {:induction false} AggReach(st: Enc, recs: seq<Rsp>, k: nat, s0: Agg)
    requires GroupsOk(st) && NonEmptyGroups(st) && Room64(st) && |recs| == |st.pl0| && k < |st.rw|
    requires forall t :: 0 <= t < k ==> EndKept(st, t)
    requires s0.t == 0 && |s0.out| == |st.rw| && s0.out[0] == START_RSP
    ensures Lo(st.cuts, k) <= |st.pl0|
    ensures exists s: Agg ::
      && s.t == k && |s.out| == |st.rw| && s.out[k] == START_RSP
      && AggLoop(st.rw, st.pl0, recs, 0, s0) == AggLoop(st.rw, st.pl0, recs, Lo(st.cuts, k), s)
  {
    hide GroupOk, Room64, Fold, EndKept, AggLoop;
    if k > 0 {
      AggReach(st, recs, k - 1, s0);
      var s: Agg :| s.t == k - 1 && |s.out| == |st.rw| && s.out[k - 1] == START_RSP
        && AggLoop(st.rw, st.pl0, recs, 0, s0) == AggLoop(st.rw, st.pl0, recs, Lo(st.cuts, k - 1), s);
      GroupBounds(st, k - 1);
      FoldNone(START_RSP);
      assert st.rw[k - 1] == st.rw[k - 1];
      assert recs[Lo(st.cuts, k - 1)..Lo(st.cuts, k - 1)] == [];
      AggGroup(st, recs, k - 1, Lo(st.cuts, k - 1), s);
    }
  }

  /** At a split transaction that ends at 2^64 the end address wraps to 0: only its first piece counts. */
  lemma WrapStep(st: Enc, recs: seq<Rsp>, k: nat, s: Agg)
    requires GroupsOk(st) && NonEmptyGroups(st) && Room64(st) && |recs| == |st.pl0| && k < |st.rw| && !EndKept(st, k)
    requires s.t == k && |s.out| == |st.rw| && s.out[k] == START_RSP
    requires Lo(st.cuts, k) < |recs|
    ensures |AggLoop(st.rw, st.pl0, recs, Lo(st.cuts, k), s)| == |st.rw|
    ensures AggLoop(st.rw, st.pl0, recs, Lo(st.cuts, k), s)[k].err == recs[Lo(st.cuts, k)].err
  {
    hide GroupOk;
    var p := Lo(st.cuts, k);
    assert st.rw[k] == st.rw[k];
    PieceAddr(st, k, p);
    var s1 := AggStep(st.rw, st.pl0[p], recs[p], s);
    assert W64(st.rw[k].acc.addr + st.rw[k].acc.n) == 0;
    assert s1.t == k + 1 && s1.out[k].err == recs[p].err;
    hide AggStep;
    if k + 1 < |st.rw| {
      AggKeeps(st.rw, st.pl0, recs, p + 1, s1, k);
    }
  }

  const FAILED_RSP := Rsp(0, DATA_ERROR)

  function AllFine(pl0: seq<Trans>): seq<Rsp> {
    seq(|pl0|, i requires 0 <= i < |pl0| => Rsp(pl0[i].acc.n, NO_ERROR))
  }

  lemma SecondFails(recs: seq<Rsp>)
    requires |recs| >= 2 && recs[0].err == NO_ERROR && recs[1].err != NO_ERROR
    ensures Summary(recs).err == recs[1].err
  {
    assert Counted(recs[1..]) == 1;
  }

  lemma AggregateWrong(st: Enc, k: nat, prior: seq<Rsp>)
    requires GroupsOk(st) && NonEmptyGroups(st) && Room64(st) && k < |st.rw| == |prior|
    requires !EndKept(st, k) && forall t :: 0 <= t < k ==> EndKept(st, t)
    ensures Lo(st.cuts, k) + 1 < |st.pl0|
    ensures !Correct(st, AllFine(st.pl0)[Lo(st.cuts, k) + 1 := FAILED_RSP], prior)
  {
    assert st.rw[k] == st.rw[k];
    GroupBounds(st, k);
    var lo, hi := Lo(st.cuts, k), st.cuts[k];
    assert hi > lo + 1;
    var recs := AllFine(st.pl0)[lo + 1 := FAILED_RSP];
    hide GroupOk, Room64, EndKept, AggLoop, Summary;
    var s0 := Agg(0, 0, prior[0 := START_RSP]);
    AggReach(st, recs, k, s0);
    var s: Agg :| s.t == k && |s.out| == |st.rw| && s.out[k] == START_RSP
      && AggLoop(st.rw, st.pl0, recs, 0, s0) == AggLoop(st.rw, st.pl0, recs, lo, s);
    WrapStep(st, recs, k, s);
    SecondFails(recs[lo..hi]);
    assert !ResultOk(st, recs, k, TransRsp(st.rw, st.pl0, recs, prior)[k]);
  }

  lemma {:induction false} FirstWrap(st: Enc, k: nat) returns (j: nat)
    requires |st.rw| == |st.cuts| && k < |st.rw| && !EndKept(st, k)
    ensures j <= k && !EndKept(st, j) && forall t :: 0 <= t < j ==> EndKept(st, t)
  {
    hide EndKept;
    j := 0;
    while !(!EndKept(st, j))
      invariant j <= k && forall t :: 0 <= t < j ==> EndKept(st, t)
      decreases k - j
    {
      j := j + 1;
    }
  }

  /** Aggregation gives every transaction exactly the summary of its own pieces, whatever the replies,
      exactly if no transaction that was split ends at the top of the 64-bit address space. */
  lemma AggregateExactly(st: Enc, prior: seq<Rsp>)
    requires GroupsOk(st) && NonEmptyGroups(st) && Room64(st) && 0 < |st.rw| == |prior|
    ensures (forall recs: seq<Rsp> :: |recs| == |st.pl0| ==> Correct(st, recs, prior))
      <==> forall t :: 0 <= t < |st.rw| ==> EndKept(st, t)
  {
    hide GroupOk, Room64, EndKept, Correct, AllFine;
    if forall t :: 0 <= t < |st.rw| ==> EndKept(st, t) {
      forall recs: seq<Rsp> | |recs| == |st.pl0| ensures Correct(st, recs, prior) {
        AggregateCorrect(st, recs, prior);
      }
    } else {
      var k :| 0 <= k < |st.rw| && !EndKept(st, k);
      var j := FirstWrap(st, k);
      AggregateWrong(st, j, prior);
      assert |AllFine(st.pl0)| == |st.pl0| by { FineLen(st.pl0); }
      assert !Correct(st, AllFine(st.pl0)[Lo(st.cuts, j) + 1 := FAILED_RSP], prior);
    }
  }

  lemma FineLen(pl0: seq<Trans>)
    ensures |AllFine(pl0)| == |pl0|
  {}

  lemma {:induction false} AdmittedPositive(cfg: Config, st: Enc, ts: seq<Trans>)
    requires Legal(cfg) && Sane(st) && AddAll(cfg, st, ts).ok
    ensures forall i :: 0 <= i < |ts| ==> ts[i].acc.n > 0
    decreases |ts|
  {
    if ts != [] {
      AddAllStep(cfg, st, ts);
      assert ts[0].acc.n > 0;
      hide Admitted, Compile, Apply, Mapped, Sane;
      AdmittedPositive(cfg, Record(Apply(cfg, st, Compile(cfg, st, ts[0])), Mapped(ts[0])), ts[1..]);
      assert forall i :: 0 < i < |ts| ==> ts[i] == ts[1..][i - 1];
    }
  }

  /** The results of an accepted request. After any answers, every transaction gets the first error of
      its own pieces and the bytes up to and including that piece, unless it was split and ends at 2^64. */
  lemma RequestAggregated(cfg: Config, last: nat, ts: seq<Trans>, prior: seq<Rsp>)
    requires Legal(cfg) && last < TWO16 && ValidAll(ts) && SetTrans(cfg, last, ts).ok && |prior| == |ts|
    ensures var st := SetTrans(cfg, last, ts).st;
      && |st.rw| == |st.cuts| == |ts| > 0
      && ((forall recs: seq<Rsp> :: |recs| == |st.pl0| ==> Correct(st, recs, prior))
          <==> forall t :: 0 <= t < |ts| ==> EndKept(st, t))
  {
    var st := SetTrans(cfg, last, ts).st;
    AdmittedPositive(cfg, Start(last), ts);
    SetTransInv(cfg, last, true, ts);
    hide SetTrans, Inv, BoundOk, Legal, EndKept, Correct, GroupOk;
    forall t | 0 <= t < |st.rw| ensures st.rw[t].acc.n > 0 && st.rw[t].acc.addr + st.rw[t].acc.n <= TWO64 {
      assert ValidTrans(ts[t]) && st.rw[t] == Mapped(ts[t]);
    }
    GroupsNonEmpty(st);
    AggregateExactly(st, prior);
  }

  // ---- Error-free replies ----

  lemma {:induction false} FineCounted(ps: seq<Trans>)
    ensures Counted(AllFine(ps)) == |ps|
  {
    if ps != [] {
      assert AllFine(ps)[1..] == AllFine(ps[1..]);
      FineCounted(ps[1..]);
    }
  }

  lemma {:induction false} FineSum(t: Trans, lo: nat, ps: seq<Trans>, hi: nat)
    requires Tile(t, lo, ps, hi)
    ensures lo + SumOk(AllFine(ps)) == hi
    decreases |ps|
  {
    hide Sub;
    if ps != [] {
      assert AllFine(ps)[1..] == AllFine(ps[1..]);
      FineSum(t, lo + ps[0].acc.n, ps[1..], hi);
    }
  }

  lemma FineSummary(t: Trans, ps: seq<Trans>)
    requires Tile(t, 0, ps, t.acc.n)
    ensures Summary(AllFine(ps)) == Rsp(t.acc.n % TWO16, NO_ERROR)
  {
    FineCounted(ps);
    FineSum(t, 0, ps, t.acc.n);
    assert AllFine(ps)[..|ps|] == AllFine(ps);
  }

  /** If nothing fails, every transaction reports all its bytes, in 16 bits. */
  lemma FineAggregated(cfg: Config, last: nat, ts: seq<Trans>, prior: seq<Rsp>)
    requires Legal(cfg) && last < TWO16 && ValidAll(ts) && SetTrans(cfg, last, ts).ok && |prior| == |ts|
    ensures var st := SetTrans(cfg, last, ts).st;
      && |st.rw| == |st.cuts| == |ts| > 0
      && ((forall t :: 0 <= t < |ts| ==> EndKept(st, t)) ==>
          && |TransRsp(st.rw, st.pl0, AllFine(st.pl0), prior)| == |ts|
          && forall t {:trigger ts[t]} :: 0 <= t < |ts| ==>
              TransRsp(st.rw, st.pl0, AllFine(st.pl0), prior)[t] == Rsp(ts[t].acc.n % TWO16, NO_ERROR))
  {
    var st := SetTrans(cfg, last, ts).st;
    RequestAggregated(cfg, last, ts, prior);
    SetTransInv(cfg, last, true, ts);
    hide SetTrans, Inv, BoundOk, Legal, EndKept, GroupOk, TransRsp, Summary, ValidTrans;
    FineLen(st.pl0);
    if forall t :: 0 <= t < |ts| ==> EndKept(st, t) {
      assert Correct(st, AllFine(st.pl0), prior);
      var out := TransRsp(st.rw, st.pl0, AllFine(st.pl0), prior);
      forall t | 0 <= t < |ts| ensures out[t] == Rsp(ts[t].acc.n % TWO16, NO_ERROR) {
        assert ResultOk(st, AllFine(st.pl0), t, out[t]);
        FineGroup(st, t);
        assert st.rw[t] == Mapped(ts[t]);
      }
    }
  }

  lemma OneWraps(st: Enc, recs: seq<Rsp>, prior: Rsp)
    requires GroupsOk(st) && NonEmptyGroups(st) && Room64(st) && |recs| == |st.pl0| && |st.rw| == 1 && !EndKept(st, 0)
    ensures |recs| > 0 && TransRsp(st.rw, st.pl0, recs, [prior]) == [Rsp(recs[0].ok % TWO16, recs[0].err)]
  {
    hide GroupOk;
    assert st.rw[0] == st.rw[0];
    PieceAddr(st, 0, 0);
    assert W64(st.rw[0].acc.addr + st.rw[0].acc.n) == 0;
    assert AggStep(st.rw, st.pl0[0], recs[0], Agg(0, 0, [START_RSP])).t == 1;
  }

  /** An error-free single transaction that was split and ends at 2^64 reports its first piece only. */
  lemma WrappedAggregated(cfg: Config, last: nat, t: Trans, prior: Rsp)
    requires Legal(cfg) && last < TWO16 && ValidTrans(t) && SetTrans(cfg, last, [t]).ok
    ensures var st := SetTrans(cfg, last, [t]).st;
      && |st.rw| == |st.cuts| == 1 && |st.pl0| > 0
      && (!EndKept(st, 0) ==> TransRsp(st.rw, st.pl0, AllFine(st.pl0), [prior]) == [Rsp(st.pl0[0].acc.n % TWO16, NO_ERROR)])
  {
    var st, ts := SetTrans(cfg, last, [t]).st, [t];
    assert ts[0] == t && ValidAll(ts);
    AdmittedPositive(cfg, Start(last), ts);
    SetTransInv(cfg, last, true, ts);
    hide SetTrans, Inv, BoundOk, Legal, EndKept, GroupOk, TransRsp;
    assert st.rw[0] == Mapped(ts[0]) && st.rw[0].acc.n > 0 && st.rw[0].acc.addr + st.rw[0].acc.n <= TWO64;
    GroupsNonEmpty(st);
    FineLen(st.pl0);
    GroupBounds(st, 0);
    if !EndKept(st, 0) {
      OneWraps(st, AllFine(st.pl0), prior);
    }
  }

  lemma FineGroup(st: Enc, t: nat)
    requires GroupsOk(st) && t < |st.rw|
    ensures Lo(st.cuts, t) <= st.cuts[t] <= |AllFine(st.pl0)|
    ensures Summary(AllFine(st.pl0)[Lo(st.cuts, t)..st.cuts[t]]) == Rsp(st.rw[t].acc.n % TWO16, NO_ERROR)
  {
    var lo, hi := Lo(st.cuts, t), st.cuts[t];
    assert GroupOk(st.pl0, st.rw[t], lo, hi);
    FineLen(st.pl0);
    assert AllFine(st.pl0)[lo..hi] == AllFine(st.pl0[lo..hi]);
    FineSummary(st.rw[t], st.pl0[lo..hi]);
  }
}
