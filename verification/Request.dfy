/** Whole requests: what SetTrans builds from a transaction list. */
module Request {
  import opened Words
  import opened Protocol
  import opened Semantics
  import opened Encoder
  import opened Tiling
  import opened Simulation
  import opened Invariant

  // ---- The pieces of one transaction can be sent ----

  lemma {:induction false} TileFields(t: Trans, lo: nat, ps: seq<Trans>, hi: nat)
    requires Tile(t, lo, ps, hi)
    ensures forall i :: 0 <= i < |ps| ==>
      ps[i].acc.kind == t.acc.kind && ps[i].acc.am == t.acc.am && ps[i].acc.mode == t.acc.mode && ps[i].acc.n > 0
    decreases |ps|
  {
    if ps != [] {
      TileFields(t, lo + ps[0].acc.n, ps[1..], hi);
      assert forall i :: 0 < i < |ps| ==> ps[i] == ps[1..][i - 1];
    }
  }

  ghost predicate AllFit(cfg: Config, ps: seq<Trans>) {
    forall i :: 0 <= i < |ps| ==> ReplyFits(cfg, ps[i])
  }

  lemma SmallFit(cfg: Config, acts: seq<Act>)
    requires forall i :: 0 <= i < |acts| ==> acts[i].Add? ==> acts[i].p.acc.n <= 8 || !acts[i].p.acc.kind.Read?
    ensures AllFit(cfg, Pieces(acts))
  {
    if acts != [] {
      SmallFit(cfg, acts[1..]);
    }
  }

  lemma RoundFit(cfg: Config, st: Enc, t: Trans, off: nat)
    requires Legal(cfg) && Sane(st) && off + 8 <= t.acc.n
    ensures AllFit(cfg, Pieces(BlkRound(t, off, Blk(cfg, st, t.acc.kind, t.acc.n - off, t.acc.addr + off))))
  {
    RoundPieces(t, off, Blk(cfg, st, t.acc.kind, t.acc.n - off, t.acc.addr + off));
  }

  lemma FitConcat(cfg: Config, a: seq<Act>, b: seq<Act>)
    requires AllFit(cfg, Pieces(a)) && AllFit(cfg, Pieces(b))
    ensures AllFit(cfg, Pieces(a + b))
  {
    hide ReplyFits;
    PiecesAppend(a, b);
  }

  lemma {:induction false} BlocksFit(cfg: Config, st: Enc, t: Trans, off: nat)
    requires Legal(cfg) && Sane(st) && off <= t.acc.n
    ensures AllFit(cfg, Pieces(Blocks(cfg, st, t, off)))
    decreases t.acc.n - off, Used(st)
  {
    hide Apply, Blk, BlkRound, AllFit, Legal, Pieces;
    if t.acc.n - off >= 8 {
      var nb := Blk(cfg, st, t.acc.kind, t.acc.n - off, t.acc.addr + off);
      var round := BlkRound(t, off, nb);
      BlkRoundProgress(cfg, st, t, off);
      BlocksFit(cfg, Apply(cfg, st, round), t, off + nb);
      RoundFit(cfg, st, t, off);
      FitConcat(cfg, round, Blocks(cfg, Apply(cfg, st, round), t, off + nb));
    } else {
      SmallFit(cfg, []);
    }
  }

  lemma EndsFit(cfg: Config, t: Trans)
    ensures AllFit(cfg, Pieces(HeadActs(t))) && AllFit(cfg, Pieces(TailActs(t)))
  {
    SmallFit(cfg, HeadActs(t));
    SmallFit(cfg, TailActs(t));
  }

  lemma LadderFit(cfg: Config, st: Enc, t: Trans)
    requires Legal(cfg) && Sane(st)
    ensures AllFit(cfg, Pieces(Ladder(cfg, st, t)))
  {
    hide HeadActs, TailActs, HeadEnd, Apply, AllFit, Blocks, Legal, Sane, Pieces;
    EndsFit(cfg, t);
    ApplySane(cfg, st, HeadActs(t));
    var blocks := Blocks(cfg, Apply(cfg, st, HeadActs(t)), t, HeadEnd(t));
    BlocksFit(cfg, Apply(cfg, st, HeadActs(t)), t, HeadEnd(t));
    FitConcat(cfg, HeadActs(t), blocks);
    FitConcat(cfg, HeadActs(t) + blocks, TailActs(t));
  }

  lemma {:induction false} FillsFit(cfg: Config, t: Trans, off: nat)
    requires t.acc.kind.Fill?
    ensures AllFit(cfg, Pieces(FillActs(t, off)))
    decreases t.acc.n - off
  {
    if off < t.acc.n {
      FillsFit(cfg, t, off + Min(t.acc.n - off, BLK_SIZE));
    }
  }

  /** The steps after the opening ones. */
  function BodyActs(cfg: Config, st: Enc, t: Trans): seq<Act>
    requires Legal(cfg) && Sane(st)
  {
    if t.acc.kind.Fill? then FillActs(t, 0) else Ladder(cfg, st, Mapped(t))
  }

  lemma CompileIs(cfg: Config, st: Enc, t: Trans)
    requires Legal(cfg) && Sane(st)
    ensures Sane(Apply(cfg, st, Opening(cfg, st, t)))
    ensures Compile(cfg, st, t) == Opening(cfg, st, t) + BodyActs(cfg, Apply(cfg, st, Opening(cfg, st, t)), t)
  {
    ApplySane(cfg, st, Opening(cfg, st, t));
  }

  lemma BodyPieces(cfg: Config, st: Enc, t: Trans)
    requires Legal(cfg) && Sane(st) && ValidTrans(t)
    requires t.acc.kind.Fill? ==> t.acc.addr % 8 == 0 && t.acc.n % 8 == 0 && t.acc.am < 12
    requires MapOf(t.acc.am) <= AM15
    ensures Covers(Mapped(t), 0, Pieces(BodyActs(cfg, st, t)), t.acc.n)
    ensures AllFit(cfg, Pieces(BodyActs(cfg, st, t)))
  {
    if t.acc.kind.Fill? {
      assert Mapped(t) == t;
      FillCovers(t, 0);
      FillsFit(cfg, t, 0);
    } else {
      LadderCovers(cfg, st, Mapped(t));
      LadderFit(cfg, st, Mapped(t));
    }
  }

  lemma BodySendable(cfg: Config, st: Enc, t: Trans, fills: bool)
    requires Legal(cfg) && Sane(st) && ValidTrans(t)
    requires t.acc.kind.Fill? ==> t.acc.addr % 8 == 0 && t.acc.n % 8 == 0 && t.acc.am < 12 && t.acc.mode == 0 && fills
    requires MapOf(t.acc.am) <= AM15
    ensures forall i :: 0 <= i < |Pieces(BodyActs(cfg, st, t))| ==> Sendable(cfg, fills, MapOf(t.acc.am), Pieces(BodyActs(cfg, st, t))[i])
  {
    var ps := Pieces(BodyActs(cfg, st, t));
    BodyPieces(cfg, st, t);
    hide BodyActs, ReplyFits, ValidPiece;
    TileFields(Mapped(t), 0, ps, t.acc.n);
  }

  lemma OpeningRules(cfg: Config, st: Enc, t: Trans)
    requires Legal(cfg)
    ensures Rules(Apply(cfg, st, Opening(cfg, st, t)).mask, MapOf(t.acc.am))
  {
    var first := FinIf(!Manageable(cfg, st, t));
    var s := Apply(cfg, st, first);
    var second := FinIf(NewPacket(cfg, s, Mapped(t), t.acc.am));
    ApplyAppend(cfg, st, first, second);
    if NewPacket(cfg, s, Mapped(t), t.acc.am) {
      hide NewPacket, Manageable;
      assert second == [Fin] && second[1..] == [];
      assert Apply(cfg, s, second) == Finalize(s);
    } else {
      assert Rules(s.mask, Mapped(t).acc.am);
      assert Apply(cfg, s, second) == s;
    }
  }

  // ---- Every transaction keeps the invariant ----

  /** Transaction i owns the PL0 records from Lo(cuts, i) up to cuts[i]. */
  function Lo(cuts: seq<nat>, i: nat): nat
    requires i <= |cuts|
  {
    if i == 0 then 0 else cuts[i - 1]
  }

  ghost predicate GroupOk(pl0: seq<Trans>, t: Trans, lo: nat, hi: nat) {
    lo <= hi <= |pl0| && Covers(t, 0, pl0[lo..hi], t.acc.n)
  }

  /** Each accepted transaction is tiled by its own run of PL0 records; the runs are all records. */
  ghost predicate GroupsOk(st: Enc) {
    && |st.rw| == |st.cuts| && |st.pl0| == Lo(st.cuts, |st.cuts|)
    && forall i {:trigger st.rw[i]} :: 0 <= i < |st.rw| ==> GroupOk(st.pl0, st.rw[i], Lo(st.cuts, i), st.cuts[i])
  }

  lemma GroupGrow(pl0: seq<Trans>, ps: seq<Trans>, t: Trans, lo: nat, hi: nat)
    requires GroupOk(pl0, t, lo, hi)
    ensures GroupOk(pl0 + ps, t, lo, hi)
  {
    assert (pl0 + ps)[lo..hi] == pl0[lo..hi];
  }

  lemma GroupNew(pl0: seq<Trans>, ps: seq<Trans>, t: Trans)
    requires Covers(t, 0, ps, t.acc.n)
    ensures GroupOk(pl0 + ps, t, |pl0|, |pl0 + ps|)
  {
    assert (pl0 + ps)[|pl0|..|pl0 + ps|] == ps;
  }

  lemma GroupsKept(st: Enc, s: Enc, t: Trans, ps: seq<Trans>)
    requires GroupsOk(st) && s.pl0 == st.pl0 + ps && s.rw == st.rw && s.cuts == st.cuts
    requires Covers(t, 0, ps, t.acc.n)
    ensures GroupsOk(Record(s, t))
  {
    hide Covers, GroupOk;
    var r := Record(s, t);
    forall i | 0 <= i < |r.rw| ensures GroupOk(r.pl0, r.rw[i], Lo(r.cuts, i), r.cuts[i]) {
      if i < |st.rw| {
        GroupGrow(st.pl0, ps, st.rw[i], Lo(st.cuts, i), st.cuts[i]);
      } else {
        GroupNew(st.pl0, ps, t);
      }
    }
  }

  lemma RecordInv(cfg: Config, cnt0: nat, fills: bool, s: Enc, t: Trans)
    requires Inv(cfg, cnt0, s) && BoundOk(cfg, fills, s)
    ensures Inv(cfg, cnt0, Record(s, t)) && BoundOk(cfg, fills, Record(s, t))
  {
    hide ExecCmds, StreamAccesses, StreamLen, CmdsLen, StreamRsp, AccsRsp, PacketRsp, PacketLen, FrameOk, ValidPiece, ValidCmds, Cap, RspLimit, OnWire;
    assert forall k :: 0 <= k < |s.pl0| ==> SentAs(cfg, s, k) ==> SentAs(cfg, Record(s, t), k);
  }

  lemma AdmittedParts(cfg: Config, st: Enc, t: Trans)
    requires Admitted(cfg, st, t)
    ensures MapOf(t.acc.am) <= AM15 && Mapped(t).acc.n == t.acc.n
    ensures t.acc.kind.Fill? ==> t.acc.addr % 8 == 0 && t.acc.n % 8 == 0 && t.acc.am < 12 && t.acc.mode == 0
  {}

  lemma TryAddInv(cfg: Config, cnt0: nat, fills: bool, st: Enc, t: Trans)
    requires Legal(cfg) && Inv(cfg, cnt0, st) && BoundOk(cfg, fills, st) && GroupsOk(st)
    requires ValidTrans(t) && Admitted(cfg, st, t) && (t.acc.kind.Fill? ==> fills)
    ensures var s := Record(Apply(cfg, st, Compile(cfg, st, t)), Mapped(t));
      Inv(cfg, cnt0, s) && BoundOk(cfg, fills, s) && GroupsOk(s)
  {
    assert Sane(st);
    AdmittedParts(cfg, st, t);
    hide *;
    var open := Opening(cfg, st, t);
    var s1 := Apply(cfg, st, open);
    CompileIs(cfg, st, t);
    var body := BodyActs(cfg, s1, t);
    OpeningPieces(cfg, st, t);
    OpeningRules(cfg, st, t);
    BodyPieces(cfg, s1, t);
    BodySendable(cfg, s1, t, fills);
    ApplyInv(cfg, cnt0, fills, MapOf(t.acc.am), st, open);
    ApplyInv(cfg, cnt0, fills, MapOf(t.acc.am), s1, body);
    ApplyAppend(cfg, st, open, body);
    var s2 := Apply(cfg, s1, body);
    RecordInv(cfg, cnt0, fills, s2, Mapped(t));
    ApplyRecords(cfg, st, open);
    ApplyRecords(cfg, s1, body);
    assert st.pl0 + [] == st.pl0;
    GroupsKept(st, s2, Mapped(t), Pieces(body));
  }

  function MappedAll(ts: seq<Trans>): (ms: seq<Trans>)
    ensures |ms| == |ts|
  {
    seq(|ts|, i requires 0 <= i < |ts| => Mapped(ts[i]))
  }

  /** What the list ts asks for: every transaction as it is; only that map 132 means map 15. */
  ghost predicate Meant(ts: seq<Trans>, qs: seq<Trans>) {
    |qs| == |ts| && forall i :: 0 <= i < |ts| ==>
      qs[i] == if ts[i].acc.am == 132 then ts[i].(acc := ts[i].acc.(am := 15)) else ts[i]
  }

  lemma MeantIs(ts: seq<Trans>, qs: seq<Trans>)
    requires Meant(ts, qs)
    ensures MappedAll(ts) == qs
  {}

  lemma MappedMeant(ts: seq<Trans>)
    ensures Meant(ts, MappedAll(ts))
  {}

  /** A list without map 132 means itself. */
  lemma PlainMeant(ts: seq<Trans>)
    requires forall i :: 0 <= i < |ts| ==> ts[i].acc.am != 132
    ensures Meant(ts, ts)
  {}

  ghost predicate ValidAll(ts: seq<Trans>) {
    forall i :: 0 <= i < |ts| ==> ValidTrans(ts[i])
  }

  ghost predicate FillsIn(ts: seq<Trans>, fills: bool) {
    forall i :: 0 <= i < |ts| ==> ts[i].acc.kind.Fill? ==> fills
  }

  lemma AddAllStep(cfg: Config, st: Enc, ts: seq<Trans>)
    requires Legal(cfg) && Sane(st) && ts != [] && AddAll(cfg, st, ts).ok
    ensures Admitted(cfg, st, ts[0])
    ensures var s := Record(Apply(cfg, st, Compile(cfg, st, ts[0])), Mapped(ts[0]));
      Sane(s) && AddAll(cfg, st, ts) == AddAll(cfg, s, ts[1..]) && s.rw == st.rw + [Mapped(ts[0])]
  {
    hide Admitted, Compile, Apply, Mapped, Sane;
    TryAddSane(cfg, st, ts[0]);
    ApplyRecords(cfg, st, Compile(cfg, st, ts[0]));
  }

  /** The sum the buffer check computes for t, before it is cut to 32 bits. */
  function CheckSum(st: Enc, t: Trans): nat {
    (if t.acc.kind.Read? then st.rsp else 4 * st.wi) + t.acc.n + 4
  }

  /** Does no sum of the buffer check wrap around while ts is added? */
  predicate Unwrapped(cfg: Config, st: Enc, ts: seq<Trans>)
    requires Legal(cfg) && Sane(st)
    decreases |ts|
  {
    ts == [] ||
    (CheckSum(st, ts[0]) < TWO32 &&
     (TryAddSane(cfg, st, ts[0]);
      TryAdd(cfg, st, ts[0]).Some? ==> Unwrapped(cfg, TryAdd(cfg, st, ts[0]).value, ts[1..])))
  }

  /** An admitted transaction in front of a list. */
  lemma AddCons(cfg: Config, st: Enc, t: Trans, rest: seq<Trans>)
    requires Legal(cfg) && Sane(st) && Admitted(cfg, st, t)
    ensures var s := Record(Apply(cfg, st, Compile(cfg, st, t)), Mapped(t));
      Sane(s) && AddAll(cfg, st, [t] + rest) == AddAll(cfg, s, rest)
  {
    hide Admitted, Compile, Apply, Mapped, Sane, Legal;
    assert ([t] + rest)[0] == t && ([t] + rest)[1..] == rest;
    TryAddSane(cfg, st, t);
  }

  lemma TailTrans(ts: seq<Trans>, rw: seq<Trans>, fills: bool)
    requires ts != [] && ValidAll(ts) && FillsIn(ts, fills)
    ensures ValidTrans(ts[0]) && (ts[0].acc.kind.Fill? ==> fills)
    ensures ValidAll(ts[1..]) && FillsIn(ts[1..], fills)
    ensures rw + [Mapped(ts[0])] + MappedAll(ts[1..]) == rw + MappedAll(ts)
  {
    hide Mapped, ValidTrans;
    assert MappedAll(ts) == [Mapped(ts[0])] + MappedAll(ts[1..]);
  }

  lemma NoTrans(cfg: Config, st: Enc)
    requires Legal(cfg) && Sane(st)
    ensures AddAll(cfg, st, []).st == st && st.rw + MappedAll([]) == st.rw
  {}

  lemma {:induction false} AddAllInv(cfg: Config, cnt0: nat, fills: bool, st: Enc, ts: seq<Trans>)
    requires Legal(cfg) && Inv(cfg, cnt0, st) && BoundOk(cfg, fills, st) && GroupsOk(st)
    requires ValidAll(ts) && FillsIn(ts, fills) && AddAll(cfg, st, ts).ok
    ensures var s := AddAll(cfg, st, ts).st;
      Inv(cfg, cnt0, s) && BoundOk(cfg, fills, s) && GroupsOk(s) && s.rw == st.rw + MappedAll(ts)
    decreases |ts|
  {
    assert Sane(st);
    hide *;
    if ts == [] {
      NoTrans(cfg, st);
    } else {
      var s := Record(Apply(cfg, st, Compile(cfg, st, ts[0])), Mapped(ts[0]));
      AddAllStep(cfg, st, ts);
      TailTrans(ts, st.rw, fills);
      TryAddInv(cfg, cnt0, fills, st, ts[0]);
      AddAllInv(cfg, cnt0, fills, s, ts[1..]);
    }
  }

  // ---- The last packet is never empty ----

  predicate Ends(acts: seq<Act>) {
    acts != [] && acts[|acts| - 1].Add? && acts[|acts| - 1].p.acc.n != 0
  }

  lemma EndsNum(cfg: Config, st: Enc, acts: seq<Act>)
    requires Ends(acts)
    ensures Apply(cfg, st, acts).num > 0
  {
    var k := |acts| - 1;
    var s := Apply(cfg, st, acts[..k]);
    ApplyAppend(cfg, st, acts[..k], [acts[k]]);
    assert acts == acts[..k] + [acts[k]];
    assert [acts[k]][1..] == [];
    assert Apply(cfg, s, [acts[k]]) == AddPiece(cfg, s, acts[k].p);
  }

  lemma RoundEnds(t: Trans, off: nat, nb: nat)
    requires off + 8 <= t.acc.n && nb % 8 == 0 && nb <= t.acc.n - off < nb + 8
    ensures Ends(BlkRound(t, off, nb))
  {}

  lemma {:induction false} BlocksEnds(cfg: Config, st: Enc, t: Trans, off: nat)
    requires Legal(cfg) && Sane(st) && off + 8 <= t.acc.n
    ensures Ends(Blocks(cfg, st, t, off))
    decreases t.acc.n - off, Used(st)
  {
    hide Blk, RdBlk, WrBlk, BlkRound, Apply, Legal, Sane;
    var nb := Blk(cfg, st, t.acc.kind, t.acc.n - off, t.acc.addr + off);
    var round := BlkRound(t, off, nb);
    BlkRoundProgress(cfg, st, t, off);
    var s := Apply(cfg, st, round);
    if t.acc.n - off - nb >= 8 {
      BlocksEnds(cfg, s, t, off + nb);
    } else {
      RoundEnds(t, off, nb);
      assert Blocks(cfg, s, t, off + nb) == [];
    }
  }

  lemma HeadEnds(t: Trans)
    requires t.acc.n > 0 && HeadEnd(t) == t.acc.n
    ensures Ends(HeadActs(t))
  {}

  lemma TailEnds(t: Trans)
    ensures if BlocksEnd(t) < t.acc.n then Ends(TailActs(t)) else TailActs(t) == []
  {
    hide BlocksEnd;
    assert BlocksEnd(t) <= t.acc.n < BlocksEnd(t) + 8;
  }

  lemma EndsConcat(a: seq<Act>, b: seq<Act>)
    ensures Ends(b) ==> Ends(a + b)
    ensures b == [] ==> a + b == a
  {}

  lemma LadderEnds(cfg: Config, st: Enc, t: Trans)
    requires Legal(cfg) && Sane(st) && t.acc.n > 0
    ensures Ends(Ladder(cfg, st, t))
  {
    hide Apply, HeadActs, TailActs, HeadEnd, BlocksEnd, Sane, Legal, Ends;
    ApplySane(cfg, st, HeadActs(t));
    var s, o := Apply(cfg, st, HeadActs(t)), HeadEnd(t);
    TailEnds(t);
    BlocksEndIs(t);
    var blocks := Blocks(cfg, s, t, o);
    EndsConcat(HeadActs(t), blocks);
    EndsConcat(HeadActs(t) + blocks, TailActs(t));
    if BlocksEnd(t) == t.acc.n {
      if t.acc.n - o >= 8 {
        BlocksEnds(cfg, s, t, o);
      } else {
        HeadEnds(t);
        assert blocks == [];
      }
    }
  }

  lemma {:induction false} FillEnds(t: Trans, off: nat)
    requires off < t.acc.n
    ensures Ends(FillActs(t, off))
    decreases t.acc.n - off
  {
    var k := Min(t.acc.n - off, BLK_SIZE);
    if off + k < t.acc.n {
      FillEnds(t, off + k);
    }
  }

  lemma TryAddNonEmpty(cfg: Config, st: Enc, t: Trans)
    requires Legal(cfg) && Sane(st) && Admitted(cfg, st, t)
    ensures Apply(cfg, st, Compile(cfg, st, t)).num > 0
  {
    CompileIs(cfg, st, t);
    var s := Apply(cfg, st, Opening(cfg, st, t));
    if t.acc.kind.Fill? {
      FillEnds(t, 0);
    } else {
      LadderEnds(cfg, s, Mapped(t));
    }
    assert Ends(BodyActs(cfg, s, t));
    EndsNum(cfg, st, Compile(cfg, st, t));
  }

  lemma {:induction false} AddAllNonEmpty(cfg: Config, st: Enc, ts: seq<Trans>)
    requires Legal(cfg) && Sane(st) && (ts != [] || st.num > 0) && AddAll(cfg, st, ts).ok
    ensures AddAll(cfg, st, ts).st.num > 0
    decreases |ts|
  {
    if ts != [] {
      hide Admitted, Compile;
      assert Admitted(cfg, st, ts[0]);
      TryAddNonEmpty(cfg, st, ts[0]);
      TryAddSane(cfg, st, ts[0]);
      AddAllNonEmpty(cfg, TryAdd(cfg, st, ts[0]).value, ts[1..]);
    }
  }
}
