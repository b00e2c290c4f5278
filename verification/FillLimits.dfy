/** Fills and the request limit: each is charged 4 bytes too few, and exactly when that matters. */
module FillLimits {
  import opened Option
  import opened Words
  import opened Protocol
  import opened Semantics
  import opened Encoder
  import opened Tiling
  import opened Simulation
  import opened Request
  import opened Limits

  // ---- Which fills exceed the limit ----

  predicate TooLong(cfg: Config, p: Packet) {
    4 * PacketLen(p) > RqLimit(cfg)
  }

  /** Is some packet of the request, if sent now, longer than the limit? */
  ghost predicate Over(cfg: Config, st: Enc) {
    exists i :: 0 <= i < |Packets(st)| && TooLong(cfg, Packets(st)[i])
  }

  /** A fill for which the packet has exactly the room the builder asks for, and not the 4 bytes more. */
  predicate TightFill(cfg: Config, st: Enc, act: Act) {
    act.Add? && act.p.acc.n > 0 && act.p.acc.kind.Fill?
    && var s := MakeRoom(cfg, st, act.p.acc); RemRq(cfg, s) == NeedRq(s.ctx, act.p.acc)
  }

  predicate Tight(cfg: Config, st: Enc, acts: seq<Act>)
    decreases |acts|
  {
    acts != [] && (TightFill(cfg, st, acts[0]) || Tight(cfg, Do(cfg, st, acts[0]), acts[1..]))
  }

  /** Does adding the transactions ts add such a fill? */
  predicate TightList(cfg: Config, st: Enc, ts: seq<Trans>)
    requires Legal(cfg) && Sane(st)
    decreases |ts|
  {
    ts != []
    && (Tight(cfg, st, Compile(cfg, st, ts[0])) ||
        (TryAddSane(cfg, st, ts[0]);
         TryAdd(cfg, st, ts[0]).Some? && TightList(cfg, TryAdd(cfg, st, ts[0]).value, ts[1..])))
  }

  /** Closed packets too long, or the open one. */
  lemma OverIs(cfg: Config, st: Enc)
    requires SizesOk(st)
    ensures Over(cfg, st) <==> (exists i :: 0 <= i < |st.closed| && TooLong(cfg, st.closed[i])) || 4 * (st.wi - st.hdr + 1) > RqLimit(cfg)
  {
    OpenLen(st);
    hide PacketLen;
    var ps := Packets(st);
    assert forall i :: 0 <= i < |st.closed| ==> ps[i] == st.closed[i];
    if 4 * (st.wi - st.hdr + 1) > RqLimit(cfg) {
      assert TooLong(cfg, ps[|st.closed|]);
    }
  }

  lemma FinalizeOver(cfg: Config, st: Enc)
    requires Legal(cfg) && SizesOk(st)
    ensures SizesOk(Finalize(st)) && (Over(cfg, Finalize(st)) <==> Over(cfg, st))
  {
    FinalizeSizes(st);
    OverIs(cfg, Finalize(st));
    hide SizesOk, PacketLen;
    assert Finalize(st).closed == Packets(st);
    assert 4 * (Finalize(st).wi - Finalize(st).hdr + 1) == 16;
  }

  lemma MakeRoomOver(cfg: Config, st: Enc, a: Access)
    requires Legal(cfg) && SizesOk(st) && Sane(st)
    ensures var s := MakeRoom(cfg, st, a);
      && SizesOk(s) && Sane(s) && (Over(cfg, s) <==> Over(cfg, st))
      && (Sufficient(cfg, s, NeedRq(s.ctx, a), RspBytes(a.kind, a.n) + 4)
          || (s.wi == s.hdr + 3 && s.rsp == s.rspStart + 8 && s.ctx == CTX0))
  {
    hide Over, SizesOk, NeedRq, Sufficient, RspBytes;
    FinalizeOver(cfg, st);
    FinalizeOver(cfg, if st.num >= cfg.maxRw then Finalize(st) else st);
  }

  /** Length of the open packet after an access, its END included. */
  lemma EmitLen(cfg: Config, s: Enc, p: Trans)
    requires Legal(cfg) && RqLimit(cfg) >= 1060 && Sane(s) && ValidPiece(p)
    requires Sufficient(cfg, s, NeedRq(s.ctx, p.acc), RspBytes(p.acc.kind, p.acc.n) + 4)
          || (s.wi == s.hdr + 3 && s.rsp == s.rspStart + 8 && s.ctx == CTX0)
    ensures var r := Emit(cfg, s, p);
      4 * (r.wi - r.hdr + 1) > RqLimit(cfg) <==> p.acc.kind.Fill? && RemRq(cfg, s) == NeedRq(s.ctx, p.acc)
  {}

  /** A step makes a packet too long exactly if it adds a fill to a packet with just the room charged. */
  lemma DoOver(cfg: Config, st: Enc, act: Act)
    requires Legal(cfg) && RqLimit(cfg) >= 1060 && SizesOk(st) && Sane(st)
    requires act.Add? && act.p.acc.n > 0 ==> ValidPiece(act.p)
    ensures var s := Do(cfg, st, act);
      SizesOk(s) && Sane(s) && (Over(cfg, s) <==> Over(cfg, st) || TightFill(cfg, st, act))
  {
    if act == Fin {
      FinalizeOver(cfg, st);
    } else if act.p.acc.n > 0 {
      var s := MakeRoom(cfg, st, act.p.acc);
      var r := Emit(cfg, s, act.p);
      hide SizesOk, Over, Sufficient, NeedRq, RspBytes, MakeRoom, RemRq, ValidPiece, CmdLen;
      MakeRoomOver(cfg, st, act.p.acc);
      EmitSizes(cfg, s, act.p);
      EmitLen(cfg, s, act.p);
      OverIs(cfg, s);
      OverIs(cfg, r);
    }
  }

  lemma {:induction false} ApplyOver(cfg: Config, st: Enc, acts: seq<Act>)
    requires Legal(cfg) && RqLimit(cfg) >= 1060 && SizesOk(st) && Sane(st) && ValidPieces(Pieces(acts))
    ensures var s := Apply(cfg, st, acts);
      SizesOk(s) && Sane(s) && (Over(cfg, s) <==> Over(cfg, st) || Tight(cfg, st, acts))
    decreases |acts|
  {
    hide Legal, RqLimit, SizesOk, Sane, Over, TightFill, Do, ValidPiece;
    if acts != [] {
      var s := Do(cfg, st, acts[0]);
      if Piece(acts[0]) != [] {
        assert Pieces(acts)[0] == acts[0].p;
      }
      DoOver(cfg, st, acts[0]);
      forall i | 0 <= i < |Pieces(acts[1..])| ensures ValidPiece(Pieces(acts[1..])[i]) {
        assert Pieces(acts[1..])[i] == Pieces(acts)[i + |Piece(acts[0])|];
      }
      ApplyOver(cfg, s, acts[1..]);
    }
  }

  lemma RecordOver(cfg: Config, st: Enc, t: Trans)
    requires SizesOk(st) && Sane(st)
    ensures SizesOk(Record(st, t)) && Sane(Record(st, t)) && (Over(cfg, Record(st, t)) <==> Over(cfg, st))
  {
    assert Packets(Record(st, t)) == Packets(st);
  }

  lemma {:induction false} AddAllOver(cfg: Config, st: Enc, ts: seq<Trans>)
    requires Legal(cfg) && RqLimit(cfg) >= 1060 && SizesOk(st) && Sane(st) && ValidAll(ts) && AddAll(cfg, st, ts).ok
    ensures Over(cfg, AddAll(cfg, st, ts).st) <==> Over(cfg, st) || TightList(cfg, st, ts)
    decreases |ts|
  {
    hide Legal, RqLimit, SizesOk, Sane, Over, Tight, Compile, Apply, Record, Admitted, ValidTrans, Mapped;
    if ts != [] {
      var s := Apply(cfg, st, Compile(cfg, st, ts[0]));
      assert ValidTrans(ts[0]);
      AddAllStep(cfg, st, ts);
      CompileCovers(cfg, st, ts[0]);
      ApplyOver(cfg, st, Compile(cfg, st, ts[0]));
      RecordOver(cfg, s, Mapped(ts[0]));
      TryAddSane(cfg, st, ts[0]);
      assert TryAdd(cfg, st, ts[0]) == Some(Record(s, Mapped(ts[0])));
      AddAllOver(cfg, Record(s, Mapped(ts[0])), ts[1..]);
    }
  }

  lemma StartOver(cfg: Config, last: nat)
    requires Legal(cfg)
    ensures SizesOk(Start(last)) && Sane(Start(last)) && !Over(cfg, Start(last))
  {}

  /** For limits of at least 1060 bytes, the packets of an accepted list keep to the limit exactly if no
      fill was added to a packet that had just the room the builder charges for it. */
  lemma FillsExactly(cfg: Config, last: nat, ts: seq<Trans>)
    requires Legal(cfg) && RqLimit(cfg) >= 1060 && ValidAll(ts) && SetTrans(cfg, last, ts).ok
    ensures Sane(Start(last))
    ensures var ps := Packets(SetTrans(cfg, last, ts).st);
      (forall i :: 0 <= i < |ps| ==> 4 * PacketLen(ps[i]) <= RqLimit(cfg)) <==> !TightList(cfg, Start(last), ts)
  {
    hide Legal, RqLimit, AddAll, TightList, PacketLen, Packets, Start, SizesOk, Sane, ValidAll;
    StartOver(cfg, last);
    AddAllOver(cfg, Start(last), ts);
    var ps := Packets(SetTrans(cfg, last, ts).st);
    assert forall i :: 0 <= i < |ps| ==> (TooLong(cfg, ps[i]) <==> !(4 * PacketLen(ps[i]) <= RqLimit(cfg)));
  }

  // ---- Lists whose sums do not wrap ----

  lemma {:induction false} NoFillNotTight(cfg: Config, st: Enc, acts: seq<Act>)
    requires forall i :: 0 <= i < |Pieces(acts)| ==> !Pieces(acts)[i].acc.kind.Fill?
    ensures !Tight(cfg, st, acts)
    decreases |acts|
  {
    hide Do, RemRq, NeedRq, MakeRoom;
    if acts != [] {
      if Piece(acts[0]) != [] {
        assert Pieces(acts)[0] == acts[0].p;
      }
      forall i | 0 <= i < |Pieces(acts[1..])| ensures !Pieces(acts[1..])[i].acc.kind.Fill? {
        assert Pieces(acts[1..])[i] == Pieces(acts)[i + |Piece(acts[0])|];
      }
      NoFillNotTight(cfg, Do(cfg, st, acts[0]), acts[1..]);
    }
  }

  lemma {:induction false} TightAppend(cfg: Config, st: Enc, a: seq<Act>, b: seq<Act>)
    ensures Tight(cfg, st, a + b) <==> Tight(cfg, st, a) || Tight(cfg, Apply(cfg, st, a), b)
    decreases |a|
  {
    hide Do, TightFill;
    if a == [] {
      assert a + b == b;
    } else {
      assert (a + b)[1..] == a[1..] + b;
      TightAppend(cfg, Do(cfg, st, a[0]), a[1..], b);
    }
  }

  /** How many whole kilobytes come before the last byte. */
  function Steps(m: nat): nat {
    if m == 0 then 0 else (m - 1) / 1024
  }

  /** Request bytes a piece of a fill takes at most: the first one may need all three context commands, the
      following ones a new base. */
  function PieceCost(st: Enc, t: Trans): nat {
    if st.ctx.am == t.acc.am && st.ctx.mode == 0 then 24 else 32
  }

  lemma TightHere(cfg: Config, s: Enc, t: Trans, p: Trans)
    requires Legal(cfg) && Sane(s) && p.acc.kind.Fill? && p.acc.mode == 0 && p.acc.am == t.acc.am && p.acc.n > 0
    requires TightFill(cfg, s, Add(p))
    ensures RemRq(cfg, s) <= PieceCost(s, t) || RqLimit(cfg) <= 40
  {}

  /** Room before and after a piece. */
  lemma RoomAround(cfg: Config, s: Enc, t: Trans, p: Trans)
    requires Legal(cfg) && Sane(s) && p.acc.kind.Fill? && p.acc.mode == 0 && p.acc.am == t.acc.am && p.acc.n > 0
    ensures var r := AddPiece(cfg, s, p);
      && Sane(r) && r.ctx.am == t.acc.am && r.ctx.mode == 0
      && (RemRq(cfg, s) <= RemRq(cfg, r) + PieceCost(s, t) || RqLimit(cfg) <= RemRq(cfg, r) + 40)
  {}

  /** A fill that meets a packet with just the room charged has run through the packet. */
  lemma {:induction false} TightLong(cfg: Config, s: Enc, t: Trans, off: nat)
    requires Legal(cfg) && Sane(s) && t.acc.kind.Fill? && t.acc.mode == 0 && off <= t.acc.n && Tight(cfg, s, FillActs(t, off))
    ensures var q := Steps(t.acc.n - off);
      RemRq(cfg, s) <= PieceCost(s, t) + 24 * q || RqLimit(cfg) <= 40 + 24 * q
    decreases t.acc.n - off
  {
    hide AddPiece, RemRq, RqLimit, TightFill, Sub, Legal, Sane;
    var k := Min(t.acc.n - off, BLK_SIZE);
    var p := Sub(t, off, k);
    assert off < t.acc.n;
    SubFill(t, off, k);
    assert FillActs(t, off)[0] == Add(p) && FillActs(t, off)[1..] == FillActs(t, off + k);
    if TightFill(cfg, s, Add(p)) {
      TightHere(cfg, s, t, p);
    } else {
      var r := AddPiece(cfg, s, p);
      RoomAround(cfg, s, t, p);
      assert off + k < t.acc.n && k == 1024 && Steps(t.acc.n - off) == 1 + Steps(t.acc.n - off - 1024);
      TightLong(cfg, r, t, off + k);
    }
  }

  lemma SubFill(t: Trans, off: nat, k: nat)
    requires t.acc.kind.Fill? && t.acc.mode == 0 && off + k <= t.acc.n && k > 0
    ensures var p := Sub(t, off, k); p.acc.kind.Fill? && p.acc.mode == 0 && p.acc.am == t.acc.am && p.acc.n > 0
  {}

  /** The packet a fill starts in: the open one, if it has room for 40 bytes, or a fresh one. */
  lemma FillOpened(cfg: Config, st: Enc, t: Trans)
    requires Legal(cfg) && Sane(st) && t.acc.kind.Fill?
    ensures var s := Apply(cfg, st, Opening(cfg, st, t));
      Sane(s) && ((s == st && RemRq(cfg, s) >= 40) || RemRq(cfg, s) == RqLimit(cfg) - 12)
  {
    OpenedRoom(cfg, st, t);
    ApplySane(cfg, st, Opening(cfg, st, t));
    var first := FinIf(!Manageable(cfg, st, t));
    var s1 := Apply(cfg, st, first);
    var second := FinIf(NewPacket(cfg, s1, Mapped(t), t.acc.am));
    ApplyAppend(cfg, st, first, second);
    NoActs(cfg, st);
    NoActs(cfg, s1);
    if second == [Fin] {
      FinsFreshAny(cfg, s1, second);
    } else if first == [Fin] {
      FinsFreshAny(cfg, st, first);
    }
    hide Manageable, Mapped, Apply, Opening;
  }

  /** In buffers hardly larger than the limit no admitted fill meets such a packet, unless its sum wrapped. */
  lemma FillNotTight(cfg: Config, st: Enc, t: Trans)
    requires Legal(cfg) && Sane(st) && 4 * cfg.rqWiMax <= RqLimit(cfg) + 980
    requires t.acc.kind.Fill? && Admitted(cfg, st, t) && CheckSum(st, t) < TWO32
    ensures !Tight(cfg, st, Compile(cfg, st, t))
  {
    FillSum(cfg, st, t);
    FillOpened(cfg, st, t);
    OpeningPieces(cfg, st, t);
    var open := Opening(cfg, st, t);
    var s := Apply(cfg, st, open);
    hide Opening, Apply, Admitted, Tight, Compile, FillActs;
    NoFillNotTight(cfg, st, open);
    TightAppend(cfg, st, open, FillActs(t, 0));
    assert Compile(cfg, st, t) == open + FillActs(t, 0) by { CompileIs(cfg, st, t); }
    if Tight(cfg, s, FillActs(t, 0)) {
      TightLong(cfg, s, t, 0);
      TightSum(cfg, st, s, t.acc.n);
    }
  }

  lemma FillSum(cfg: Config, st: Enc, t: Trans)
    requires t.acc.kind.Fill? && Admitted(cfg, st, t) && CheckSum(st, t) < TWO32
    ensures 4 * st.wi + t.acc.n + 4 < 4 * cfg.rqWiMax && t.acc.n > 0 && t.acc.n % 8 == 0 && t.acc.mode == 0
  {}

  /** What the buffer check counts before a fill that runs through a packet. */
  lemma TightSum(cfg: Config, st: Enc, s: Enc, n: nat)
    requires Legal(cfg) && Sane(st) && n > 0 && n % 8 == 0
    requires (s == st && RemRq(cfg, s) >= 40) || RemRq(cfg, s) == RqLimit(cfg) - 12
    requires RemRq(cfg, s) <= 32 + 24 * Steps(n) || RqLimit(cfg) <= 40 + 24 * Steps(n)
    ensures RqLimit(cfg) + 980 <= 4 * st.wi + n + 4
  {
    StepsIs(n);
    RoomLeft(cfg, st);
    hide *;
    RoomArith(RqLimit(cfg), RemRq(cfg, s), 4 * st.wi, n, Steps(n), s == st);
  }

  lemma StepsIs(n: nat)
    requires n > 0 && n % 8 == 0
    ensures n >= 1024 * Steps(n) + 8
  {
    var q, m := Steps(n), n / 8;
    assert n == 8 * m;
    assert 8 * (128 * q) < 8 * m;
  }

  lemma RoomLeft(cfg: Config, st: Enc)
    requires Legal(cfg) && Sane(st)
    ensures RqLimit(cfg) >= 128 && st.wi >= 3 && 4 * st.wi >= RqLimit(cfg) - RemRq(cfg, st)
  {}

  lemma RoomArith(limit: nat, rem: nat, used: nat, n: nat, q: nat, open: bool)
    requires limit >= 128 && used >= 12 && n >= 1024 * q + 8 && (open ==> used >= limit - rem)
    requires (open && rem >= 40) || rem == limit - 12
    requires rem <= 32 + 24 * q || limit <= 40 + 24 * q
    ensures limit + 980 <= used + n + 4
  {
    assert q >= 1;
  }

  lemma PiecesKind(cfg: Config, st: Enc, t: Trans)
    requires Legal(cfg) && Sane(st) && ValidTrans(t) && Admitted(cfg, st, t) && !t.acc.kind.Fill?
    ensures !Tight(cfg, st, Compile(cfg, st, t))
  {
    CompileCovers(cfg, st, t);
    KindKept(t);
    hide Compile, Admitted, Mapped;
    TileFields(Mapped(t), 0, Pieces(Compile(cfg, st, t)), t.acc.n);
    NoFillNotTight(cfg, st, Compile(cfg, st, t));
  }

  lemma {:induction false} UnwrappedNotTight(cfg: Config, st: Enc, ts: seq<Trans>)
    requires Legal(cfg) && Sane(st) && 4 * cfg.rqWiMax <= RqLimit(cfg) + 980
    requires ValidAll(ts) && AddAll(cfg, st, ts).ok && Unwrapped(cfg, st, ts)
    ensures !TightList(cfg, st, ts)
    decreases |ts|
  {
    hide Legal, Tight, Compile, Apply, Record, Admitted, ValidTrans, Mapped, RqLimit, CheckSum, Sane;
    if ts != [] {
      var t := ts[0];
      assert ValidTrans(t);
      AddAllStep(cfg, st, ts);
      TryAddSane(cfg, st, t);
      if t.acc.kind.Fill? {
        FillNotTight(cfg, st, t);
      } else {
        PiecesKind(cfg, st, t);
      }
      UnwrappedNotTight(cfg, TryAdd(cfg, st, t).value, ts[1..]);
    }
  }

  /** With a request buffer of at most 980 bytes more than the packet limit, every accepted list whose sums do
      not wrap keeps to the limit, fills included; so in particular where both are the same. */
  lemma UnwrappedKeeps(cfg: Config, last: nat, ts: seq<Trans>)
    requires Legal(cfg) && RqLimit(cfg) >= 1060 && 4 * cfg.rqWiMax <= RqLimit(cfg) + 980
    requires ValidAll(ts) && SetTrans(cfg, last, ts).ok && Sane(Start(last)) && Unwrapped(cfg, Start(last), ts)
    ensures var ps := Packets(SetTrans(cfg, last, ts).st);
      forall i :: 0 <= i < |ps| ==> 4 * PacketLen(ps[i]) <= RqLimit(cfg)
  {
    hide Legal, RqLimit, AddAll, TightList, PacketLen, Packets, Start, Sane, ValidAll, Unwrapped;
    UnwrappedNotTight(cfg, Start(last), ts);
    FillsExactly(cfg, last, ts);
  }

  lemma EmitKeeps(cfg: Config, s: Enc, p: Trans)
    requires SizesOk(s) && Over(cfg, s)
    ensures SizesOk(Emit(cfg, s, p)) && Over(cfg, Emit(cfg, s, p))
  {
    var r := Emit(cfg, s, p);
    EmitSizes(cfg, s, p);
    OverIs(cfg, s);
    OverIs(cfg, r);
    assert r.closed == s.closed && r.wi >= s.wi && r.hdr == s.hdr;
  }

  /** A packet that is too long stays in the request. */
  lemma DoKeeps(cfg: Config, st: Enc, act: Act)
    requires Legal(cfg) && SizesOk(st) && Sane(st) && Over(cfg, st)
    ensures var s := Do(cfg, st, act); SizesOk(s) && Sane(s) && Over(cfg, s)
  {
    if act == Fin {
      FinalizeOver(cfg, st);
    } else {
      AddPieceSane(cfg, st, act.p);
      MakeRoomOver(cfg, st, act.p.acc);
      EmitKeeps(cfg, MakeRoom(cfg, st, act.p.acc), act.p);
    }
  }

  lemma {:induction false} ApplyKeeps(cfg: Config, st: Enc, acts: seq<Act>)
    requires Legal(cfg) && SizesOk(st) && Sane(st) && Over(cfg, st)
    ensures var s := Apply(cfg, st, acts); SizesOk(s) && Sane(s) && Over(cfg, s)
    decreases |acts|
  {
    hide Legal, SizesOk, Sane, Over, Do;
    if acts != [] {
      DoKeeps(cfg, st, acts[0]);
      ApplyKeeps(cfg, Do(cfg, st, acts[0]), acts[1..]);
    }
  }

  // ---- Lists of fills that exceed the limit ----

  /** Fills of 8 bytes that bring the first packet close to its limit. */
  function FillCount(cfg: Config): nat
    requires Legal(cfg)
  {
    (RqLimit(cfg) - 80) / 16
  }

  /** Words left over by these. */
  function Odd(cfg: Config): (x: nat)
    requires Legal(cfg)
    ensures x <= 3
  {
    (RqLimit(cfg) - 80) % 16 / 4
  }

  /** Do the limits on accesses and reply let these and three more accesses into one packet? */
  predicate FillsUp(cfg: Config)
    requires Legal(cfg)
  {
    var k := FillCount(cfg);
    k + 3 <= cfg.maxRw && k + 2 <= cfg.numTransMax && 4 * k + 44 <= RspLimit(cfg)
  }

  function FillOf(am: nat, addr: nat, n: nat): Trans {
    Trans(Access(Fill, am, 0, addr, n, [0, 0, 0, 0, 0, 0, 0, 0]), 0)
  }

  const ZEROS: seq<byte> := [0, 0, 0, 0, 0, 0, 0, 0]

  /** A write in access mode 1 that leaves 56 bytes: for what is left over it is a word longer, or on another
      map with another base. */
  function OddWrite(cfg: Config): Trans
    requires Legal(cfg)
  {
    var x := Odd(cfg);
    var n := if x % 2 == 1 then 8 else 4;
    Trans(Access(Write, if x >= 2 then 1 else 0, 1, if x >= 2 then TWO16 else 0, n, ZEROS[..n]), 0)
  }

  /** Two pieces are enough; where the buffer is too small for them, a length for which the sum wraps. */
  function LastLen(cfg: Config): nat {
    if RqLimit(cfg) + 980 < 4 * cfg.rqWiMax then 1032 else TWO32 - 16
  }

  /** Length of its second piece. */
  function SecondLen(cfg: Config): (k: nat)
    ensures k > 0
  {
    Min(LastLen(cfg) - 1024, 1024)
  }

  const EDGE: nat := TWO32 + 0xFC00

  /** A fill in map 2 whose second piece is in another 64 KB than the first, both behind 4 GB. */
  function EdgeFill(cfg: Config): Trans {
    FillOf(2, EDGE, LastLen(cfg))
  }

  function FillsThen(cfg: Config, k: nat): seq<Trans>
    requires Legal(cfg)
  {
    if k == 0 then [OddWrite(cfg), EdgeFill(cfg)] else [FillOf(0, 0, 8)] + FillsThen(cfg, k - 1)
  }

  function ManyFills(cfg: Config): seq<Trans>
    requires Legal(cfg)
  {
    FillsThen(cfg, FillCount(cfg))
  }

  lemma Counts(cfg: Config)
    requires Legal(cfg)
    ensures RqLimit(cfg) == 80 + 16 * FillCount(cfg) + 4 * Odd(cfg) && FillCount(cfg) >= 3
  {
    assert RqLimit(cfg) % 4 == 0 && RqLimit(cfg) >= 128;
    hide RqLimit, Legal;
    Sixteens(RqLimit(cfg) - 80);
  }

  lemma Sixteens(y: nat)
    requires y % 4 == 0
    ensures y == 16 * (y / 16) + 4 * (y % 16 / 4)
  {
    var z, a := y / 4, y / 16;
    assert y == 4 * z && y % 16 == 4 * z - 16 * a;
    assert y % 16 == 4 * (z - 4 * a);
  }

  /** The first packet, with num accesses in w words and context ctx; nothing is closed. */
  predicate First(s: Enc, num: nat, w: nat, ctx: Ctx) {
    && s.closed == [] && s.hdr == 0 && s.rspStart == 0 && s.num == num && s.rsp == 8 + 4 * num
    && s.wi == w && w >= 3 && s.ctx == ctx && s.mask < 0x1000
  }

  lemma MaskKept(mask: nat, am: nat)
    requires mask < 0x1000 && am < 12
    ensures SetBit(mask, am) < 0x1000
  {
    Powers();
    SetBitBound(mask, am, 12);
  }

  /** A write of up to 8 bytes or a fill, for which there is room. */
  predicate Fits(cfg: Config, s: Enc, p: Trans) {
    && (p.acc.kind.Fill? || (p.acc.kind.Write? && (p.acc.n == 4 || p.acc.n == 8))) && p.acc.n > 0 && p.acc.am < 12
    && s.num < cfg.maxRw && 4 * s.wi + NeedRq(s.ctx, p.acc) <= RqLimit(cfg) && s.rsp + 8 <= RspLimit(cfg)
  }

  /** Such an access goes into the first packet. */
  lemma FirstStep(cfg: Config, s: Enc, num: nat, w: nat, ctx: Ctx, p: Trans)
    requires Legal(cfg) && First(s, num, w, ctx) && Fits(cfg, s, p)
    ensures First(AddPiece(cfg, s, p), num + 1, w + CtxBytes(ctx, p.acc) / 4 + CmdLen(Rw(p.acc.kind, 0, p.acc.n, [])),
                  Ctx(p.acc.am, p.acc.mode, BaseOf(ctx, p.acc.addr)))
  {
    MaskKept(s.mask, p.acc.am);
    hide CtxBytes, BaseOf, SetBit, CmdLen;
    assert MakeRoom(cfg, s, p.acc) == s;
  }

  /** Such a transaction is taken, and starts no new packet, with 40 bytes left. */
  lemma FirstOpen(cfg: Config, s: Enc, num: nat, w: nat, ctx: Ctx, t: Trans)
    requires Legal(cfg) && First(s, num, w, ctx) && num < cfg.numTransMax && 4 * w + 40 <= RqLimit(cfg) && s.rsp + 32 <= RspLimit(cfg)
    requires t.acc.addr % 8 == 0 && t.acc.am < 12
    requires if t.acc.kind.Fill? then t.acc.n > 0 && t.acc.n % 8 == 0 && t.acc.mode == 0 else t.acc.kind.Write? && (t.acc.n == 4 || t.acc.n == 8)
    requires W32(4 * w + t.acc.n + 4) < 4 * cfg.rqWiMax
    ensures Sane(s) && Admitted(cfg, s, t) && Opening(cfg, s, t) == [] && Mapped(t) == t
  {
    assert Manageable(cfg, s, t);
    assert FinIf(!Manageable(cfg, s, t)) == [] && Apply(cfg, s, []) == s;
    assert !NewPacket(cfg, s, t, t.acc.am);
  }

  /** A transaction of one piece that goes into the first packet. */
  lemma FirstTrans(cfg: Config, s: Enc, t: Trans, acts: seq<Act>, rest: seq<Trans>)
    requires Legal(cfg) && Sane(s) && Admitted(cfg, s, t) && Opening(cfg, s, t) == [] && Mapped(t) == t
    requires BodyActs(cfg, s, t) == acts
    ensures var r := Record(Apply(cfg, s, acts), t); Sane(r) && AddAll(cfg, s, [t] + rest) == AddAll(cfg, r, rest)
  {
    hide *;
    CompileIs(cfg, s, t);
    NoActs(cfg, s);
    assert [] + acts == acts;
    AddCons(cfg, s, t, rest);
  }

  lemma FirstKept(s: Enc, num: nat, w: nat, ctx: Ctx, t: Trans)
    requires First(s, num, w, ctx) && SizesOk(s)
    ensures First(Record(s, t), num, w, ctx) && SizesOk(Record(s, t)) && Sane(s) && Sane(Record(s, t))
  {}

  lemma StepSizes(cfg: Config, s: Enc, p: Trans)
    requires Legal(cfg) && SizesOk(s) && Sane(s)
    ensures SizesOk(AddPiece(cfg, s, p))
  {
    MakeRoomOver(cfg, s, p.acc);
    EmitSizes(cfg, MakeRoom(cfg, s, p.acc), p);
  }

  lemma OneFillAct(t: Trans)
    requires t.acc.kind.Fill? && 0 < t.acc.n <= 1024 && |t.acc.data| == 8
    ensures FillActs(t, 0) == [Add(t)]
  {
    SubAll(t);
    assert FillActs(t, t.acc.n) == [];
  }

  /** Sizes before small fill j. */
  lemma SmallParts(cfg: Config, s: Enc, j: nat)
    requires Legal(cfg) && FillsUp(cfg) && First(s, j, 3 + 4 * j, CTX0) && j < FillCount(cfg)
    ensures var t := FillOf(0, 0, 8);
      && j < cfg.numTransMax && 4 * (3 + 4 * j) + 40 <= RqLimit(cfg) && s.rsp + 32 <= RspLimit(cfg)
      && Fits(cfg, s, t) && W32(4 * (3 + 4 * j) + 12) < 4 * cfg.rqWiMax && CheckSum(s, t) < TWO32
      && CtxBytes(CTX0, t.acc) == 0 && BaseOf(CTX0, 0) == 0
  {
    Counts(cfg);
    hide FillCount, Odd;
  }

  /** The builder after small fill j. */
  lemma SmallFill(cfg: Config, s: Enc, j: nat, rest: seq<Trans>)
    requires Legal(cfg) && FillsUp(cfg) && First(s, j, 3 + 4 * j, CTX0) && SizesOk(s) && j < FillCount(cfg)
    ensures var t := FillOf(0, 0, 8); var r := Record(AddPiece(cfg, s, t), t);
      && Sane(s) && SizesOk(r) && First(r, j + 1, 3 + 4 * (j + 1), CTX0) && CheckSum(s, t) < TWO32
      && Sane(r) && AddAll(cfg, s, [t] + rest) == AddAll(cfg, r, rest) && TryAdd(cfg, s, t) == Some(r)
  {
    var t := FillOf(0, 0, 8);
    assert t.acc.kind == Fill && t.acc.addr == 0 && t.acc.am == 0 && t.acc.n == 8 && t.acc.mode == 0 && |t.acc.data| == 8;
    assert CmdLen(Rw(Fill, 0, 8, [])) == 4 && CTX0 == Ctx(0, 0, 0);
    hide *;
    SmallParts(cfg, s, j);
    FirstKept(s, j, 3 + 4 * j, CTX0, t);
    FirstOpen(cfg, s, j, 3 + 4 * j, CTX0, t);
    OneFillAct(t);
    FillBodyIs(cfg, s, t);
    FirstTrans(cfg, s, t, [Add(t)], rest);
    AddedIs(cfg, s, t, [Add(t)]);
    ApplyOne(cfg, s, t);
    FirstStep(cfg, s, j, 3 + 4 * j, CTX0, t);
    StepSizes(cfg, s, t);
    FirstKept(AddPiece(cfg, s, t), j + 1, 3 + 4 * (j + 1), CTX0, t);
  }

  lemma FillBodyIs(cfg: Config, s: Enc, t: Trans)
    requires Legal(cfg) && Sane(s) && t.acc.kind == Fill
    ensures BodyActs(cfg, s, t) == FillActs(t, 0)
  {}

  lemma AddedIs(cfg: Config, s: Enc, t: Trans, acts: seq<Act>)
    requires Legal(cfg) && Sane(s) && Admitted(cfg, s, t) && Opening(cfg, s, t) == [] && Mapped(t) == t
    requires BodyActs(cfg, s, t) == acts
    ensures TryAdd(cfg, s, t) == Some(Record(Apply(cfg, s, acts), t))
  {
    CompileIs(cfg, s, t);
    NoActs(cfg, s);
    assert [] + acts == acts;
  }

  /** Words in the packet after the write, and its context. */
  function OddWords(cfg: Config): nat
    requires Legal(cfg)
  {
    6 + 4 * FillCount(cfg) + Odd(cfg)
  }

  function OddCtx(cfg: Config): Ctx
    requires Legal(cfg)
  {
    var a := OddWrite(cfg).acc;
    Ctx(a.am, 1, a.addr)
  }

  lemma OddParts(cfg: Config, s: Enc)
    requires Legal(cfg) && FillsUp(cfg) && First(s, FillCount(cfg), 3 + 4 * FillCount(cfg), CTX0)
    ensures var k := FillCount(cfg); var t := OddWrite(cfg); var a := t.acc;
      && k < cfg.numTransMax && 4 * (3 + 4 * k) + 40 <= RqLimit(cfg) && s.rsp + 32 <= RspLimit(cfg)
      && a.kind == Write && (a.n == 4 || a.n == 8) && |a.data| == a.n && a.addr % 8 == 0 && a.am < 12 && ValidTrans(t)
      && W32(4 * (3 + 4 * k) + a.n + 4) < 4 * cfg.rqWiMax && CheckSum(s, t) < TWO32 && Fits(cfg, s, t)
      && 3 + 4 * k + CtxBytes(CTX0, a) / 4 + CmdLen(Rw(a.kind, 0, a.n, [])) == OddWords(cfg)
      && Ctx(a.am, a.mode, BaseOf(CTX0, a.addr)) == OddCtx(cfg)
      && WrBlk(cfg, s, 8, a.addr) == 8
  {
    Counts(cfg);
    hide FillCount;
  }

  lemma OddLadder(cfg: Config, s: Enc, t: Trans)
    requires Legal(cfg) && Sane(s) && t.acc.kind == Write && (t.acc.n == 4 || t.acc.n == 8) && |t.acc.data| == t.acc.n
    requires t.acc.addr % 8 == 0 && ValidTrans(t) && WrBlk(cfg, s, 8, t.acc.addr) == 8 && Mapped(t) == t
    ensures BodyActs(cfg, s, t) == [Add(t)]
  {
    hide WrBlk, Ladder, Mapped, ValidTrans;
    LadderBody(cfg, s, t);
    if t.acc.n == 4 {
      WordLadder(cfg, s, t);
    } else {
      AlignedLadder(cfg, s, t);
    }
  }

  /** The builder after the write. */
  lemma OddStep(cfg: Config, s: Enc, rest: seq<Trans>)
    requires Legal(cfg) && FillsUp(cfg) && First(s, FillCount(cfg), 3 + 4 * FillCount(cfg), CTX0) && SizesOk(s)
    ensures var t := OddWrite(cfg); var r := Record(AddPiece(cfg, s, t), t);
      && Sane(s) && SizesOk(r) && First(r, FillCount(cfg) + 1, OddWords(cfg), OddCtx(cfg)) && CheckSum(s, t) < TWO32
      && Sane(r) && AddAll(cfg, s, [t] + rest) == AddAll(cfg, r, rest) && TryAdd(cfg, s, t) == Some(r)
  {
    hide *;
    var t, k := OddWrite(cfg), FillCount(cfg);
    OddParts(cfg, s);
    FirstKept(s, k, 3 + 4 * k, CTX0, t);
    FirstOpen(cfg, s, k, 3 + 4 * k, CTX0, t);
    OddLadder(cfg, s, t);
    FirstTrans(cfg, s, t, [Add(t)], rest);
    AddedIs(cfg, s, t, [Add(t)]);
    ApplyOne(cfg, s, t);
    FirstStep(cfg, s, k, 3 + 4 * k, CTX0, t);
    StepSizes(cfg, s, t);
    FirstKept(AddPiece(cfg, s, t), k + 1, OddWords(cfg), OddCtx(cfg), t);
  }

  lemma EdgeParts(cfg: Config, s: Enc)
    requires Legal(cfg) && FillsUp(cfg) && First(s, FillCount(cfg) + 1, OddWords(cfg), OddCtx(cfg))
    ensures var k := FillCount(cfg) + 1; var t := EdgeFill(cfg); var n := LastLen(cfg);
      && k < cfg.numTransMax && 4 * OddWords(cfg) + 40 <= RqLimit(cfg) && s.rsp + 32 <= RspLimit(cfg)
      && t.acc.kind == Fill && t.acc.addr == EDGE && EDGE % 8 == 0 && t.acc.am == 2 && t.acc.mode == 0 && t.acc.n == n && n % 8 == 0 && n >= 1032
      && ValidTrans(t) && W32(4 * OddWords(cfg) + n + 4) < 4 * cfg.rqWiMax
      && (RqLimit(cfg) + 980 < 4 * cfg.rqWiMax ==> CheckSum(s, t) < TWO32)
  {
    Counts(cfg);
    hide FillCount;
  }

  /** The first piece leaves 24 bytes, which the second one needs with its new base. */
  lemma EdgePieces(cfg: Config, s: Enc)
    requires Legal(cfg) && FillsUp(cfg) && First(s, FillCount(cfg) + 1, OddWords(cfg), OddCtx(cfg))
    ensures var k := FillCount(cfg) + 1; var p := Sub(EdgeFill(cfg), 0, 1024);
      && Fits(cfg, s, p)
      && OddWords(cfg) + CtxBytes(OddCtx(cfg), p.acc) / 4 + CmdLen(Rw(p.acc.kind, 0, p.acc.n, [])) == OddWords(cfg) + 8
      && Ctx(p.acc.am, p.acc.mode, BaseOf(OddCtx(cfg), p.acc.addr)) == Ctx(2, 0, TWO32)
  {
    Counts(cfg);
    hide FillCount;
  }

  lemma EdgeSecond(cfg: Config, s: Enc, k: nat)
    requires Legal(cfg) && FillsUp(cfg) && First(s, FillCount(cfg) + 2, OddWords(cfg) + 8, Ctx(2, 0, TWO32)) && 0 < k
    ensures var p := Sub(EdgeFill(cfg), 1024, k);
      && Fits(cfg, s, p)
      && OddWords(cfg) + 8 + CtxBytes(Ctx(2, 0, TWO32), p.acc) / 4 + CmdLen(Rw(p.acc.kind, 0, p.acc.n, [])) == OddWords(cfg) + 14
      && 4 * (OddWords(cfg) + 14) == RqLimit(cfg)
  {
    Counts(cfg);
    hide FillCount;
  }

  lemma FullOver(cfg: Config, s: Enc, num: nat, w: nat, ctx: Ctx)
    requires Legal(cfg) && First(s, num, w, ctx) && 4 * w == RqLimit(cfg) && SizesOk(s)
    ensures Sane(s) && Over(cfg, s)
  {
    OverIs(cfg, s);
  }

  lemma EdgeActs(cfg: Config, s: Enc)
    ensures var t := EdgeFill(cfg); var k := SecondLen(cfg); var r := AddPiece(cfg, s, Sub(t, 0, 1024));
      Apply(cfg, s, FillActs(t, 0)) == Apply(cfg, AddPiece(cfg, r, Sub(t, 1024, k)), FillActs(t, 1024 + k))
  {
    var t := EdgeFill(cfg);
    var k := SecondLen(cfg);
    var p0, p1 := Sub(t, 0, 1024), Sub(t, 1024, k);
    assert t.acc.n == LastLen(cfg) >= 1032;
    hide Sub, AddPiece, LastLen, EdgeFill;
    assert FillActs(t, 1024) == [Add(p1)] + FillActs(t, 1024 + k);
    assert FillActs(t, 0) == [Add(p0)] + FillActs(t, 1024);
    ApplyAppend(cfg, s, [Add(p0)], FillActs(t, 1024));
    ApplyOne(cfg, s, p0);
    ApplyAppend(cfg, AddPiece(cfg, s, p0), [Add(p1)], FillActs(t, 1024 + k));
    ApplyOne(cfg, AddPiece(cfg, s, p0), p1);
  }

  /** The last fill makes the packet too long. */
  lemma EdgeOver(cfg: Config, s: Enc)
    requires Legal(cfg) && FillsUp(cfg) && First(s, FillCount(cfg) + 1, OddWords(cfg), OddCtx(cfg)) && SizesOk(s)
    ensures var t := EdgeFill(cfg); var b := AddAll(cfg, s, [t]);
      && Sane(s) && b.ok && Over(cfg, b.st)
      && (RqLimit(cfg) + 980 < 4 * cfg.rqWiMax ==> Unwrapped(cfg, s, [t]))
  {
    hide *;
    var t, num, k := EdgeFill(cfg), FillCount(cfg) + 1, SecondLen(cfg);
    EdgeParts(cfg, s);
    FirstKept(s, num, OddWords(cfg), OddCtx(cfg), t);
    FirstOpen(cfg, s, num, OddWords(cfg), OddCtx(cfg), t);
    FillBodyIs(cfg, s, t);
    EdgeActs(cfg, s);
    var p0, p1 := Sub(t, 0, 1024), Sub(t, 1024, k);
    var r0 := AddPiece(cfg, s, p0);
    var r1 := AddPiece(cfg, r0, p1);
    EdgePieces(cfg, s);
    FirstStep(cfg, s, num, OddWords(cfg), OddCtx(cfg), p0);
    StepSizes(cfg, s, p0);
    FirstKept(r0, num + 1, OddWords(cfg) + 8, Ctx(2, 0, TWO32), t);
    EdgeSecond(cfg, r0, k);
    FirstStep(cfg, r0, num + 1, OddWords(cfg) + 8, Ctx(2, 0, TWO32), p1);
    StepSizes(cfg, r0, p1);
    FullOver(cfg, r1, num + 2, OddWords(cfg) + 14, Ctx(p1.acc.am, p1.acc.mode, BaseOf(Ctx(2, 0, TWO32), p1.acc.addr)));
    ApplyKeeps(cfg, r1, FillActs(t, 1024 + k));
    RecordOver(cfg, Apply(cfg, s, FillActs(t, 0)), t);
    FirstTrans(cfg, s, t, FillActs(t, 0), []);
    AddedIs(cfg, s, t, FillActs(t, 0));
    assert [t] + [] == [t];
    var r := Record(Apply(cfg, s, FillActs(t, 0)), t);
    AddedAll(cfg, r);
    NoneUnwrapped(cfg, r);
    if RqLimit(cfg) + 980 < 4 * cfg.rqWiMax {
      MoreUnwrapped(cfg, s, t, r, []);
    }
  }

  lemma AddedAll(cfg: Config, s: Enc)
    requires Legal(cfg) && Sane(s)
    ensures AddAll(cfg, s, []) == Built(true, s)
  {}

  lemma NoneUnwrapped(cfg: Config, s: Enc)
    requires Legal(cfg) && Sane(s)
    ensures Unwrapped(cfg, s, [])
  {}

  lemma MoreUnwrapped(cfg: Config, s: Enc, t: Trans, r: Enc, rest: seq<Trans>)
    requires Legal(cfg) && Sane(s) && Sane(r) && TryAdd(cfg, s, t) == Some(r) && CheckSum(s, t) < TWO32 && Unwrapped(cfg, r, rest)
    ensures Unwrapped(cfg, s, [t] + rest)
  {
    hide TryAdd, CheckSum, Sane;
    assert ([t] + rest)[0] == t && ([t] + rest)[1..] == rest;
  }

  lemma {:induction false} FillUp(cfg: Config, s: Enc, j: nat, k: nat)
    requires Legal(cfg) && FillsUp(cfg) && First(s, j, 3 + 4 * j, CTX0) && SizesOk(s) && j + k == FillCount(cfg)
    ensures Sane(s) && var ts := FillsThen(cfg, k); var b := AddAll(cfg, s, ts);
      b.ok && Over(cfg, b.st) && (RqLimit(cfg) + 980 < 4 * cfg.rqWiMax ==> Unwrapped(cfg, s, ts))
    decreases k
  {
    hide Legal, FillsUp, First, SizesOk, FillCount, LastLen, FillOf, OddWrite, EdgeFill, Over, AddAll, Record, Sane, AddPiece, TryAdd, CheckSum,
         Unwrapped, RqLimit, OddWords, OddCtx;
    if k == 0 {
      var t := OddWrite(cfg);
      var r := Record(AddPiece(cfg, s, t), t);
      OddStep(cfg, s, [EdgeFill(cfg)]);
      EdgeOver(cfg, r);
      assert FillsThen(cfg, 0) == [t] + [EdgeFill(cfg)];
      if RqLimit(cfg) + 980 < 4 * cfg.rqWiMax {
        MoreUnwrapped(cfg, s, t, r, [EdgeFill(cfg)]);
      }
    } else {
      var t := FillOf(0, 0, 8);
      var r := Record(AddPiece(cfg, s, t), t);
      SmallFill(cfg, s, j, FillsThen(cfg, k - 1));
      FillUp(cfg, r, j + 1, k - 1);
      if RqLimit(cfg) + 980 < 4 * cfg.rqWiMax {
        MoreUnwrapped(cfg, s, t, r, FillsThen(cfg, k - 1));
      }
    }
  }

  lemma {:induction false} FillsValid(cfg: Config, k: nat)
    requires Legal(cfg)
    ensures ValidAll(FillsThen(cfg, k)) && FillsThen(cfg, k) != []
  {
    if k > 0 {
      FillsValid(cfg, k - 1);
    }
  }

  lemma StartFirst(cfg: Config, last: nat)
    requires Legal(cfg)
    ensures First(Start(last), 0, 3, CTX0) && SizesOk(Start(last)) && Sane(Start(last))
  {}

  lemma OverPacket(cfg: Config, st: Enc)
    requires Over(cfg, st)
    ensures exists i :: 0 <= i < |Packets(st)| && 4 * PacketLen(Packets(st)[i]) > RqLimit(cfg)
  {
    hide PacketLen, RqLimit, Packets;
    var i :| 0 <= i < |Packets(st)| && TooLong(cfg, Packets(st)[i]);
    assert 4 * PacketLen(Packets(st)[i]) > RqLimit(cfg);
  }

  lemma ManyAdded(cfg: Config, last: nat)
    requires Legal(cfg) && Sane(Start(last)) && FillsThen(cfg, FillCount(cfg)) != []
    ensures ManyFills(cfg) == FillsThen(cfg, FillCount(cfg))
    ensures SetTrans(cfg, last, ManyFills(cfg)) == AddAll(cfg, Start(last), ManyFills(cfg))
  {}

  /** In every legal configuration in which fills can fill a packet, also below 1060 bytes, an accepted
      list with fills has a packet longer than the limit; and if the request buffer is more than 980 bytes
      larger than the limit, no sum wraps for it. */
  lemma FillsExceed(cfg: Config, last: nat)
    requires Legal(cfg) && FillsUp(cfg)
    ensures var ts := ManyFills(cfg); var b := SetTrans(cfg, last, ts);
      && ValidAll(ts) && b.ok && Sane(Start(last))
      && (RqLimit(cfg) + 980 < 4 * cfg.rqWiMax ==> Unwrapped(cfg, Start(last), ts))
      && exists i :: 0 <= i < |Packets(b.st)| && 4 * PacketLen(Packets(b.st)[i]) > RqLimit(cfg)
  {
    hide *;
    StartFirst(cfg, last);
    FillUp(cfg, Start(last), 0, FillCount(cfg));
    FillsValid(cfg, FillCount(cfg));
    ManyAdded(cfg, last);
    OverPacket(cfg, SetTrans(cfg, last, ManyFills(cfg)).st);
  }

  /** Does every packet of every accepted list whose sums do not wrap keep to the limit? */
  ghost predicate KeepLimit(cfg: Config, last: nat)
    requires Legal(cfg)
  {
    Sane(Start(last)) && forall ts: seq<Trans> :: ValidAll(ts) && SetTrans(cfg, last, ts).ok && Unwrapped(cfg, Start(last), ts) ==>
      AllKeep(cfg, Packets(SetTrans(cfg, last, ts).st))
  }

  ghost predicate AllKeep(cfg: Config, ps: seq<Packet>) {
    forall i :: 0 <= i < |ps| ==> 4 * PacketLen(ps[i]) <= RqLimit(cfg)
  }

  /** The limit is kept by all lists whose sums do not wrap exactly if the request buffer is at most 980 bytes
      larger than the limit. */
  lemma UnwrappedExactly(cfg: Config, last: nat)
    requires Legal(cfg) && RqLimit(cfg) >= 1060 && FillsUp(cfg)
    ensures KeepLimit(cfg, last) <==> 4 * cfg.rqWiMax <= RqLimit(cfg) + 980
  {
    hide SetTrans, Legal, PacketLen, ValidAll, Packets, RqLimit, FillsUp, Start, Sane, Unwrapped, ManyFills;
    StartFirst(cfg, last);
    if 4 * cfg.rqWiMax <= RqLimit(cfg) + 980 {
      forall ts: seq<Trans> | ValidAll(ts) && SetTrans(cfg, last, ts).ok && Unwrapped(cfg, Start(last), ts)
        ensures AllKeep(cfg, Packets(SetTrans(cfg, last, ts).st))
      {
        UnwrappedKeeps(cfg, last, ts);
      }
    } else {
      FillsExceed(cfg, last);
      assert !AllKeep(cfg, Packets(SetTrans(cfg, last, ManyFills(cfg)).st));
    }
  }
}
