/** The pieces of a transaction tile it, whatever packet switches happen in between. */
module Tiling {
  import opened Words
  import opened Protocol
  import opened Semantics
  import opened Encoder

  function Piece(act: Act): seq<Trans> {
    if act.Add? && act.p.acc.n != 0 then [act.p] else []
  }

  /** The PL0 accesses a list of steps adds. */
  function Pieces(acts: seq<Act>): seq<Trans> {
    if acts == [] then []
    else Piece(acts[0]) + Pieces(acts[1..])
  }

  lemma {:induction false} PiecesAppend(a: seq<Act>, b: seq<Act>)
    ensures Pieces(a + b) == Pieces(a) + Pieces(b)
  {
    if a == [] {
      assert a + b == b;
    } else {
      assert (a + b)[1..] == a[1..] + b;
      PiecesAppend(a[1..], b);
    }
  }

  lemma {:induction false} ApplyAppend(cfg: Config, st: Enc, a: seq<Act>, b: seq<Act>)
    ensures Apply(cfg, st, a + b) == Apply(cfg, Apply(cfg, st, a), b)
    decreases |a|
  {
    if a == [] {
      assert a + b == b;
    } else {
      assert (a + b)[1..] == a[1..] + b;
      ApplyAppend(cfg, Do(cfg, st, a[0]), a[1..], b);
    }
  }

  lemma DoRecords(cfg: Config, st: Enc, act: Act)
    ensures var s := Do(cfg, st, act);
      s.pl0 == st.pl0 + Piece(act) && s.rw == st.rw && s.cuts == st.cuts
  {}

  /** Steps append exactly their pieces to the PL0 records and touch no API record. */
  lemma {:induction false} ApplyRecords(cfg: Config, st: Enc, acts: seq<Act>)
    ensures Apply(cfg, st, acts).pl0 == st.pl0 + Pieces(acts)
    ensures Apply(cfg, st, acts).rw == st.rw && Apply(cfg, st, acts).cuts == st.cuts
    decreases |acts|
  {
    hide Do;
    if acts != [] {
      DoRecords(cfg, st, acts[0]);
      ApplyRecords(cfg, Do(cfg, st, acts[0]), acts[1..]);
    }
  }

  ghost predicate ValidPieces(ps: seq<Trans>) {
    forall i :: 0 <= i < |ps| ==> ValidPiece(ps[i])
  }

  /** ps tile the bytes lo to hi of t with accesses the protocol has. */
  ghost predicate Covers(t: Trans, lo: nat, ps: seq<Trans>, hi: nat) {
    lo <= hi <= t.acc.n && Tile(t, lo, ps, hi) && ValidPieces(ps)
  }

  lemma CoversConcat(t: Trans, lo: nat, a: seq<Trans>, mid: nat, b: seq<Trans>, hi: nat)
    requires Covers(t, lo, a, mid) && Covers(t, mid, b, hi)
    ensures Covers(t, lo, a + b, hi)
  {
    TileConcat(t, lo, a, mid, b, hi);
  }

  lemma CoversOne(t: Trans, lo: nat, n: nat)
    requires ValidTrans(t) && t.acc.am < 16 && lo + n <= t.acc.n
    requires ValidSize(t.acc.kind, n) && Aligned(t.acc.addr + lo, n)
    requires t.acc.kind.Fill? ==> lo % 8 == 0
    ensures Covers(t, lo, [Sub(t, lo, n)], lo + n)
  {
    var p := Sub(t, lo, n);
    assert [p][1..] == [];
    assert Tile(t, lo + n, [p][1..], lo + n);
    assert ValidPiece(p);
  }

  lemma CutCovers(c: bool, t: Trans, off: nat, k: nat)
    requires ValidTrans(t) && t.acc.am < 16 && !t.acc.kind.Fill? && off <= t.acc.n
    requires c ==> (k == 1 || k == 2 || k == 4) && off + k <= t.acc.n && Aligned(t.acc.addr + off, k)
    ensures Covers(t, off, Pieces(Cut(c, t, off, k)), Skip(c, off, k))
  {
    if c {
      CoversOne(t, off, k);
      assert Pieces(Cut(c, t, off, k)) == [Sub(t, off, k)];
    }
  }

  lemma Covers3(t: Trans, o0: nat, a: seq<Trans>, o1: nat, b: seq<Trans>, o2: nat, c: seq<Trans>, o3: nat)
    requires Covers(t, o0, a, o1) && Covers(t, o1, b, o2) && Covers(t, o2, c, o3)
    ensures Covers(t, o0, a + b + c, o3)
  {
    CoversConcat(t, o0, a, o1, b, o2);
    CoversConcat(t, o0, a + b, o2, c, o3);
  }

  lemma Pieces3(a: seq<Act>, b: seq<Act>, c: seq<Act>)
    ensures Pieces(a + b + c) == Pieces(a) + Pieces(b) + Pieces(c)
  {
    PiecesAppend(a + b, c);
    PiecesAppend(a, b);
  }

  /** A cut of k bytes is taken exactly when it is needed to reach a 2k-aligned address. */
  lemma HeadStep(t: Trans, off: nat, k: nat)
    requires k == 1 || k == 2 || k == 4
    requires off <= t.acc.n && (t.acc.n - off >= k ==> (t.acc.addr + off) % k == 0)
    ensures var o := Skip(HeadCut(t, off, k), off, k);
      off <= o <= t.acc.n && (t.acc.n - o >= k ==> (t.acc.addr + o) % (2 * k) == 0)
  {
    if t.acc.n - off >= k {
      NextMultiple(t.acc.addr + off, k);
    }
  }

  lemma NextMultiple(x: nat, k: nat)
    requires (k == 1 || k == 2 || k == 4) && x % k == 0
    ensures if x / k % 2 == 1 then (x + k) % (2 * k) == 0 else x % (2 * k) == 0
  {}

  /** After the head of the ladder the address is 8-aligned, or fewer bytes than its alignment remain. */
  lemma HeadAlign(t: Trans)
    ensures var o1 := Skip(HeadCut(t, 0, 1), 0, 1);
      var o2 := Skip(HeadCut(t, o1, 2), o1, 2);
      var o3 := HeadEnd(t);
      && o1 <= o2 <= o3 <= t.acc.n
      && (HeadCut(t, o1, 2) ==> Aligned(t.acc.addr + o1, 2))
      && (HeadCut(t, o2, 4) ==> Aligned(t.acc.addr + o2, 4))
      && (t.acc.n - o3 >= 2 ==> (t.acc.addr + o3) % 4 == 0)
      && (t.acc.n - o3 >= 4 ==> (t.acc.addr + o3) % 8 == 0)
  {
    var o1 := Skip(HeadCut(t, 0, 1), 0, 1);
    var o2 := Skip(HeadCut(t, o1, 2), o1, 2);
    HeadStep(t, 0, 1);
    HeadStep(t, o1, 2);
    HeadStep(t, o2, 4);
    hide HeadCut;
  }

  lemma HeadCovers(t: Trans)
    requires ValidTrans(t) && t.acc.am < 16 && !t.acc.kind.Fill?
    ensures Covers(t, 0, Pieces(HeadActs(t)), HeadEnd(t))
  {
    var o1 := Skip(HeadCut(t, 0, 1), 0, 1);
    var o2 := Skip(HeadCut(t, o1, 2), o1, 2);
    HeadAlign(t);
    CutCovers(HeadCut(t, 0, 1), t, 0, 1);
    CutCovers(HeadCut(t, o1, 2), t, o1, 2);
    CutCovers(HeadCut(t, o2, 4), t, o2, 4);
    Pieces3(Cut(HeadCut(t, 0, 1), t, 0, 1), Cut(HeadCut(t, o1, 2), t, o1, 2), Cut(HeadCut(t, o2, 4), t, o2, 4));
    Covers3(t, 0, Pieces(Cut(HeadCut(t, 0, 1), t, 0, 1)), o1, Pieces(Cut(HeadCut(t, o1, 2), t, o1, 2)), o2,
            Pieces(Cut(HeadCut(t, o2, 4), t, o2, 4)), HeadEnd(t));
  }

  lemma HeadAlign8(t: Trans)
    ensures HeadEnd(t) <= t.acc.n
    ensures t.acc.n - HeadEnd(t) >= 4 ==> (t.acc.addr + HeadEnd(t)) % 8 == 0
    ensures t.acc.n - HeadEnd(t) >= 2 ==> (t.acc.addr + HeadEnd(t)) % 4 == 0
  {
    HeadAlign(t);
  }

  lemma BlocksEndIs(t: Trans)
    ensures BlocksEnd(t) == HeadEnd(t) + (t.acc.n - HeadEnd(t)) / 8 * 8
  {}

  lemma TailArith(x: nat, d: nat)
    requires d >= 2 ==> x % 4 == 0
    ensures d % 8 >= 2 ==> (x + d / 8 * 8) % 4 == 0
  {
    assert (x + 4 * (d / 8 * 2)) % 4 == x % 4;
  }

  lemma BlocksEndAlign(t: Trans)
    ensures t.acc.n - BlocksEnd(t) >= 2 ==> (t.acc.addr + BlocksEnd(t)) % 4 == 0
  {
    hide HeadEnd, BlocksEnd;
    HeadAlign8(t);
    BlocksEndIs(t);
    var x, d := t.acc.addr + HeadEnd(t), t.acc.n - HeadEnd(t);
    TailArith(x, d);
    assert t.acc.n - BlocksEnd(t) == d % 8;
  }

  lemma TailAlign(t: Trans)
    ensures var o1 := BlocksEnd(t);
      var o2 := Skip(TailCut(t, o1, 4), o1, 4);
      && (TailCut(t, o1, 4) ==> Aligned(t.acc.addr + o1, 4))
      && (TailCut(t, o2, 2) ==> Aligned(t.acc.addr + o2, 2))
  {
    hide BlocksEnd;
    BlocksEndAlign(t);
  }

  lemma TailSteps(t: Trans)
    ensures var o1 := BlocksEnd(t); var o2 := Skip(TailCut(t, o1, 4), o1, 4); var o3 := Skip(TailCut(t, o2, 2), o2, 2);
      && o1 <= t.acc.n && (TailCut(t, o1, 4) ==> o1 + 4 <= t.acc.n) && o2 <= t.acc.n && (TailCut(t, o2, 2) ==> o2 + 2 <= t.acc.n)
      && o3 <= t.acc.n && (TailCut(t, o3, 1) ==> o3 + 1 <= t.acc.n) && Skip(TailCut(t, o3, 1), o3, 1) == t.acc.n
      && Aligned(t.acc.addr + o3, 1)
  {
    hide BlocksEnd;
    assert BlocksEnd(t) <= t.acc.n < BlocksEnd(t) + 8;
  }

  lemma TailCovers(t: Trans)
    requires ValidTrans(t) && t.acc.am < 16 && !t.acc.kind.Fill?
    ensures Covers(t, BlocksEnd(t), Pieces(TailActs(t)), t.acc.n)
  {
    var o1 := BlocksEnd(t);
    var o2 := Skip(TailCut(t, o1, 4), o1, 4);
    var o3 := Skip(TailCut(t, o2, 2), o2, 2);
    TailSteps(t);
    TailAlign(t);
    hide TailCut, BlocksEnd, Skip, Covers, Cut, Aligned, Pieces, ValidTrans;
    CutCovers(TailCut(t, o1, 4), t, o1, 4);
    CutCovers(TailCut(t, o2, 2), t, o2, 2);
    CutCovers(TailCut(t, o3, 1), t, o3, 1);
    Pieces3(Cut(TailCut(t, o1, 4), t, o1, 4), Cut(TailCut(t, o2, 2), t, o2, 2), Cut(TailCut(t, o3, 1), t, o3, 1));
    Covers3(t, o1, Pieces(Cut(TailCut(t, o1, 4), t, o1, 4)), o2, Pieces(Cut(TailCut(t, o2, 2), t, o2, 2)), o3,
            Pieces(Cut(TailCut(t, o3, 1), t, o3, 1)), t.acc.n);
  }

  lemma RoundPieces(t: Trans, off: nat, nb: nat)
    requires off <= t.acc.n
    ensures Pieces(BlkRound(t, off, nb)) == if nb == 0 then [] else [Sub(t, off, nb)]
  {
    var tail := BlkRound(t, off, nb)[1..];
    assert tail == [] || tail == [Fin];
    assert Pieces(tail) == [];
  }

  lemma NextBlock(x: nat, left: nat, nb: nat)
    requires nb % 8 == 0 && nb <= left && x % 8 == 0
    ensures nb + (left - nb) / 8 * 8 == left / 8 * 8
    ensures (x + nb) % 8 == 0
  {}

  lemma RoundCovers(t: Trans, off: nat, nb: nat, rest: seq<Trans>, hi: nat)
    requires ValidTrans(t) && t.acc.am < 16 && !t.acc.kind.Fill?
    requires off + nb <= t.acc.n && nb % 8 == 0 && nb <= BLK_SIZE && (t.acc.addr + off) % 8 == 0
    requires Covers(t, off + nb, rest, hi)
    ensures Covers(t, off, Pieces(BlkRound(t, off, nb)) + rest, hi)
  {
    hide Covers, ValidTrans, Sub, BlkRound;
    RoundPieces(t, off, nb);
    if nb != 0 {
      CoversOne(t, off, nb);
      CoversConcat(t, off, [Sub(t, off, nb)], off + nb, rest, hi);
    } else {
      assert [] + rest == rest;
    }
  }

  lemma CoversNone(t: Trans, off: nat)
    requires off <= t.acc.n < off + 8
    ensures Covers(t, off, [], off + (t.acc.n - off) / 8 * 8)
  {}

  lemma {:induction false} BlocksCover(cfg: Config, st: Enc, t: Trans, off: nat)
    requires Legal(cfg) && Sane(st) && off <= t.acc.n
    requires ValidTrans(t) && t.acc.am < 16 && !t.acc.kind.Fill?
    requires t.acc.n - off >= 8 ==> (t.acc.addr + off) % 8 == 0
    ensures Covers(t, off, Pieces(Blocks(cfg, st, t, off)), off + (t.acc.n - off) / 8 * 8)
    decreases t.acc.n - off, Used(st)
  {
    hide Apply, Blk, RdBlk, WrBlk, BlkRound, ValidTrans, ValidPiece, Covers, Legal;
    if t.acc.n - off < 8 {
      CoversNone(t, off);
    } else {
      var nb := Blk(cfg, st, t.acc.kind, t.acc.n - off, t.acc.addr + off);
      var round := BlkRound(t, off, nb);
      var s := Apply(cfg, st, round);
      BlkRoundProgress(cfg, st, t, off);
      NextBlock(t.acc.addr + off, t.acc.n - off, nb);
      BlocksCover(cfg, s, t, off + nb);
      RoundCovers(t, off, nb, Pieces(Blocks(cfg, s, t, off + nb)), off + (t.acc.n - off) / 8 * 8);
      PiecesAppend(round, Blocks(cfg, s, t, off + nb));
    }
  }

  lemma {:induction false} FillCovers(t: Trans, off: nat)
    requires ValidTrans(t) && t.acc.am < 16 && t.acc.kind.Fill?
    requires off <= t.acc.n && off % 8 == 0 && t.acc.n % 8 == 0 && t.acc.addr % 8 == 0
    ensures Covers(t, off, Pieces(FillActs(t, off)), t.acc.n)
    decreases t.acc.n - off
  {
    if off < t.acc.n {
      var k := Min(t.acc.n - off, BLK_SIZE);
      FillCovers(t, off + k);
      CoversOne(t, off, k);
      CoversConcat(t, off, [Sub(t, off, k)], off + k, Pieces(FillActs(t, off + k)), t.acc.n);
    }
  }

  lemma LadderCovers(cfg: Config, st: Enc, t: Trans)
    requires Legal(cfg) && Sane(st)
    requires ValidTrans(t) && t.acc.am < 16 && !t.acc.kind.Fill?
    ensures Covers(t, 0, Pieces(Ladder(cfg, st, t)), t.acc.n)
  {
    hide Apply, HeadActs, TailActs, HeadEnd, BlocksEnd, HeadCut, Covers, ValidTrans;
    ApplySane(cfg, st, HeadActs(t));
    var o, s := HeadEnd(t), Apply(cfg, st, HeadActs(t));
    var blocks := Blocks(cfg, s, t, o);
    HeadAlign8(t);
    BlocksCover(cfg, s, t, o);
    BlocksEndIs(t);
    HeadCovers(t);
    TailCovers(t);
    LadderJoin(t, HeadActs(t), o, blocks, BlocksEnd(t), TailActs(t));
  }

  lemma LadderJoin(t: Trans, a: seq<Act>, o1: nat, b: seq<Act>, o2: nat, c: seq<Act>)
    requires Covers(t, 0, Pieces(a), o1) && Covers(t, o1, Pieces(b), o2) && Covers(t, o2, Pieces(c), t.acc.n)
    ensures Covers(t, 0, Pieces(a + b + c), t.acc.n)
  {
    Pieces3(a, b, c);
    Covers3(t, 0, Pieces(a), o1, Pieces(b), o2, Pieces(c), t.acc.n);
  }

  lemma OpeningPieces(cfg: Config, st: Enc, t: Trans)
    requires Legal(cfg)
    ensures Pieces(Opening(cfg, st, t)) == []
  {
    var open := Opening(cfg, st, t);
    assert forall i :: 0 <= i < |open| ==> open[i] == Fin;
    FinsPieces(open);
  }

  lemma {:induction false} FinsPieces(acts: seq<Act>)
    requires forall i :: 0 <= i < |acts| ==> acts[i] == Fin
    ensures Pieces(acts) == []
  {
    if acts != [] {
      FinsPieces(acts[1..]);
    }
  }

  lemma PrefixFree(open: seq<Act>, acts: seq<Act>)
    requires Pieces(open) == []
    ensures Pieces(open + acts) == Pieces(acts)
  {
    PiecesAppend(open, acts);
  }

  /** Splitting partitions: for every builder state and every admitted transaction, the PL0
      accesses are its bytes 0 to n in ascending order, each of a size and alignment PL0 has. */
  lemma CompileCovers(cfg: Config, st: Enc, t: Trans)
    requires Legal(cfg) && Sane(st) && ValidTrans(t) && Admitted(cfg, st, t)
    ensures Covers(Mapped(t), 0, Pieces(Compile(cfg, st, t)), t.acc.n)
  {
    var open := Opening(cfg, st, t);
    var s := Apply(cfg, st, open);
    ApplySane(cfg, st, open);
    OpeningPieces(cfg, st, t);
    if t.acc.kind.Fill? {
      assert Mapped(t) == t;
      FillCovers(t, 0);
      PrefixFree(open, FillActs(t, 0));
    } else {
      LadderCovers(cfg, s, Mapped(t));
      PrefixFree(open, Ladder(cfg, s, Mapped(t)));
    }
  }
}
