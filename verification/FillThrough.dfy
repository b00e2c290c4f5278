/** When fill32 goes through: which of its lists are accepted, and that an accepted one fits. */
module FillThrough {
  import opened Words
  import opened Protocol
  import opened Semantics
  import opened Encoder
  import opened Tiling
  import opened Request
  import opened Compiler
  import opened Limits
  import opened Fill32

  /** Buffers for at least one access. */
  predicate Usable(cfg: Config) {
    Legal(cfg) && cfg.maxRw >= 1 && cfg.numTransMax >= 1
  }

  /** A state between transactions of fill32. */
  predicate Between(st: Enc) {
    Sane(st) && st.ctx.mode == 0
  }

  /** The request grew from st to s by at most rq bytes, its reply by at most rsp. */
  predicate Grown(st: Enc, s: Enc, rq: nat, rsp: nat) {
    4 * s.wi <= 4 * st.wi + rq && s.rsp <= st.rsp + rsp && Between(s)
  }

  /** A transaction of fill32, or a piece of one. */
  predicate Simple(t: Trans) {
    && t.acc.mode == 0 && t.acc.am < AM12
    && ((t.acc.kind.Write? && t.acc.n == 4) || (t.acc.kind.Fill? && t.acc.n > 0))
  }

  /** Bytes an access adds to a request at most: three context commands, and its own. */
  function Growth(t: Trans): nat {
    12 + if t.acc.kind.Fill? then 16 else 8
  }

  /** An access costs at most a packet switch, which a fresh packet does not need. */
  lemma PieceGrows(cfg: Config, st: Enc, p: Trans)
    requires Usable(cfg) && Between(st) && Simple(p)
    ensures Grown(st, AddPiece(cfg, st, p), 16 + Growth(p), 16)
    ensures Fresh(st) ==> Grown(st, AddPiece(cfg, st, p), Growth(p), 4)
  {}

  /** A packet switch before a transaction leaves a fresh packet. */
  lemma OpenGrows(cfg: Config, st: Enc, t: Trans)
    requires Usable(cfg) && Between(st) && Simple(t)
    ensures var s := Apply(cfg, st, Opening(cfg, st, t));
      s == st || (Fresh(s) && Grown(st, s, 16, 12))
  {
    var first := FinIf(!Manageable(cfg, st, t));
    var s := Apply(cfg, st, first);
    assert !Manageable(cfg, st, t) ==> s == Finalize(st) && !NewPacket(cfg, s, Mapped(t), t.acc.am) by {
      hide Manageable;
      assert [Fin][1..] == [] && Apply(cfg, Finalize(st), []) == Finalize(st);
    }
    hide Manageable, NewPacket;
    var second := FinIf(NewPacket(cfg, s, Mapped(t), t.acc.am));
    ApplyAppend(cfg, st, first, second);
    assert [Fin][1..] == [] && Apply(cfg, Finalize(st), []) == Finalize(st);
  }

  /** Number of pieces a fill is cut into. */
  function Chunks(n: nat): nat {
    (n + 1023) / 1024
  }

  lemma ChunksNext(n: nat)
    ensures 0 < n <= 1024 ==> Chunks(n) == 1
    ensures n > 1024 ==> Chunks(n) == 1 + Chunks(n - 1024)
  {}

  lemma GrownOn(a: Enc, b: Enc, c: Enc, rq1: nat, rsp1: nat, rq2: nat, rsp2: nat)
    requires Grown(a, b, rq1, rsp1) && Grown(b, c, rq2, rsp2)
    ensures Grown(a, c, rq1 + rq2, rsp1 + rsp2)
  {}

  lemma {:induction false} FillGrows(cfg: Config, st: Enc, t: Trans, off: nat)
    requires Usable(cfg) && Between(st) && Simple(t) && t.acc.kind.Fill? && off < t.acc.n
    ensures var k := Chunks(t.acc.n - off); var s := Apply(cfg, st, FillActs(t, off));
      k > 0 && Grown(st, s, 44 * k, 16 * k) && (Fresh(st) ==> Grown(st, s, 44 * k - 16, 16 * k - 12))
    decreases t.acc.n - off
  {
    hide AddPiece, Fresh, Usable, Grown, Chunks, Apply, Simple, Between;
    var j := Min(t.acc.n - off, BLK_SIZE);
    var p := Sub(t, off, j);
    var s := AddPiece(cfg, st, p);
    assert Simple(p) && Growth(p) == 28 by { PieceSimple(t, off, j); }
    PieceGrows(cfg, st, p);
    assert Grown(st, s, 44, 16);
    ChunksNext(t.acc.n - off);
    ApplyOne(cfg, st, p);
    assert FillActs(t, off) == [Add(p)] + FillActs(t, off + j);
    if off + j < t.acc.n {
      var k := Chunks(t.acc.n - off - j);
      assert Between(s) by { GrownBetween(st, s, 44, 16); }
      FillGrows(cfg, s, t, off + j);
      ApplyAppend(cfg, st, [Add(p)], FillActs(t, off + j));
      var r := Apply(cfg, s, FillActs(t, off + j));
      GrownOn(st, s, r, 44, 16, 44 * k, 16 * k);
      if Fresh(st) {
        GrownOn(st, s, r, 28, 4, 44 * k, 16 * k);
      }
    } else {
      assert FillActs(t, off) == [Add(p)];
    }
  }

  lemma GrownBetween(st: Enc, s: Enc, rq: nat, rsp: nat)
    requires Grown(st, s, rq, rsp)
    ensures Between(s)
  {}

  lemma PieceSimple(t: Trans, off: nat, j: nat)
    requires Simple(t) && t.acc.kind.Fill? && off + j <= t.acc.n && j > 0
    ensures Simple(Sub(t, off, j)) && Growth(Sub(t, off, j)) == 28
  {}

  lemma SimpleMapped(t: Trans)
    requires Simple(t)
    ensures Mapped(t) == t
  {}

  /** A fill of n bytes adds at most 44 bytes per kilobyte begun. */
  lemma FillGoes(cfg: Config, st: Enc, t: Trans)
    requires Usable(cfg) && Between(st) && Simple(t) && t.acc.kind.Fill?
    ensures var k := Chunks(t.acc.n); Grown(st, Apply(cfg, st, Compile(cfg, st, t)), 44 * k, 16 * k)
  {
    assert t.acc.n > 0 && Legal(cfg) && Sane(st);
    hide *;
    var s, k := Apply(cfg, st, Opening(cfg, st, t)), Chunks(t.acc.n);
    OpenGrows(cfg, st, t);
    CompileIs(cfg, st, t);
    assert BodyActs(cfg, s, t) == FillActs(t, 0) by { FillBody(cfg, s, t); }
    ApplyAppend(cfg, st, Opening(cfg, st, t), FillActs(t, 0));
    if s != st {
      GrownBetween(st, s, 16, 12);
    }
    assert t.acc.n - 0 == t.acc.n;
    FillGrows(cfg, s, t, 0);
    if s != st {
      GrownOn(st, s, Apply(cfg, s, FillActs(t, 0)), 16, 12, 44 * k - 16, 16 * k - 12);
    }
  }

  lemma FillBody(cfg: Config, s: Enc, t: Trans)
    requires Legal(cfg) && Sane(s) && t.acc.kind.Fill?
    ensures BodyActs(cfg, s, t) == FillActs(t, 0)
  {}

  lemma WordParts(t: Trans)
    requires Simple(t) && t.acc.kind.Write? && |t.acc.data| == 4
    ensures !t.acc.kind.Fill? && t.acc.n == 4 && ValidData(t.acc.kind, t.acc.n, t.acc.data) && Mapped(t) == t
  {}

  lemma WordCompile(cfg: Config, st: Enc, t: Trans)
    requires Usable(cfg) && Between(st) && Simple(t) && t.acc.kind.Write? && t.acc.addr % 4 == 0 && |t.acc.data| == 4
    ensures Apply(cfg, st, Compile(cfg, st, t)) == AddPiece(cfg, Apply(cfg, st, Opening(cfg, st, t)), t)
  {
    assert Legal(cfg) && Sane(st);
    hide *;
    CompileIs(cfg, st, t);
    WordParts(t);
    WordLadder(cfg, Apply(cfg, st, Opening(cfg, st, t)), t);
    LadderBody(cfg, Apply(cfg, st, Opening(cfg, st, t)), t);
    ApplyAppend(cfg, st, Opening(cfg, st, t), [Add(t)]);
    ApplyOne(cfg, Apply(cfg, st, Opening(cfg, st, t)), t);
  }

  /** A word adds at most 36 bytes. */
  lemma WordGoes(cfg: Config, st: Enc, t: Trans)
    requires Usable(cfg) && Between(st) && Simple(t) && t.acc.kind.Write? && t.acc.addr % 4 == 0 && |t.acc.data| == 4
    ensures Grown(st, Apply(cfg, st, Compile(cfg, st, t)), 36, 16)
  {
    var s := Apply(cfg, st, Opening(cfg, st, t));
    assert Growth(t) == 20;
    WordCompile(cfg, st, t);
    OpenGrows(cfg, st, t);
    hide *;
    if s != st {
      GrownBetween(st, s, 16, 12);
      PieceGrows(cfg, s, t);
      GrownOn(st, s, AddPiece(cfg, s, t), 16, 12, 20, 4);
    } else {
      PieceGrows(cfg, s, t);
    }
  }

  /** Size of the request when the fill is checked: the word before it is in, with its context. */
  function FillStart(addr: nat, am: nat): nat {
    if Aligned8(addr) then 12
    else 20 + (if am != 0 then 4 else 0) + (if addr < TWO16 then 0 else if addr < TWO32 then 4 else 8)
  }

  /** Does the fill leave the last word of the request buffer free, if its payload is counted in full? */
  predicate FillRoom(cfg: Config, addr: nat, numBytes: nat, am: nat) {
    var n := FillBytes(addr, numBytes);
    n == 0 || FillStart(addr, am) + n + 4 < 4 * cfg.rqWiMax
  }

  lemma FirstOpening(cfg: Config, last: nat, t: Trans)
    requires Usable(cfg) && Simple(t) && t.acc.kind.Write? && t.acc.addr % 4 == 0
    ensures Admitted(cfg, Start(last), t) && Opening(cfg, Start(last), t) == []
  {
    var st := Start(last);
    assert Manageable(cfg, st, t);
    assert FinIf(!Manageable(cfg, st, t)) == [] && Apply(cfg, st, []) == st;
    assert !NewPacket(cfg, st, Mapped(t), t.acc.am);
  }

  lemma FirstPiece(cfg: Config, last: nat, t: Trans)
    requires Usable(cfg) && Simple(t) && t.acc.kind.Write? && !Aligned8(t.acc.addr)
    ensures var s := AddPiece(cfg, Start(last), t);
      4 * s.wi == FillStart(t.acc.addr, t.acc.am) && s.rsp == 12 && Between(s)
  {
    assert MakeRoom(cfg, Start(last), t.acc) == Start(last);
  }

  lemma FirstWord(cfg: Config, last: nat, t: Trans)
    requires Usable(cfg) && Simple(t) && t.acc.kind.Write? && !Aligned8(t.acc.addr) && t.acc.addr % 4 == 0 && |t.acc.data| == 4
    ensures Admitted(cfg, Start(last), t) && Between(Start(last))
    ensures var s := Apply(cfg, Start(last), Compile(cfg, Start(last), t));
      4 * s.wi == FillStart(t.acc.addr, t.acc.am) && s.rsp == 12 && Between(s)
  {
    assert Between(Start(last));
    hide *;
    FirstOpening(cfg, last, t);
    WordCompile(cfg, Start(last), t);
    NoActs(cfg, Start(last));
    FirstPiece(cfg, last, t);
  }

  // ---- The list of fill32 ----

  function Added(cfg: Config, st: Enc, t: Trans): Enc
    requires Legal(cfg) && Sane(st)
  {
    Record(Apply(cfg, st, Compile(cfg, st, t)), Mapped(t))
  }

  lemma AddStep(cfg: Config, st: Enc, t: Trans, rest: seq<Trans>)
    requires Legal(cfg) && Sane(st)
    ensures Admitted(cfg, st, t) ==> Sane(Added(cfg, st, t))
    ensures AddAll(cfg, st, [t] + rest)
      == if Admitted(cfg, st, t) then AddAll(cfg, Added(cfg, st, t), rest) else Built(false, Start(st.last))
  {
    hide Admitted, Compile, Apply, Mapped, Sane, Legal;
    if Admitted(cfg, st, t) {
      AddCons(cfg, st, t, rest);
    }
  }

  lemma AddNone(cfg: Config, st: Enc)
    requires Legal(cfg) && Sane(st)
    ensures AddAll(cfg, st, []) == Built(true, st)
  {}

  lemma LastAdmitted(cfg: Config, st: Enc, t: Trans)
    requires Usable(cfg) && Simple(t) && t.acc.kind.Write? && 4 * st.wi + 8 < 4 * cfg.rqWiMax && st.rsp + 4 < cfg.maxRspSize
    ensures Admitted(cfg, st, t)
  {}

  lemma FillAdmitted(cfg: Config, st: Enc, t: Trans)
    requires Usable(cfg) && Simple(t) && t.acc.kind.Fill? && t.acc.addr % 8 == 0 && t.acc.n % 8 == 0
    requires 4 * st.wi + t.acc.n + 4 < TWO32 && st.rsp + 4 < cfg.maxRspSize
    ensures Admitted(cfg, st, t) <==> 4 * st.wi + t.acc.n + 4 < 4 * cfg.rqWiMax
  {}

  /** The last word, once the fill is in. */
  lemma LastGoes(cfg: Config, st: Enc, t: Trans)
    requires Usable(cfg) && Between(st) && Simple(t) && t.acc.kind.Write? && t.acc.addr % 4 == 0 && |t.acc.data| == 4
    requires 4 * st.wi + 8 < 4 * cfg.rqWiMax && st.rsp + 4 < cfg.maxRspSize
    ensures var b := AddAll(cfg, st, [t]); b.ok && Grown(st, b.st, 36, 16)
  {
    assert Legal(cfg) && Sane(st);
    hide *;
    LastAdmitted(cfg, st, t);
    WordGoes(cfg, st, t);
    AddsGrown(cfg, st, t, 36, 16);
    AddStep(cfg, st, t, []);
    assert [t] + [] == [t];
    AddNone(cfg, Added(cfg, st, t));
  }

  lemma AddsGrown(cfg: Config, st: Enc, t: Trans, rq: nat, rsp: nat)
    requires Legal(cfg) && Sane(st) && Grown(st, Apply(cfg, st, Compile(cfg, st, t)), rq, rsp)
    ensures Grown(st, Added(cfg, st, t), rq, rsp) && Sane(Added(cfg, st, t)) && Between(Added(cfg, st, t))
  {
    hide Apply, Compile;
  }

  /** Sizes before the fill, and room for its reply. */
  predicate Early(cfg: Config, st: Enc, n: nat) {
    4 * st.wi <= 32 && st.rsp <= 12 && n + 36 < TWO32 && n / 64 + 48 <= cfg.maxRspSize
  }

  predicate Small(cfg: Config, st: Enc, n: nat) {
    RqSize(st) <= 4 * cfg.rqWiMax && RspSize(st) <= n / 64 + 48
  }

  /** After the fill there is room for one more word. */
  lemma RoomAfter(cfg: Config, st: Enc, s: Enc, n: nat)
    requires Usable(cfg) && Early(cfg, st, n) && n % 8 == 0 && n > 0 && 4 * st.wi + n + 4 < 4 * cfg.rqWiMax
    requires Grown(st, s, 44 * Chunks(n), 16 * Chunks(n))
    ensures 4 * s.wi + 40 <= 4 * cfg.rqWiMax && s.rsp + 20 <= n / 64 + 48
  {
    if n <= 1024 {
      ChunksNext(n);
    }
  }

  lemma SmallAfter(cfg: Config, s: Enc, r: Enc, n: nat)
    requires Grown(s, r, 36, 16) && 4 * s.wi + 40 <= 4 * cfg.rqWiMax && s.rsp + 20 <= n / 64 + 48
    ensures Small(cfg, r, n)
  {}

  lemma RestGoes(cfg: Config, s: Enc, word: Trans, last: bool, n: nat)
    requires Usable(cfg) && Between(s) && n / 64 + 48 <= cfg.maxRspSize
    requires Simple(word) && word.acc.kind.Write? && word.acc.addr % 4 == 0 && |word.acc.data| == 4
    requires 4 * s.wi + 40 <= 4 * cfg.rqWiMax && s.rsp + 20 <= n / 64 + 48
    ensures Legal(cfg) && Sane(s)
    ensures var b := AddAll(cfg, s, if last then [word] else []); b.ok && Small(cfg, b.st, n)
  {
    assert Legal(cfg) && Sane(s);
    hide *;
    if last {
      LastGoes(cfg, s, word);
      SmallAfter(cfg, s, AddAll(cfg, s, [word]).st, n);
    } else {
      AddNone(cfg, s);
      SmallNow(cfg, s, n);
    }
  }

  /** The fill, and what comes after it. */
  lemma FillThen(cfg: Config, st: Enc, fill: Trans, n: nat, word: Trans, last: bool)
    requires Usable(cfg) && Between(st) && Early(cfg, st, n) && n > 0 && n % 8 == 0
    requires Simple(fill) && fill.acc.kind.Fill? && fill.acc.addr % 8 == 0 && fill.acc.n == n
    requires Simple(word) && word.acc.kind.Write? && word.acc.addr % 4 == 0 && |word.acc.data| == 4
    ensures Legal(cfg) && Sane(st)
    ensures var b := AddAll(cfg, st, [fill] + if last then [word] else []);
      && (b.ok <==> 4 * st.wi + n + 4 < 4 * cfg.rqWiMax)
      && (b.ok ==> Small(cfg, b.st, n))
  {
    assert Legal(cfg) && Sane(st);
    assert 4 * st.wi + n + 4 < TWO32 && st.rsp + 4 < cfg.maxRspSize && n / 64 + 48 <= cfg.maxRspSize;
    hide *;
    var s := Added(cfg, st, fill);
    FillAdmitted(cfg, st, fill);
    FillGoes(cfg, st, fill);
    AddsGrown(cfg, st, fill, 44 * Chunks(n), 16 * Chunks(n));
    AddStep(cfg, st, fill, if last then [word] else []);
    if Admitted(cfg, st, fill) {
      RoomAfter(cfg, st, s, n);
      RestGoes(cfg, s, word, last, n);
    }
  }

  lemma PartsSimple(addr: nat, d: seq<byte>, n: nat, am: nat)
    requires am < AM12
    ensures var t := WriteWord(addr + n, d, am); Simple(t) && t.acc.kind.Write? && t.acc.addr == addr + n && t.acc.data == d
    ensures var t := FillWords(addr, d, n, am); (n > 0 ==> Simple(t)) && t.acc.kind.Fill? && t.acc.addr == addr && t.acc.n == n
  {}

  lemma EarlyRoom(cfg: Config, st: Enc, n: nat)
    requires Usable(cfg) && Early(cfg, st, n)
    ensures n / 64 + 48 <= cfg.maxRspSize && (n == 0 ==> 4 * st.wi + 40 <= 4 * cfg.rqWiMax && st.rsp + 20 <= n / 64 + 48)
  {}

  lemma BodyGoes(cfg: Config, st: Enc, addr: nat, d: seq<byte>, n: nat, last: bool, am: nat)
    requires Usable(cfg) && Between(st) && Early(cfg, st, n) && n % 8 == 0 && addr % 8 == 0 && |d| == 4 && am < AM12
    ensures var b := AddAll(cfg, st, BodyList(addr, d, n, last, am));
      && (b.ok <==> n == 0 || 4 * st.wi + n + 4 < 4 * cfg.rqWiMax)
      && (b.ok ==> Small(cfg, b.st, n))
  {
    var fill, word := FillWords(addr, d, n, am), WriteWord(addr + n, d, am);
    assert (addr + n) % 4 == 0;
    assert BodyList(addr, d, n, last, am) == (if n > 0 then [fill] else []) + if last then [word] else [];
    PartsSimple(addr, d, n, am);
    EarlyRoom(cfg, st, n);
    hide *;
    if n > 0 {
      FillThen(cfg, st, fill, n, word, last);
    } else {
      RestGoes(cfg, st, word, last, n);
      assert [] + (if last then [word] else []) == if last then [word] else [];
    }
  }

  lemma SmallNow(cfg: Config, s: Enc, n: nat)
    requires 4 * s.wi + 40 <= 4 * cfg.rqWiMax && s.rsp + 20 <= n / 64 + 48
    ensures Small(cfg, s, n)
  {}

  lemma StartIs(last: nat)
    ensures 4 * Start(last).wi == 12 && Start(last).rsp == 8 && Between(Start(last)) && Sane(Start(last))
  {}

  /** The request before the fill. */
  function HeadState(cfg: Config, last: nat, addr: nat, d: seq<byte>, am: nat): Enc
    requires Legal(cfg)
  {
    if Aligned8(addr) then Start(last) else Added(cfg, Start(last), WriteWord(addr, d, am))
  }

  lemma HeadGoes(cfg: Config, last: nat, addr: nat, d: seq<byte>, am: nat, rest: seq<Trans>)
    requires Usable(cfg) && addr % 4 == 0 && |d| == 4 && am < AM12
    ensures var s := HeadState(cfg, last, addr, d, am);
      && 4 * s.wi == FillStart(addr, am) <= 32 && s.rsp <= 12 && Between(s) && Sane(s)
      && AddAll(cfg, Start(last), HeadList(addr, d, am) + rest) == AddAll(cfg, s, rest)
  {
    StartIs(last);
    if Aligned8(addr) {
      assert [] + rest == rest;
    } else {
      var t := WriteWord(addr, d, am);
      assert Simple(t) && |t.acc.data| == 4;
      hide AddAll, Compile, Apply, Admitted, Simple, Start, Usable;
      FirstWord(cfg, last, t);
      AddStep(cfg, Start(last), t, rest);
    }
  }

  /** A call of fill32 the client can serve at all, with room for the reply. */
  predicate FillCall(cfg: Config, addr: nat, numBytes: nat, am: nat) {
    && Usable(cfg) && am < AM12 && addr % 4 == 0 && numBytes % 4 == 0 && 0 < numBytes < TWO32 - 36
    && numBytes / 64 + 48 <= cfg.maxRspSize
  }

  /** fill32 is accepted exactly if its fill, counted in full although it takes 16 bytes a kilobyte, leaves
      the last word of the request buffer free; an accepted one fits the request buffer, and its reply has at
      most 48 bytes and 16 more a kilobyte. */
  lemma FillAccepted(cfg: Config, last: nat, addr: nat, d: seq<byte>, numBytes: nat, am: nat)
    requires FillCall(cfg, addr, numBytes, am) && |d| == 4
    ensures var b := SetTrans(cfg, last, FillList(addr, d, numBytes, am));
      && (b.ok <==> FillRoom(cfg, addr, numBytes, am))
      && (b.ok ==> RqSize(b.st) <= 4 * cfg.rqWiMax && RspSize(b.st) <= numBytes / 64 + 48)
  {
    var n, a := FillBytes(addr, numBytes), addr + HeadBytes(addr);
    var tail := HeadBytes(addr) + n < numBytes;
    var body := BodyList(a, d, n, tail, am);
    WordsSplit(addr, numBytes);
    assert n <= numBytes && a % 8 == 0 && Legal(cfg);
    assert n / 64 <= numBytes / 64;
    assert FillList(addr, d, numBytes, am) == HeadList(addr, d, am) + body;
    assert FillList(addr, d, numBytes, am) != [];
    hide FillList, HeadList, BodyList, FillBytes, HeadBytes, Usable, Between, AddAll, FillStart, HeadState, Start, Legal, RqSize, RspSize;
    HeadGoes(cfg, last, addr, d, am, body);
    BodyGoes(cfg, HeadState(cfg, last, addr, d, am), a, d, n, tail, am);
  }
}
