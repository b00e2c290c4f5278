/** What a request means: PL0 accesses in context, byte-level operations, and memory. */
module Semantics {
  import opened Words
  import opened Protocol

  /** One PL0 access with its context resolved: address map, access mode, full address. */
  datatype Access = Access(kind: Kind, am: nat, mode: nat, addr: nat, n: nat, data: seq<byte>)

  /** A transaction of the client API, or a PL0 piece of one. ptr is where read data goes. */
  datatype Trans = Trans(acc: Access, ptr: nat)

  predicate Aligned(addr: nat, n: nat) {
    if n == 1 then true else if n == 2 then addr % 2 == 0 else if n == 4 then addr % 4 == 0 else addr % 8 == 0
  }

  /** A transaction as the API takes it; data has the length the caller promises. */
  predicate ValidTrans(t: Trans) {
    && t.acc.n < TWO32 && t.acc.mode < TWO16 && t.acc.am < 256
    && t.acc.addr + t.acc.n <= TWO64
    && ValidData(t.acc.kind, t.acc.n, t.acc.data)
  }

  /** A single PL0 access: a size the protocol has, naturally aligned or an 8-aligned block. */
  predicate ValidPiece(p: Trans) {
    && p.acc.am < 16 && p.acc.mode < TWO16 && p.acc.addr + p.acc.n <= TWO64
    && ValidData(p.acc.kind, p.acc.n, p.acc.data)
    && ValidSize(p.acc.kind, p.acc.n) && Aligned(p.acc.addr, p.acc.n)
  }

  /** Bytes lo to lo + n of a transaction. */
  function Sub(t: Trans, lo: nat, n: nat): Trans {
    var d := if t.acc.kind.Write? && lo + n <= |t.acc.data| then t.acc.data[lo..lo + n] else t.acc.data;
    Trans(t.acc.(addr := t.acc.addr + lo, n := n, data := d), t.ptr + lo)
  }

  /** ps are the bytes lo to hi of t, in ascending order and without gaps. */
  ghost predicate Tile(t: Trans, lo: nat, ps: seq<Trans>, hi: nat)
    decreases |ps|
  {
    if ps == [] then lo == hi
    else
      && ps[0].acc.n > 0 && lo + ps[0].acc.n <= hi
      && ps[0] == Sub(t, lo, ps[0].acc.n)
      && (t.acc.kind.Fill? ==> lo % 8 == 0)
      && Tile(t, lo + ps[0].acc.n, ps[1..], hi)
  }

  lemma {:induction false} TileLe(t: Trans, lo: nat, ps: seq<Trans>, hi: nat)
    requires Tile(t, lo, ps, hi)
    ensures lo <= hi
    decreases |ps|
  {
    if ps != [] {
      TileLe(t, lo + ps[0].acc.n, ps[1..], hi);
    }
  }

  lemma {:induction false} TileConcat(t: Trans, lo: nat, a: seq<Trans>, mid: nat, b: seq<Trans>, hi: nat)
    requires Tile(t, lo, a, mid) && Tile(t, mid, b, hi) && mid <= hi
    ensures Tile(t, lo, a + b, hi)
    decreases |a|
  {
    hide Sub;
    if a == [] {
      assert a + b == b;
    } else {
      var n, rest := a[0].acc.n, a[1..];
      TileLe(t, lo + n, rest, mid);
      TileConcat(t, lo + n, rest, mid, b, hi);
      assert a + b == [a[0]] + (rest + b);
    }
  }

  // ---- Server side: commands in context ----

  datatype Ctx = Ctx(am: nat, mode: nat, base: nat)

  const CTX0 := Ctx(0, 0, 0)

  datatype Exec = Exec(ctx: Ctx, accs: seq<Access>)

  function StepCmd(x: Exec, c: Cmd): Exec {
    match c
    case SetMap(m) => x.(ctx := x.ctx.(am := m))
    case SetMode(m) => x.(ctx := x.ctx.(mode := m))
    case SetBase(b) => x.(ctx := x.ctx.(base := b))
    case Rw(k, a, n, d) => x.(accs := x.accs + [Access(k, x.ctx.am, x.ctx.mode, x.ctx.base + a, n, d)])
  }

  /** A PL1 frame starts with map 0, mode 0 and base 0. */
  function ExecCmds(cmds: seq<Cmd>): Exec {
    if cmds == [] then Exec(CTX0, []) else StepCmd(ExecCmds(cmds[..|cmds| - 1]), cmds[|cmds| - 1])
  }

  lemma ExecAppend(cmds: seq<Cmd>, c: Cmd)
    ensures ExecCmds(cmds + [c]) == StepCmd(ExecCmds(cmds), c)
  {
    assert (cmds + [c])[..|cmds|] == cmds;
  }

  function Accesses(p: Packet): seq<Access> {
    ExecCmds(p.cmds).accs
  }

  function StreamAccesses(ps: seq<Packet>): seq<Access> {
    if ps == [] then [] else Accesses(ps[0]) + StreamAccesses(ps[1..])
  }

  lemma {:induction false} StreamAccessesAppend(a: seq<Packet>, b: seq<Packet>)
    ensures StreamAccesses(a + b) == StreamAccesses(a) + StreamAccesses(b)
  {
    if a == [] {
      assert a + b == b;
    } else {
      assert (a + b)[1..] == a[1..] + b;
      StreamAccessesAppend(a[1..], b);
    }
  }

  // ---- Byte-level meaning ----

  datatype Op =
    | Load(am: nat, mode: nat, addr: nat, ptr: nat)
    | Store(am: nat, mode: nat, addr: nat, val: byte)

  function OpAt(t: Trans, i: nat): Op
    requires ValidData(t.acc.kind, t.acc.n, t.acc.data) && i < t.acc.n
  {
    match t.acc.kind
    case Read => Load(t.acc.am, t.acc.mode, t.acc.addr + i, t.ptr + i)
    case Write => Store(t.acc.am, t.acc.mode, t.acc.addr + i, t.acc.data[i])
    case Fill => Store(t.acc.am, t.acc.mode, t.acc.addr + i, t.acc.data[i % 8])
  }

  /** The byte accesses of a transaction, in ascending address order. */
  function Ops(t: Trans): (ops: seq<Op>)
    requires ValidData(t.acc.kind, t.acc.n, t.acc.data)
    ensures |ops| == t.acc.n
  {
    seq(t.acc.n, i requires 0 <= i < t.acc.n => OpAt(t, i))
  }

  ghost predicate ValidDatas(ts: seq<Trans>) {
    forall i :: 0 <= i < |ts| ==> ValidData(ts[i].acc.kind, ts[i].acc.n, ts[i].acc.data)
  }

  function OpsOf(ts: seq<Trans>): seq<Op>
    requires ValidDatas(ts)
  {
    if ts == [] then [] else Ops(ts[0]) + OpsOf(ts[1..])
  }

  lemma {:induction false} OpsAppend(a: seq<Trans>, b: seq<Trans>)
    requires ValidDatas(a) && ValidDatas(b)
    ensures OpsOf(a + b) == OpsOf(a) + OpsOf(b)
  {
    if a == [] {
      assert a + b == b;
    } else {
      assert (a + b)[1..] == a[1..] + b;
      OpsAppend(a[1..], b);
    }
  }

  lemma SubOps(t: Trans, lo: nat, n: nat)
    requires ValidTrans(t) && lo + n <= t.acc.n
    requires t.acc.kind.Fill? ==> lo % 8 == 0
    ensures var a := Sub(t, lo, n).acc; a.kind == t.acc.kind && a.n == n && ValidData(a.kind, n, a.data)
    ensures Ops(Sub(t, lo, n)) == Ops(t)[lo..lo + n]
  {
    var p := Sub(t, lo, n);
    forall i | 0 <= i < n ensures OpAt(p, i) == OpAt(t, lo + i) {
      if t.acc.kind.Fill? {
        assert (lo + i) % 8 == i % 8;
      }
    }
  }

  /** Splitting keeps the meaning: the pieces perform the byte accesses lo to hi of t. */
  lemma {:induction false} TileOps(t: Trans, lo: nat, ps: seq<Trans>, hi: nat)
    requires ValidTrans(t) && Tile(t, lo, ps, hi) && lo <= hi <= t.acc.n
    ensures ValidDatas(ps)
    ensures OpsOf(ps) == Ops(t)[lo..hi]
    decreases |ps|
  {
    hide Sub;
    if ps != [] {
      var n, rest := ps[0].acc.n, ps[1..];
      TileLe(t, lo + n, rest, hi);
      TileOps(t, lo + n, rest, hi);
      SubOps(t, lo, n);
      assert ps == [ps[0]] + rest;
      assert OpsOf(ps) == Ops(t)[lo..lo + n] + Ops(t)[lo + n..hi];
    }
  }

  // ---- Memory ----

  datatype Loc = Loc(am: nat, addr: nat)
  type Mem = map<Loc, byte>
  type Heap = map<nat, byte>

  /** Device memory and the client's own memory. */
  datatype World = World(mem: Mem, heap: Heap)

  function Peek(m: Mem, l: Loc): byte {
    if l in m then m[l] else 0
  }

  function RunOp(w: World, op: Op): World {
    match op
    case Load(am, _, addr, ptr) => w.(heap := w.heap[ptr := Peek(w.mem, Loc(am, addr))])
    case Store(am, _, addr, val) => w.(mem := w.mem[Loc(am, addr) := val])
  }

  /** Running byte accesses one after the other. */
  function RunOps(w: World, ops: seq<Op>): World
    decreases |ops|
  {
    if ops == [] then w else RunOps(RunOp(w, ops[0]), ops[1..])
  }

  lemma {:induction false} RunConcat(w: World, a: seq<Op>, b: seq<Op>)
    ensures RunOps(w, a + b) == RunOps(RunOps(w, a), b)
    decreases |a|
  {
    if a == [] {
      assert a + b == b;
    } else {
      assert (a + b)[1..] == a[1..] + b;
      RunConcat(RunOp(w, a[0]), a[1..], b);
    }
  }
}
