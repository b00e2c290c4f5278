/** fill32 is a loop storing a word at every fourth address, whatever it is split into. */
module Fill32 {
  import opened Words
  import opened Errors
  import opened Protocol
  import opened Semantics
  import opened Encoder
  import opened Request
  import opened EndToEnd

  /** The word loop: k words with the bytes d from addr on. */
  function StoreWords(m: Mem, am: nat, addr: nat, d: seq<byte>, k: nat): Mem
    decreases k
  {
    if k == 0 then m else StoreWords(Flash(m, am, addr, d), am, addr + 4, d, k - 1)
  }

  lemma {:induction false} FlashPeek(m: Mem, am: nat, addr: nat, d: seq<byte>, l: Loc)
    ensures Peek(Flash(m, am, addr, d), l) == if l.am == am && addr <= l.addr < addr + |d| then d[l.addr - addr] else Peek(m, l)
    decreases |d|
  {
    if d != [] {
      FlashPeek(m[Loc(am, addr) := d[0]], am, addr + 1, d[1..], l);
    }
  }

  /** The word loop writes its words and touches nothing else. */
  lemma {:induction false} StoredWords(m: Mem, am: nat, addr: nat, d: seq<byte>, k: nat, l: Loc)
    requires |d| == 4
    ensures Peek(StoreWords(m, am, addr, d, k), l) ==
      if l.am == am && addr <= l.addr < addr + 4 * k then d[(l.addr - addr) % 4] else Peek(m, l)
    decreases k
  {
    if k > 0 {
      StoredWords(Flash(m, am, addr, d), am, addr + 4, d, k - 1, l);
      FlashPeek(m, am, addr, d, l);
      if l.addr >= addr + 4 {
        assert (l.addr - addr) % 4 == (l.addr - (addr + 4)) % 4;
      }
    }
  }

  lemma {:induction false} StoreSplit(m: Mem, am: nat, addr: nat, d: seq<byte>, a: nat, b: nat)
    ensures StoreWords(m, am, addr, d, a + b) == StoreWords(StoreWords(m, am, addr, d, a), am, addr + 4 * a, d, b)
    decreases a
  {
    hide Flash;
    if a > 0 {
      StoreSplit(Flash(m, am, addr, d), am, addr + 4, d, a - 1, b);
    }
  }

  lemma {:induction false} FlashAppend(m: Mem, am: nat, addr: nat, x: seq<byte>, y: seq<byte>)
    ensures Flash(m, am, addr, x + y) == Flash(Flash(m, am, addr, x), am, addr + |x|, y)
    decreases |x|
  {
    if x == [] {
      assert x + y == y;
    } else {
      assert (x + y)[1..] == x[1..] + y;
      FlashAppend(m[Loc(am, addr) := x[0]], am, addr + 1, x[1..], y);
    }
  }

  function Repeat(d: seq<byte>, k: nat): (r: seq<byte>)
    requires |d| == 4
    ensures |r| == 4 * k
  {
    seq<byte>(4 * k, i requires 0 <= i => d[i % 4])
  }

  lemma {:induction false} FlashWords(m: Mem, am: nat, addr: nat, d: seq<byte>, k: nat)
    requires |d| == 4
    ensures Flash(m, am, addr, Repeat(d, k)) == StoreWords(m, am, addr, d, k)
    decreases k
  {
    if k > 0 {
      FlashAppend(m, am, addr, d, Repeat(d, k - 1));
      FlashWords(Flash(m, am, addr, d), am, addr + 4, d, k - 1);
      RepeatCons(d, k);
    } else {
      assert Repeat(d, 0) == [];
    }
  }

  lemma RepeatCons(d: seq<byte>, k: nat)
    requires |d| == 4 && k > 0
    ensures Repeat(d, k) == d + Repeat(d, k - 1)
  {
    forall i | 0 <= i < 4 * k ensures Repeat(d, k)[i] == (d + Repeat(d, k - 1))[i] {
      if i >= 4 {
        assert i % 4 == (i - 4) % 4;
      }
    }
  }

  /** The 64-bit pattern of two equal words, repeated, is the word repeated. */
  lemma PatternIsRepeat(d: seq<byte>, n: nat)
    requires |d| == 4 && n % 8 == 0
    ensures seq<byte>(n, i requires 0 <= i => (d + d)[i % 8]) == Repeat(d, n / 4)
  {
    forall i | 0 <= i < n ensures (d + d)[i % 8] == d[i % 4] {
      assert i % 8 == i % 4 || i % 8 == i % 4 + 4;
    }
  }

  function WriteWord(addr: nat, d: seq<byte>, am: nat): Trans {
    Trans(Access(Write, am, 0, addr, 4, d), 0)
  }

  function FillWords(addr: nat, d: seq<byte>, n: nat, am: nat): Trans {
    Trans(Access(Fill, am, 0, addr, n, d + d), 0)
  }

  lemma RunWrite(w: World, t: Trans)
    requires |t.acc.data| == 4 && t == WriteWord(t.acc.addr, t.acc.data, t.acc.am)
    ensures RunOps(w, Ops(t)) == w.(mem := StoreWords(w.mem, t.acc.am, t.acc.addr, t.acc.data, 1))
  {
    ServeIsRun(w, t);
    assert StoreWords(w.mem, t.acc.am, t.acc.addr, t.acc.data, 1) == Flash(w.mem, t.acc.am, t.acc.addr, t.acc.data);
  }

  lemma RunFill(w: World, t: Trans, d: seq<byte>)
    requires |d| == 4 && t.acc.n % 8 == 0 && t == FillWords(t.acc.addr, d, t.acc.n, t.acc.am)
    ensures RunOps(w, Ops(t)) == w.(mem := StoreWords(w.mem, t.acc.am, t.acc.addr, d, t.acc.n / 4))
  {
    ServeIsRun(w, t);
    PatternIsRepeat(d, t.acc.n);
    FlashWords(w.mem, t.acc.am, t.acc.addr, d, t.acc.n / 4);
  }

  /** ts stores the word d at k consecutive multiples of four, from addr on. */
  ghost predicate Stores(ts: seq<Trans>, am: nat, addr: nat, d: seq<byte>, k: nat) {
    ValidAll(ts) && ValidDatas(MappedAll(ts)) && forall w: World ::
      RunOps(w, OpsOf(MappedAll(ts))) == w.(mem := StoreWords(w.mem, MapOf(am), addr, d, k))
  }

  lemma StoresNothing(am: nat, addr: nat, d: seq<byte>)
    ensures Stores([], am, addr, d, 0)
  {
    assert MappedAll([]) == [];
  }

  /** t stores the word d at k consecutive multiples of four, from addr on. */
  predicate WordTrans(t: Trans, am: nat, addr: nat, d: seq<byte>, k: nat) {
    |d| == 4 && ((k == 1 && t == WriteWord(addr, d, am)) || (k % 2 == 0 && t == FillWords(addr, d, 4 * k, am)))
  }

  lemma RunWords(w: World, t: Trans, am: nat, addr: nat, d: seq<byte>, k: nat)
    requires WordTrans(t, am, addr, d, k)
    ensures ValidData(Mapped(t).acc.kind, Mapped(t).acc.n, Mapped(t).acc.data)
    ensures RunOps(w, Ops(Mapped(t))) == w.(mem := StoreWords(w.mem, MapOf(am), addr, d, k))
  {
    hide RunOps, Ops, StoreWords;
    if k == 1 && t == WriteWord(addr, d, am) {
      RunWrite(w, Mapped(t));
    } else {
      assert 4 * k / 4 == k && (4 * k) % 8 == 0;
      RunFill(w, Mapped(t), d);
    }
  }

  lemma MappedMore(ts: seq<Trans>, t: Trans)
    requires ValidDatas(MappedAll(ts)) && ValidData(t.acc.kind, t.acc.n, t.acc.data)
    ensures MappedAll(ts + [t]) == MappedAll(ts) + [Mapped(t)] && ValidDatas(MappedAll(ts + [t]))
    ensures OpsOf(MappedAll(ts + [t])) == OpsOf(MappedAll(ts)) + Ops(Mapped(t))
  {
    OpsAppend(MappedAll(ts), [Mapped(t)]);
    OneOp(Mapped(t));
    assert MappedAll(ts + [t]) == MappedAll(ts) + [Mapped(t)];
  }

  lemma OneOp(t: Trans)
    requires ValidData(t.acc.kind, t.acc.n, t.acc.data)
    ensures OpsOf([t]) == Ops(t)
  {
    assert [t][1..] == [] && OpsOf([]) == [];
  }

  lemma StoresAt(w: World, ts: seq<Trans>, t: Trans, am: nat, addr: nat, d: seq<byte>, j: nat, k: nat)
    requires WordTrans(t, am, addr + 4 * j, d, k) && ValidDatas(MappedAll(ts)) && ValidDatas(MappedAll(ts + [t]))
    requires RunOps(w, OpsOf(MappedAll(ts))) == w.(mem := StoreWords(w.mem, MapOf(am), addr, d, j))
    ensures RunOps(w, OpsOf(MappedAll(ts + [t]))) == w.(mem := StoreWords(w.mem, MapOf(am), addr, d, j + k))
  {
    hide *;
    DataOk(t, am, addr + 4 * j, d, k);
    RunWords(RunOps(w, OpsOf(MappedAll(ts))), t, am, addr + 4 * j, d, k);
    MappedMore(ts, t);
    RunConcat(w, OpsOf(MappedAll(ts)), Ops(Mapped(t)));
    StoreSplit(w.mem, MapOf(am), addr, d, j, k);
  }

  lemma DataOk(t: Trans, am: nat, addr: nat, d: seq<byte>, k: nat)
    requires WordTrans(t, am, addr, d, k)
    ensures ValidData(t.acc.kind, t.acc.n, t.acc.data)
  {}

  lemma StoresMore(ts: seq<Trans>, t: Trans, am: nat, addr: nat, d: seq<byte>, j: nat, k: nat)
    requires Stores(ts, am, addr, d, j) && WordTrans(t, am, addr + 4 * j, d, k) && ValidTrans(t)
    ensures Stores(ts + [t], am, addr, d, j + k)
  {
    DataOk(t, am, addr + 4 * j, d, k);
    MappedMore(ts, t);
    hide RunOps, StoreWords, OpsOf, MappedAll, Mapped, WordTrans, ValidDatas, ValidTrans;
    forall w: World ensures RunOps(w, OpsOf(MappedAll(ts + [t]))) == w.(mem := StoreWords(w.mem, MapOf(am), addr, d, j + k)) {
      StoresAt(w, ts, t, am, addr, d, j, k);
    }
  }

  lemma WordOk(addr: nat, d: seq<byte>, am: nat)
    requires |d| == 4 && addr + 4 <= TWO64 && am < 256
    ensures WordTrans(WriteWord(addr, d, am), am, addr, d, 1) && ValidTrans(WriteWord(addr, d, am))
  {}

  lemma FillOk(addr: nat, d: seq<byte>, k: nat, am: nat)
    requires |d| == 4 && addr + 8 * k <= TWO64 && 8 * k < TWO32 && am < 256
    ensures WordTrans(FillWords(addr, d, 8 * k, am), am, addr, d, 2 * k) && ValidTrans(FillWords(addr, d, 8 * k, am))
  {}

  predicate Aligned8(addr: nat) {
    addr % 8 == 0
  }

  /** Every fill is one rw_add_fill takes: 8-aligned, in access mode 0. */
  ghost predicate FillsAligned(ts: seq<Trans>) {
    forall i :: 0 <= i < |ts| && ts[i].acc.kind.Fill? ==> Aligned8(ts[i].acc.addr) && ts[i].acc.n % 8 == 0 && ts[i].acc.mode == 0
  }

  lemma FillsMore(ts: seq<Trans>, t: Trans)
    requires FillsAligned(ts) && (t.acc.kind.Fill? ==> Aligned8(t.acc.addr) && t.acc.n % 8 == 0 && t.acc.mode == 0)
    ensures FillsAligned(ts + [t])
  {}

  function HeadList(addr: nat, d: seq<byte>, am: nat): seq<Trans> {
    if Aligned8(addr) then [] else [WriteWord(addr, d, am)]
  }

  function HeadBytes(addr: nat): nat {
    if Aligned8(addr) then 0 else 4
  }

  /** The part of the transfer that becomes a 64-bit fill. */
  function FillBytes(addr: nat, numBytes: nat): nat {
    if numBytes < HeadBytes(addr) then 0 else (numBytes - HeadBytes(addr)) / 8 * 8
  }

  /** The fill and the last word, from the 8-aligned address on. */
  function BodyList(addr: nat, d: seq<byte>, n: nat, last: bool, am: nat): seq<Trans> {
    (if n > 0 then [FillWords(addr, d, n, am)] else []) + (if last then [WriteWord(addr + n, d, am)] else [])
  }

  /** The transactions of fill32: a word up to an 8-aligned address, a 64-bit fill, a last word. */
  function FillList(addr: nat, d: seq<byte>, numBytes: nat, am: nat): seq<Trans> {
    var n := FillBytes(addr, numBytes);
    HeadList(addr, d, am) + BodyList(addr + HeadBytes(addr), d, n, HeadBytes(addr) + n < numBytes, am)
  }

  lemma BodyStores(ts: seq<Trans>, addr: nat, d: seq<byte>, am: nat, j: nat, k: nat, last: bool)
    requires |d| == 4 && am < 256 && 8 * k < TWO32 && addr + 4 * j + 8 * k + (if last then 4 else 0) <= TWO64
    requires Aligned8(addr + 4 * j) && FillsAligned(ts) && Stores(ts, am, addr, d, j)
    ensures var r := ts + BodyList(addr + 4 * j, d, 8 * k, last, am);
      FillsAligned(r) && Stores(r, am, addr, d, j + 2 * k + (if last then 1 else 0))
  {
    hide Stores, WordTrans, ValidTrans, Aligned8, FillsAligned;
    var a := addr + 4 * j;
    var body := BodyList(a, d, 8 * k, last, am);
    var r := ts;
    if k > 0 {
      FillOk(a, d, k, am);
      StoresMore(r, FillWords(a, d, 8 * k, am), am, addr, d, j, 2 * k);
      FillsMore(r, FillWords(a, d, 8 * k, am));
      r := r + [FillWords(a, d, 8 * k, am)];
    }
    assert FillsAligned(r) && Stores(r, am, addr, d, j + 2 * k);
    if last {
      WordOk(a + 8 * k, d, am);
      StoresMore(r, WriteWord(a + 8 * k, d, am), am, addr, d, j + 2 * k, 1);
      FillsMore(r, WriteWord(a + 8 * k, d, am));
      r := r + [WriteWord(a + 8 * k, d, am)];
    }
    assert r == ts + body;
  }

  lemma HeadStores(addr: nat, d: seq<byte>, am: nat)
    requires |d| == 4 && am < 256 && addr + 4 <= TWO64
    ensures var ts := HeadList(addr, d, am);
      FillsAligned(ts) && Stores(ts, am, addr, d, |ts|) && 4 * |ts| == HeadBytes(addr)
  {
    hide Stores, WordTrans, ValidTrans;
    StoresNothing(am, addr, d);
    if !Aligned8(addr) {
      WordOk(addr, d, am);
      StoresMore([], WriteWord(addr, d, am), am, addr, d, 0, 1);
      assert [] + [WriteWord(addr, d, am)] == HeadList(addr, d, am);
    }
  }

  lemma WordsSplit(addr: nat, numBytes: nat)
    requires addr % 4 == 0 && numBytes % 4 == 0 && numBytes > 0
    ensures var n := FillBytes(addr, numBytes);
      && n % 8 == 0 && Aligned8(addr + HeadBytes(addr))
      && HeadBytes(addr) + n + (if HeadBytes(addr) + n < numBytes then 4 else 0) == numBytes
  {
    HeadAligned(addr);
    hide HeadBytes, Aligned8;
    EightsOf(numBytes - HeadBytes(addr));
  }

  lemma HeadAligned(addr: nat)
    requires addr % 4 == 0
    ensures Aligned8(addr + HeadBytes(addr)) && (HeadBytes(addr) == 0 || HeadBytes(addr) == 4)
  {}

  lemma EightsOf(n: nat)
    requires n % 4 == 0
    ensures n / 8 * 8 + (if n / 8 * 8 < n then 4 else 0) == n && n / 8 * 8 % 8 == 0
  {}

  /** The transactions fill32 makes are the loop that stores the word at every fourth address. */
  lemma FillListStores(addr: nat, d: seq<byte>, numBytes: nat, am: nat)
    requires |d| == 4 && am < 256 && addr % 4 == 0 && numBytes % 4 == 0 && 0 < numBytes < TWO32 && addr + numBytes <= TWO64
    ensures var ts := FillList(addr, d, numBytes, am);
      1 <= |ts| <= 3 && FillsAligned(ts) && Stores(ts, am, addr, d, numBytes / 4)
  {
    hide Stores, FillsAligned, FillBytes, HeadBytes, HeadList, Aligned8;
    var n := FillBytes(addr, numBytes);
    WordsSplit(addr, numBytes);
    HeadStores(addr, d, am);
    assert |HeadList(addr, d, am)| <= 1 by { HeadLen(addr, d, am); }
    BodyStores(HeadList(addr, d, am), addr, d, am, |HeadList(addr, d, am)|, n / 8, HeadBytes(addr) + n < numBytes);
  }

  lemma HeadLen(addr: nat, d: seq<byte>, am: nat)
    ensures |HeadList(addr, d, am)| <= 1 && 4 * |HeadList(addr, d, am)| == HeadBytes(addr)
  {}

  /** fill32 up to the call of execute_trans. */
  method Split(addr: nat, d: seq<byte>, numBytes: nat, am: nat) returns (err: nat, ts: seq<Trans>)
    requires |d| == 4 && numBytes < TWO32 && addr + numBytes <= TWO64 && am < 256
    ensures err == (if addr % 4 != 0 || numBytes == 0 || numBytes % 4 != 0 then ERR_FN_PARAM else ERR_NONE)
    ensures err == ERR_NONE ==> 1 <= |ts| <= 3 && ts == FillList(addr, d, numBytes, am)
    ensures err == ERR_NONE ==> FillsAligned(ts) && Stores(ts, am, addr, d, numBytes / 4)
  {
    hide Stores, FillsAligned;
    ts := [];
    if addr % 4 != 0 || numBytes == 0 || numBytes % 4 != 0 {
      return ERR_FN_PARAM, ts;
    }
    var addrTr, numBytesTr := addr, numBytes;
    if addr % 8 != 0 {
      ts := ts + [WriteWord(addrTr, d, am)];
      addrTr, numBytesTr := addrTr + 4, numBytesTr - 4;
    }
    if numBytesTr >= 8 {
      var numBytesTr64 := numBytesTr / 8 * 8;
      ts := ts + [FillWords(addrTr, d, numBytesTr64, am)];
      addrTr, numBytesTr := addrTr + numBytesTr64, numBytesTr - numBytesTr64;
    }
    if numBytesTr > 0 {
      ts := ts + [WriteWord(addrTr, d, am)];
    }
    FillListStores(addr, d, numBytes, am);
    return ERR_NONE, ts;
  }
}
