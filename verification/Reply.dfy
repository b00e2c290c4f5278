/** The reply of a conforming server, and the client's parser of replies. */
module Reply {
  import opened Words
  import opened Protocol
  import opened Semantics
  import opened Encoder
  import opened Errors

  // ---- What a server may answer ----

  /** Result of one PL0 access; a failed block access may have moved some words. */
  datatype Outcome = Done(data: seq<byte>) | Failed(err: byte, words: byte, data: seq<byte>)

  /** One PL1 frame's worth: whether a device reset is reported, the routing id, the results. */
  datatype Frame = Frame(reset: bool, conId: byte, outs: seq<Outcome>)

  predicate Conforms(a: Access, o: Outcome) {
    match o
    case Done(d) => |d| == if a.kind.Read? then a.n else 0
    case Failed(err, w, d) =>
      && err != NO_ERROR && |d| == (if a.kind.Read? then 4 * w else 0)
      && (w == 0 || (a.n > 8 && a.kind.Read? && w <= a.n / 4) || (a.n > 8 && a.kind.Write? && w < a.n / 4))
  }

  function RspWords(a: Access, o: Outcome): seq<Word> {
    var k := (a.n + 3) / 4 % 256;
    match o
    case Done(d) =>
      if a.kind.Read? && a.n == BLK_SIZE then [Word(0, CMD_RDBLK1KB, 0, NO_ERROR)] + ToWords(d)
      else if a.kind.Read? then [Word(k, RwCode(Read, a.n), k, NO_ERROR)] + ToWords(d)
      else [Word(0, RwCode(a.kind, a.n), k, NO_ERROR)]
    case Failed(err, w, d) =>
      if a.kind.Read? then [Word(w, RwCode(Read, a.n), w, err)] + ToWords(d)
      else [Word(0, RwCode(a.kind, a.n), w, err)]
  }

  predicate AllConform(accs: seq<Access>, outs: seq<Outcome>) {
    |outs| == |accs| && forall k :: 0 <= k < |accs| ==> Conforms(accs[k], outs[k])
  }

  function AccsReply(accs: seq<Access>, outs: seq<Outcome>): seq<Word>
    requires |accs| == |outs|
  {
    if accs == [] then [] else RspWords(accs[0], outs[0]) + AccsReply(accs[1..], outs[1..])
  }

  function PacketReply(p: Packet, f: Frame): seq<Word>
    requires |f.outs| == |Accesses(p)|
  {
    var body := [Word(0, CMD_PL0_START, f.conId, if f.reset then DEV_RESET else PL_NO_ERROR)]
                + AccsReply(Accesses(p), f.outs) + [Words.Head(0, CMD_PL0_END, p.cnt)];
    [FromU32(4 * (|body| + 1))] + body
  }

  predicate FramesConform(ps: seq<Packet>, fs: seq<Frame>) {
    |fs| == |ps| && forall i :: 0 <= i < |ps| ==> AllConform(Accesses(ps[i]), fs[i].outs)
  }

  /** The reply to a request: one PL2 packet per request packet. */
  function StreamReply(ps: seq<Packet>, fs: seq<Frame>): seq<Word>
    requires FramesConform(ps, fs)
  {
    if ps == [] then [] else PacketReply(ps[0], fs[0]) + StreamReply(ps[1..], fs[1..])
  }

  function AllOuts(fs: seq<Frame>): seq<Outcome> {
    if fs == [] then [] else fs[0].outs + AllOuts(fs[1..])
  }

  function Resets(fs: seq<Frame>): nat {
    if fs == [] then 0 else (if fs[0].reset then 1 else 0) + Resets(fs[1..])
  }

  // ---- The parser ----

  /** Result of a PL0 access as the client records it. */
  datatype Rsp = Rsp(ok: nat, err: byte)

  /** What a record holds before it is answered. */
  const NO_RSP := Rsp(0, PL_PROTOCOL)

  function NoRsps(n: nat): (recs: seq<Rsp>)
    ensures |recs| == n
  {
    seq(n, _ => NO_RSP)
  }

  /** What parsing updates: records done so far, their results, client memory, first error. */
  datatype Result = Result(i: nat, recs: seq<Rsp>, heap: Heap, err: nat)

  /** wi: read index; next: where the next PL2 packet starts; oldest: PL1 count awaited. */
  datatype Parse = Parse(wi: nat, next: nat, oldest: nat, resets: nat, res: Result)

  datatype Verdict = More(p: Parse) | End(p: Parse) | Bad(p: Parse, code: nat)

  /** memcpy into the client's memory. */
  function Put(h: Heap, ptr: nat, d: seq<byte>): Heap
    decreases |d|
  {
    if d == [] then h else Put(h[ptr := d[0]], ptr + 1, d[1..])
  }

  /** The API error of the first failing access is kept. */
  function FirstErr(prev: nat, err: byte, kind: Kind): nat {
    if prev != ERR_NONE then prev
    else if err == DEV_LOCKED then ERR_DEVICE_LOCKED
    else if err == DEV_ACCESS then ERR_DEVICE_ACCESS
    else if kind.Read? then ERR_RW_READ else ERR_RW_WRITE
  }

  function Note(r: Result, rec: Rsp, heap: Heap, err: nat): Result {
    Result(r.i + 1, if r.i < |r.recs| then r.recs[r.i := rec] else r.recs, heap, err)
  }

  /** The current record takes the error code of an answer that is then rejected. */
  function Mark(r: Result, err: byte): Result {
    if r.i < |r.recs| then r.(recs := r.recs[r.i := r.recs[r.i].(err := err)]) else r
  }

  predicate IsWriteCmd(c: byte) {
    c == 0x20 || c == 0x22 || c == 0x24 || c == 0x26 || c == CMD_WRBLK || c == CMD_FILL
  }

  predicate IsReadCmd(c: byte) {
    c == 0x21 || c == 0x23 || c == 0x25 || c == 0x27 || c == CMD_RDBLK || c == CMD_RDBLK1KB
  }

  function StartStep(maxRsp: nat, rsp: seq<Word>, p: Parse): Verdict
    requires p.wi < |rsp|
  {
    var len := U32(rsp[p.wi]);
    if len % 4 != 0 || len > maxRsp || p.wi + 1 >= |rsp| then Bad(p, ERR_SERVER_CON)
    else
      var q := p.(next := p.next + len / 4);
      var w := rsp[p.wi + 1];
      if w.b0 != 0 || w.b1 != CMD_PL0_START then Bad(q, ERR_SERVER_CON)
      else if w.b3 == DEV_ACCESS then Bad(q, ERR_DEVICE_ACCESS)
      else if w.b3 == DEV_RESET then More(q.(wi := p.wi + 2, resets := p.resets + 1))
      else if w.b3 != PL_NO_ERROR then Bad(q, ERR_SERVER_CON)
      else More(q.(wi := p.wi + 2))
  }

  function EndStep(pl0: seq<Trans>, w: Word, p: Parse): Verdict {
    if w.b0 != 0 || Field16(w) != p.oldest then Bad(p, ERR_SERVER_CON)
    else if p.res.i == |pl0| then End(p.(wi := p.wi + 1))
    else More(p.(wi := p.wi + 1, oldest := NextCnt(p.oldest)))
  }

  function WriteStep(t: Trans, w: Word, p: Parse): Verdict {
    var k := (t.acc.n + 3) / 4;
    var r := p.res;
    if w.b0 != 0 || t.acc.kind.Read? then Bad(p, ERR_SERVER_CON)
    else if w.b3 != NO_ERROR then
      if (if w.b1 == CMD_WRBLK then w.b2 >= k else w.b2 != 0) then Bad(p.(res := Mark(r, w.b3)), ERR_SERVER_CON)
      else More(p.(wi := p.wi + 1, res := Note(r, Rsp(4 * w.b2, w.b3), r.heap, FirstErr(r.err, w.b3, Write))))
    else if w.b2 != k % 256 then Bad(p, ERR_SERVER_CON)
    else More(p.(wi := p.wi + 1, res := Note(r, Rsp(t.acc.n, NO_ERROR), r.heap, r.err)))
  }

  /** Copy ok bytes that follow the header to the read buffer and go on after k words. */
  function Deliver(t: Trans, rest: seq<Word>, p: Parse, ok: nat, err: byte, k: nat): Verdict {
    var r := p.res;
    if |ToBytes(rest)| < ok then Bad(p, ERR_SERVER_CON)
    else More(p.(wi := p.wi + 1 + k, res := Note(r, Rsp(ok, err), Put(r.heap, t.ptr, ToBytes(rest)[..ok]),
                                                 if err == NO_ERROR then r.err else FirstErr(r.err, err, Read))))
  }

  function ReadStep(t: Trans, w: Word, rest: seq<Word>, p: Parse): Verdict {
    var k := (t.acc.n + 3) / 4;
    if w.b0 != w.b2 || !t.acc.kind.Read? then Bad(p, ERR_SERVER_CON)
    else if w.b1 == CMD_RDBLK1KB then
      if k != 256 || w.b0 != 0 || w.b3 != NO_ERROR then Bad(p, ERR_SERVER_CON)
      else Deliver(t, rest, p, BLK_SIZE, NO_ERROR, 256)
    else if w.b3 != NO_ERROR then
      if (if w.b1 == CMD_RDBLK then w.b2 > k else w.b2 != 0) then Bad(p, ERR_SERVER_CON)
      else Deliver(t, rest, p, 4 * w.b2, w.b3, w.b0)
    else if w.b2 != k % 256 then Bad(p, ERR_SERVER_CON)
    else Deliver(t, rest, p, t.acc.n, NO_ERROR, w.b0)
  }

  /** One round of the parsing loop. */
  function Step(pl0: seq<Trans>, maxRsp: nat, rsp: seq<Word>, p: Parse): Verdict
    requires p.wi < |rsp|
  {
    var w := rsp[p.wi];
    if p.wi == p.next then StartStep(maxRsp, rsp, p)
    else if w.b1 == CMD_PL0_END then EndStep(pl0, w, p)
    else if p.res.i >= |pl0| then Bad(p, ERR_SERVER_CON)
    else if IsWriteCmd(w.b1) then WriteStep(pl0[p.res.i], w, p)
    else if IsReadCmd(w.b1) then ReadStep(pl0[p.res.i], w, rsp[p.wi + 1..], p)
    else Bad(p, ERR_SERVER_CON)
  }

  /** A round of the parser at the start of a packet, whatever the words are: the only START taken is one of length
      0 without error or with a reset; device access has its own code, all else is a connection error. */
  lemma StartExactly(pl0: seq<Trans>, maxRsp: nat, rsp: seq<Word>, p: Parse)
    requires p.wi == p.next && p.wi < |rsp|
    ensures var v := Step(pl0, maxRsp, rsp, p); var len := U32(rsp[p.wi]);
      var framed := len % 4 == 0 && len <= maxRsp && p.wi + 1 < |rsp| && rsp[p.wi + 1].b0 == 0 && rsp[p.wi + 1].b1 == 0xB0;
      && !v.End?
      && (v.More? <==> framed && (rsp[p.wi + 1].b3 == 0x08 || rsp[p.wi + 1].b3 == 0x44))
      && (v.More? ==> v.p == p.(wi := p.wi + 2, next := p.next + len / 4, resets := p.resets + if rsp[p.wi + 1].b3 == 0x44 then 1 else 0))
      && (v.Bad? ==> v.code == (if framed && rsp[p.wi + 1].b3 == 0x48 then 0x0400 else 0x0200))
  {
    hide U32;
  }

  /** A round inside a packet: END must have length 0 and the count awaited, and ends the reply after the last
      record; every refusal is a connection error. */
  lemma EndExactly(pl0: seq<Trans>, maxRsp: nat, rsp: seq<Word>, p: Parse)
    requires p.wi != p.next && p.wi < |rsp| && rsp[p.wi].b1 == 0xB1
    ensures var v := Step(pl0, maxRsp, rsp, p); var w := rsp[p.wi]; var good := w.b0 == 0 && w.b2 + 256 * w.b3 == p.oldest;
      && (v.Bad? <==> !good) && (v.Bad? ==> v.code == 0x0200 && v.p == p)
      && (good ==> if p.res.i == |pl0| then v == End(p.(wi := p.wi + 1)) else v == More(p.(wi := p.wi + 1, oldest := (p.oldest + 1) % 0x1_0000)))
  {}

  /** An answer to a write or fill is taken exactly if the record is one, it has no words, and its count is that of the
      access, or, with an error, 0 for a single access and less than that of the access for a block. One that is refused
      for its count leaves its error in the record. */
  lemma WriteExactly(pl0: seq<Trans>, maxRsp: nat, rsp: seq<Word>, p: Parse)
    requires p.wi != p.next && p.wi < |rsp|
    requires var c := rsp[p.wi].b1; c == 0x20 || c == 0x22 || c == 0x24 || c == 0x26 || c == 0x2A || c == 0x2B
    ensures var v := Step(pl0, maxRsp, rsp, p); var w, i := rsp[p.wi], p.res.i;
      && (v.More? <==> i < |pl0| && !pl0[i].acc.kind.Read? && w.b0 == 0 && WriteCount((pl0[i].acc.n + 3) / 4, w))
      && (v.More? ==> v.p.wi == p.wi + 1 && v.p.res.heap == p.res.heap && |v.p.res.recs| == |p.res.recs|)
      && (v.More? && i < |p.res.recs| ==> v.p.res.recs[i] == Rsp(if w.b3 == 0x80 then pl0[i].acc.n else 4 * w.b2, w.b3))
      && (!v.More? ==> v.Bad? && v.code == 0x0200)
      && (!v.More? && i < |pl0| && i < |p.res.recs| && !pl0[i].acc.kind.Read? && w.b0 == 0 && w.b3 != 0x80 ==>
          v.p.res.recs == p.res.recs[i := Rsp(p.res.recs[i].ok, w.b3)])
  {
    hide FirstErr;
  }

  /** An answer to a read is taken exactly if the record is one, both its counts agree, and they are that of the
      access, with 1 KB in a form of its own; or, with an error, 0 for a single access and at most that of the access
      for a block; and the bytes counted are there. */
  lemma ReadExactly(pl0: seq<Trans>, maxRsp: nat, rsp: seq<Word>, p: Parse)
    requires p.wi != p.next && p.wi < |rsp|
    requires var c := rsp[p.wi].b1; c == 0x21 || c == 0x23 || c == 0x25 || c == 0x27 || c == 0x2C || c == 0x2D
    ensures var v := Step(pl0, maxRsp, rsp, p); var w, i := rsp[p.wi], p.res.i;
      var taken := i < |pl0| && pl0[i].acc.kind.Read? && w.b0 == w.b2 && ReadCount((pl0[i].acc.n + 3) / 4, w);
      && (v.More? <==> taken && ReadBytes(pl0[i], w) <= 4 * (|rsp| - p.wi - 1))
      && (v.More? && i < |p.res.recs| ==> |v.p.res.recs| == |p.res.recs|)
      && (v.More? && i < |p.res.recs| ==> v.p.res.recs[i] == Rsp(ReadBytes(pl0[i], w), w.b3))
      && (v.More? && i < |p.res.recs| ==> v.p.res.heap == Put(p.res.heap, pl0[i].ptr, ToBytes(rsp[p.wi + 1..])[..ReadBytes(pl0[i], w)]))
      && (!v.More? ==> v.Bad? && v.code == 0x0200)
  {
    hide FirstErr, Put, ToBytes;
  }

  /** The word count of an answer to a write or fill of k words: all of them, or, after an error, none of a single
      access and less than k of a block. */
  predicate WriteCount(k: nat, w: Word) {
    if w.b3 == 0x80 then w.b2 == k % 256 else if w.b1 == 0x2A then w.b2 < k else w.b2 == 0
  }

  /** The word count of an answer to a read of k words, where 256 words have a command of their own. */
  predicate ReadCount(k: nat, w: Word) {
    if w.b1 == 0x2D then k == 256 && w.b2 == 0 && w.b3 == 0x80
    else if w.b3 == 0x80 then w.b2 == k % 256
    else if w.b1 == 0x2C then w.b2 <= k else w.b2 == 0
  }

  /** Bytes an accepted answer to a read delivers. */
  function ReadBytes(t: Trans, w: Word): nat {
    if w.b1 == 0x2D then 1024 else if w.b3 == 0x80 then t.acc.n else 4 * w.b2
  }

  lemma StepAdvances(pl0: seq<Trans>, maxRsp: nat, rsp: seq<Word>, p: Parse)
    requires p.wi < |rsp|
    ensures Step(pl0, maxRsp, rsp, p).More? ==> Step(pl0, maxRsp, rsp, p).p.wi > p.wi
  {}

  /** The parsing loop: it ends at the last END, or when the words are used up. */
  function ParseLoop(pl0: seq<Trans>, maxRsp: nat, rsp: seq<Word>, p: Parse): Verdict
    decreases |rsp| - p.wi
  {
    if p.wi >= |rsp| then End(p)
    else
      StepAdvances(pl0, maxRsp, rsp, p);
      match Step(pl0, maxRsp, rsp, p)
      case More(q) => ParseLoop(pl0, maxRsp, rsp, q)
      case v => v
  }

  // ---- Parsing one conforming answer ----

  function RecOf(t: Trans, o: Outcome): Rsp {
    match o
    case Done(_) => Rsp(t.acc.n, NO_ERROR)
    case Failed(err, w, _) => Rsp(4 * w, err)
  }

  /** The intended effect of the answer to one PL0 access. */
  function Absorb1(r: Result, t: Trans, o: Outcome): Result {
    Note(r, RecOf(t, o), if t.acc.kind.Read? then Put(r.heap, t.ptr, o.data) else r.heap,
         if o.Done? then r.err else FirstErr(r.err, o.err, if t.acc.kind.Read? then Read else Write))
  }

  lemma DeliverShape(t: Trans, rest: seq<Word>, p: Parse, d: seq<byte>, err: byte, k: nat)
    requires |ToBytes(rest)| >= |d| && ToBytes(rest)[..|d|] == d
    ensures Deliver(t, rest, p, |d|, err, k) ==
      More(p.(wi := p.wi + 1 + k, res := Note(p.res, Rsp(|d|, err), Put(p.res.heap, t.ptr, d),
                                               if err == NO_ERROR then p.res.err else FirstErr(p.res.err, err, Read))))
  {
    hide ToBytes, Put, FirstErr, Note;
  }

  lemma DeliverOk(t: Trans, d: seq<byte>, tail: seq<Word>, p: Parse, err: byte, k: nat)
    requires t.acc.kind.Read?
    ensures Deliver(t, ToWords(d) + tail, p, |d|, err, k) ==
      More(p.(wi := p.wi + 1 + k, res := Note(p.res, Rsp(|d|, err), Put(p.res.heap, t.ptr, d),
                                               if err == NO_ERROR then p.res.err else FirstErr(p.res.err, err, Read))))
  {
    hide ToBytes, ToWords, Put, FirstErr, Note, Deliver;
    BytesOfWords(d, tail);
    DeliverShape(t, ToWords(d) + tail, p, d, err, k);
  }

  lemma ReadDone(t: Trans, a: Access, d: seq<byte>, tail: seq<Word>, p: Parse)
    requires a.kind.Read? && t.acc.kind.Read? && t.acc.n == a.n && ValidSize(Read, a.n) && |d| == a.n
    ensures var ws := RspWords(a, Done(d));
      ReadStep(t, ws[0], ToWords(d) + tail, p) == More(p.(wi := p.wi + |ws|, res := Absorb1(p.res, t, Done(d))))
  {
    if a.n == BLK_SIZE {
      DeliverOk(t, d, tail, p, NO_ERROR, 256);
    } else {
      DeliverOk(t, d, tail, p, NO_ERROR, (a.n + 3) / 4);
    }
  }

  lemma ReadFailed(t: Trans, a: Access, o: Outcome, tail: seq<Word>, p: Parse)
    requires a.kind.Read? && t.acc.kind.Read? && t.acc.n == a.n && ValidSize(Read, a.n) && Conforms(a, o) && o.Failed?
    ensures var ws := RspWords(a, o);
      ReadStep(t, ws[0], ToWords(o.data) + tail, p) == More(p.(wi := p.wi + |ws|, res := Absorb1(p.res, t, o)))
  {
    DeliverOk(t, o.data, tail, p, o.err, o.words);
  }

  lemma WriteAny(t: Trans, a: Access, o: Outcome, p: Parse)
    requires !a.kind.Read? && t.acc.kind == a.kind && t.acc.n == a.n && ValidSize(a.kind, a.n) && Conforms(a, o)
    ensures var ws := RspWords(a, o);
      |ws| == 1 && WriteStep(t, ws[0], p) == More(p.(wi := p.wi + 1, res := Absorb1(p.res, t, o)))
  {}

  lemma AnswerHead(a: Access, o: Outcome)
    requires ValidSize(a.kind, a.n)
    ensures var ws := RspWords(a, o);
      && ws != [] && ws[0].b1 != CMD_PL0_END
      && (a.kind.Read? ==> IsReadCmd(ws[0].b1) && !IsWriteCmd(ws[0].b1) && ws == [ws[0]] + ToWords(o.data))
      && (!a.kind.Read? ==> IsWriteCmd(ws[0].b1))
  {}

  lemma AnswerStep(pl0: seq<Trans>, maxRsp: nat, rsp: seq<Word>, p: Parse, a: Access, o: Outcome, tail: seq<Word>)
    requires p.res.i < |pl0| && pl0[p.res.i].acc.kind == a.kind && pl0[p.res.i].acc.n == a.n
    requires ValidSize(a.kind, a.n) && Conforms(a, o)
    requires p.wi <= |rsp| && rsp[p.wi..] == RspWords(a, o) + tail && p.next != p.wi
    ensures p.wi < |rsp|
    ensures Step(pl0, maxRsp, rsp, p) == More(p.(wi := p.wi + |RspWords(a, o)|, res := Absorb1(p.res, pl0[p.res.i], o)))
  {
    hide RspWords, ToWords, Absorb1, ReadStep, WriteStep, IsReadCmd, IsWriteCmd, ValidSize, Conforms;
    var ws := RspWords(a, o);
    var t := pl0[p.res.i];
    AnswerHead(a, o);
    assert rsp[p.wi] == rsp[p.wi..][0] == ws[0];
    if a.kind.Read? {
      assert rsp[p.wi + 1..] == rsp[p.wi..][1..] == ToWords(o.data) + tail;
      assert ValidSize(Read, a.n);
      if o.Done? {
        assert |o.data| == a.n by { ConformLen(a, o); }
        ReadDone(t, a, o.data, tail, p);
      } else {
        ReadFailed(t, a, o, tail, p);
      }
    } else {
      WriteAny(t, a, o, p);
    }
  }

  lemma ConformLen(a: Access, o: Outcome)
    requires Conforms(a, o) && a.kind.Read? && o.Done?
    ensures |o.data| == a.n
  {}

  // ---- Parsing whole frames and replies ----

  /** Results absorbed one after the other, record after record. */
  function Absorb(r: Result, ts: seq<Trans>, outs: seq<Outcome>): Result
    requires |ts| == |outs|
    decreases |ts|
  {
    if ts == [] then r else Absorb(Absorb1(r, ts[0], outs[0]), ts[1..], outs[1..])
  }

  lemma {:induction false} AbsorbAppend(r: Result, ta: seq<Trans>, oa: seq<Outcome>, tb: seq<Trans>, ob: seq<Outcome>)
    requires |ta| == |oa| && |tb| == |ob|
    ensures Absorb(r, ta + tb, oa + ob) == Absorb(Absorb(r, ta, oa), tb, ob)
    decreases |ta|
  {
    hide Absorb1;
    if ta == [] {
      assert ta + tb == tb && oa + ob == ob;
    } else {
      assert (ta + tb)[1..] == ta[1..] + tb && (oa + ob)[1..] == oa[1..] + ob;
      AbsorbAppend(Absorb1(r, ta[0], oa[0]), ta[1..], oa[1..], tb, ob);
    }
  }

  lemma {:induction false} AbsorbCount(r: Result, ts: seq<Trans>, outs: seq<Outcome>)
    requires |ts| == |outs|
    ensures Absorb(r, ts, outs).i == r.i + |ts| && |Absorb(r, ts, outs).recs| == |r.recs|
    decreases |ts|
  {
    if ts != [] {
      AbsorbCount(Absorb1(r, ts[0], outs[0]), ts[1..], outs[1..]);
    }
  }

  /** Do the records describe the accesses, as far as the parser looks? */
  ghost predicate Describe(pl0: seq<Trans>, lo: nat, accs: seq<Access>) {
    && lo + |accs| <= |pl0|
    && forall k :: 0 <= k < |accs| ==>
        pl0[lo + k].acc.kind == accs[k].kind && pl0[lo + k].acc.n == accs[k].n && ValidSize(accs[k].kind, accs[k].n)
  }

  lemma DescribeTail(pl0: seq<Trans>, lo: nat, accs: seq<Access>)
    requires Describe(pl0, lo, accs) && accs != []
    ensures Describe(pl0, lo + 1, accs[1..])
  {
    forall k | 0 <= k < |accs[1..]| ensures pl0[lo + 1 + k].acc.kind == accs[1..][k].kind && pl0[lo + 1 + k].acc.n == accs[1..][k].n
      && ValidSize(accs[1..][k].kind, accs[1..][k].n)
    {
      assert accs[1..][k] == accs[k + 1] && pl0[lo + 1 + k] == pl0[lo + (k + 1)];
    }
  }

  lemma LoopStep(pl0: seq<Trans>, maxRsp: nat, rsp: seq<Word>, p: Parse, q: Parse)
    requires p.wi < |rsp| && Step(pl0, maxRsp, rsp, p) == More(q)
    ensures ParseLoop(pl0, maxRsp, rsp, p) == ParseLoop(pl0, maxRsp, rsp, q)
  {
    hide Step;
    StepAdvances(pl0, maxRsp, rsp, p);
  }

  lemma {:induction false} AnswersParsed(pl0: seq<Trans>, maxRsp: nat, rsp: seq<Word>, p: Parse,
                                         accs: seq<Access>, outs: seq<Outcome>, tail: seq<Word>)
    requires Describe(pl0, p.res.i, accs) && AllConform(accs, outs)
    requires p.wi <= |rsp| && rsp[p.wi..] == AccsReply(accs, outs) + tail
    requires p.next > p.wi + |AccsReply(accs, outs)|
    ensures var n := |AccsReply(accs, outs)|; var q := p.(wi := p.wi + n, res := Absorb(p.res, pl0[p.res.i..p.res.i + |accs|], outs));
      && ParseLoop(pl0, maxRsp, rsp, p) == ParseLoop(pl0, maxRsp, rsp, q)
      && q.wi <= |rsp| && rsp[q.wi..] == tail
    decreases |accs|
  {
    hide Step, ParseLoop, RspWords, Absorb1, Conforms, ValidSize;
    if accs == [] {
      assert AccsReply(accs, outs) + tail == tail;
      assert pl0[p.res.i..p.res.i] == [];
      assert p.(wi := p.wi + 0, res := p.res) == p;
    } else {
      var a, o, i := accs[0], outs[0], p.res.i;
      var ws := RspWords(a, o);
      var rest := AccsReply(accs[1..], outs[1..]) + tail;
      assert Conforms(a, o) && pl0[i + 0].acc.kind == a.kind;
      assert rsp[p.wi..] == ws + rest;
      AnswerStep(pl0, maxRsp, rsp, p, a, o, rest);
      var q := p.(wi := p.wi + |ws|, res := Absorb1(p.res, pl0[i], o));
      LoopStep(pl0, maxRsp, rsp, p, q);
      assert rsp[q.wi..] == rsp[p.wi..][|ws|..] == rest;
      DescribeTail(pl0, i, accs);
      assert q.res.i == i + 1 by { NoteCount(p.res, pl0[i], o); }
      AnswersParsed(pl0, maxRsp, rsp, q, accs[1..], outs[1..], tail);
      var run := pl0[i..i + |accs|];
      assert run[0] == pl0[i] && run[1..] == pl0[i + 1..i + 1 + |accs[1..]|];
    }
  }

  lemma NoteCount(r: Result, t: Trans, o: Outcome)
    ensures Absorb1(r, t, o).i == r.i + 1
  {}
}
