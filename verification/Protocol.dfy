/** PL0 commands, PL1 frames and PL2 packets of a read/write request: their layout
    as words, and a decoder written from the layouts alone. */
module Protocol {
  import opened Option
  import opened Words

  datatype Kind = Read | Write | Fill

  /** A PL0 command with its fields decoded. SetBase carries the whole base address. */
  datatype Cmd =
    | SetMap(am: nat)
    | SetMode(mode: nat)
    | SetBase(base: nat)
    | Rw(kind: Kind, offset: nat, n: nat, data: seq<byte>)

  const BLK_SIZE: nat := 1024

  const CMD_ACCESS_MODE := 0x10
  const CMD_ADDR_MAP := 0x11
  const CMD_BASE_ADDR32 := 0x15
  const CMD_BASE_ADDR64 := 0x16
  const CMD_WRBLK := 0x2A
  const CMD_FILL := 0x2B
  const CMD_RDBLK := 0x2C
  const CMD_RDBLK1KB := 0x2D
  const CMD_PL0_START := 0xB0
  const CMD_PL0_END := 0xB1

  /** The command code of an access of n bytes. */
  function RwCode(kind: Kind, n: nat): byte {
    match kind
    case Read => if n == 1 then 0x21 else if n == 2 then 0x23 else if n == 4 then 0x25 else if n == 8 then 0x27 else CMD_RDBLK
    case Write => if n == 1 then 0x20 else if n == 2 then 0x22 else if n == 4 then 0x24 else if n == 8 then 0x26 else CMD_WRBLK
    case Fill => CMD_FILL
  }

  /** Sizes a single PL0 access can have. */
  predicate ValidSize(kind: Kind, n: nat) {
    if kind.Fill? then 8 <= n <= BLK_SIZE && n % 8 == 0
    else n == 1 || n == 2 || n == 4 || n == 8 || (8 < n <= BLK_SIZE && n % 8 == 0)
  }

  predicate ValidData(kind: Kind, n: nat, data: seq<byte>) {
    match kind
    case Read => data == []
    case Write => |data| == n
    case Fill => |data| == 8
  }

  predicate ValidCmd(c: Cmd) {
    match c
    case SetMap(m) => m < 256
    case SetMode(m) => m < TWO16
    case SetBase(b) => b < TWO64 && b % TWO16 == 0
    case Rw(kind, offset, n, data) => offset < TWO16 && ValidSize(kind, n) && ValidData(kind, n, data)
  }

  /** Words a command occupies. */
  function CmdLen(c: Cmd): nat {
    match c
    case SetMap(_) => 1
    case SetMode(_) => 1
    case SetBase(b) => if b < TWO32 then 1 else 2
    case Rw(Read, _, n, _) => if n <= 8 then 1 else 2
    case Rw(Write, _, n, _) => 1 + (n + 3) / 4
    case Rw(Fill, _, _, _) => 4
  }

  function BaseWords(b: nat): seq<Word> {
    if b < TWO32 then [Head(0, CMD_BASE_ADDR32, b / TWO16 % TWO16)]
    else [Head(1, CMD_BASE_ADDR64, b / TWO16 % TWO16), FromU32(b / TWO32)]
  }

  /** The words of a command, as the layouts in tas_pkt.h define them. */
  function CmdWords(c: Cmd): seq<Word> {
    match c
    case SetMap(m) => [Word(0, CMD_ADDR_MAP, m % 256, 0)]
    case SetMode(m) => [Head(0, CMD_ACCESS_MODE, m)]
    case SetBase(b) => BaseWords(b)
    case Rw(Read, a, n, _) =>
      if n <= 8 then [Head(0, RwCode(Read, n), a)]
      else [Head(1, CMD_RDBLK, a), Word(n / 4 % 256, 0, 0, 0)]
    case Rw(Write, a, n, data) => [Head((n + 3) / 4, RwCode(Write, n), a)] + ToWords(data)
    case Rw(Fill, a, n, data) => [Head(3, CMD_FILL, a), Word(n / 4 % 256, 0, 0, 0)] + ToWords(data)
  }

  lemma CmdWordsLen(c: Cmd)
    requires ValidCmd(c)
    ensures |CmdWords(c)| == CmdLen(c)
  {}

  /** The first word of each command: how many words follow that belong to it, and its code. */
  lemma CommandCodes(c: Cmd)
    requires ValidCmd(c)
    ensures var ws := CmdWords(c); ws != [] && var w := ws[0];
      match c
      case SetMap(m) => w == Word(0, 0x11, m, 0)
      case SetMode(m) => w.b0 == 0 && w.b1 == 0x10 && Field16(w) == m
      case SetBase(b) => if b < 0x1_0000_0000 then w.b0 == 0 && w.b1 == 0x15 else w.b0 == 1 && w.b1 == 0x16
      case Rw(Read, a, n, _) =>
        && w.b0 == (if n > 8 then 1 else 0) && Field16(w) == a
        && w.b1 == (if n == 1 then 0x21 else if n == 2 then 0x23 else if n == 4 then 0x25 else if n == 8 then 0x27 else 0x2C)
      case Rw(Write, a, n, _) =>
        && w.b0 == (if n <= 4 then 1 else n / 4 % 256) && Field16(w) == a
        && w.b1 == (if n == 1 then 0x20 else if n == 2 then 0x22 else if n == 4 then 0x24 else if n == 8 then 0x26 else 0x2A)
      case Rw(Fill, a, n, _) => w.b0 == 3 && w.b1 == 0x2B && Field16(w) == a
  {}

  function CmdsWords(cmds: seq<Cmd>): seq<Word> {
    if cmds == [] then [] else CmdWords(cmds[0]) + CmdsWords(cmds[1..])
  }

  function CmdsLen(cmds: seq<Cmd>): nat {
    if cmds == [] then 0 else CmdLen(cmds[0]) + CmdsLen(cmds[1..])
  }

  ghost predicate ValidCmds(cmds: seq<Cmd>) {
    forall i :: 0 <= i < |cmds| ==> ValidCmd(cmds[i])
  }

  lemma {:induction false} CmdsAppend(a: seq<Cmd>, b: seq<Cmd>)
    ensures CmdsWords(a + b) == CmdsWords(a) + CmdsWords(b)
    ensures CmdsLen(a + b) == CmdsLen(a) + CmdsLen(b)
  {
    if a == [] {
      assert a + b == b;
    } else {
      assert (a + b)[1..] == a[1..] + b;
      CmdsAppend(a[1..], b);
    }
  }

  lemma {:induction false} CmdsWordsLen(cmds: seq<Cmd>)
    requires ValidCmds(cmds)
    ensures |CmdsWords(cmds)| == CmdsLen(cmds)
  {
    if cmds != [] {
      CmdWordsLen(cmds[0]);
      CmdsWordsLen(cmds[1..]);
    }
  }

  /** One PL2 packet: PL1 count, address map mask, commands and the count sent in END. */
  datatype Packet = Packet(cnt: nat, mask: nat, cmds: seq<Cmd>, numRw: nat)

  ghost predicate ValidPacket(p: Packet) {
    && p.cnt < TWO16 && p.mask < TWO16 && p.numRw < TWO16
    && ValidCmds(p.cmds)
    && 4 * PacketLen(p) < TWO32
  }

  /** Words of a packet: PL2 length, two START words, the commands, END. */
  function PacketLen(p: Packet): nat {
    4 + CmdsLen(p.cmds)
  }

  function StartWords(cnt: nat, mask: nat): seq<Word> {
    [Head(1, CMD_PL0_START, 0x00FF), Word(cnt % 256, cnt / 256 % 256, mask % 256, mask / 256 % 256)]
  }

  function PacketWords(p: Packet): seq<Word> {
    [FromU32(4 * PacketLen(p))] + StartWords(p.cnt, p.mask) + CmdsWords(p.cmds) + [Head(0, CMD_PL0_END, p.numRw)]
  }

  function StreamWords(ps: seq<Packet>): seq<Word> {
    if ps == [] then [] else PacketWords(ps[0]) + StreamWords(ps[1..])
  }

  function StreamLen(ps: seq<Packet>): nat {
    if ps == [] then 0 else PacketLen(ps[0]) + StreamLen(ps[1..])
  }

  ghost predicate ValidStream(ps: seq<Packet>) {
    forall i :: 0 <= i < |ps| ==> ValidPacket(ps[i])
  }

  lemma {:induction false} StreamAppend(a: seq<Packet>, b: seq<Packet>)
    ensures StreamWords(a + b) == StreamWords(a) + StreamWords(b)
    ensures StreamLen(a + b) == StreamLen(a) + StreamLen(b)
  {
    if a == [] {
      assert a + b == b;
    } else {
      assert (a + b)[1..] == a[1..] + b;
      StreamAppend(a[1..], b);
    }
  }

  lemma {:induction false} StreamWordsLen(ps: seq<Packet>)
    requires ValidStream(ps)
    ensures |StreamWords(ps)| == StreamLen(ps)
  {
    if ps != [] {
      CmdsWordsLen(ps[0].cmds);
      StreamWordsLen(ps[1..]);
    }
  }

  // ---- Decoder, read off the layouts ----

  datatype Parsed = Parsed(cmd: Cmd, len: nat)

  /** Words announced by a length byte where 0 means 256. */
  function BlkWords(b: byte): nat {
    if b == 0 then 256 else b
  }

  function ParseFixed(kind: Kind, n: nat, ws: seq<Word>): Option<Parsed>
    requires |ws| > 0
  {
    var k := (n + 3) / 4;
    match kind
    case Write =>
      if ws[0].b0 != k || |ws| < 1 + k then None
      else Some(Parsed(Rw(Write, Field16(ws[0]), n, ToBytes(ws[1..])[..n]), 1 + k))
    case _ =>
      if ws[0].b0 != 0 then None else Some(Parsed(Rw(Read, Field16(ws[0]), n, []), 1))
  }

  function ParseBlock(ws: seq<Word>): Option<Parsed>
    requires |ws| > 0
  {
    var a := Field16(ws[0]);
    if ws[0].b1 == CMD_WRBLK then
      var k := BlkWords(ws[0].b0);
      if |ws| < 1 + k then None else Some(Parsed(Rw(Write, a, 4 * k, ToBytes(ws[1..])[..4 * k]), 1 + k))
    else if ws[0].b1 == CMD_RDBLK then
      if ws[0].b0 != 1 || |ws| < 2 then None else Some(Parsed(Rw(Read, a, 4 * BlkWords(ws[1].b0), []), 2))
    else if ws[0].b1 == CMD_FILL then
      if ws[0].b0 != 3 || |ws| < 4 then None
      else Some(Parsed(Rw(Fill, a, 4 * BlkWords(ws[1].b0), ToBytes(ws[2..])[..8]), 4))
    else None
  }

  function ParseContext(ws: seq<Word>): Option<Parsed>
    requires |ws| > 0
  {
    var f := Field16(ws[0]);
    if ws[0].b1 == CMD_BASE_ADDR64 then
      if ws[0].b0 != 1 || |ws| < 2 then None else Some(Parsed(SetBase(TWO16 * f + TWO32 * U32(ws[1])), 2))
    else if ws[0].b0 != 0 then None
    else if ws[0].b1 == CMD_ADDR_MAP then Some(Parsed(SetMap(ws[0].b2), 1))
    else if ws[0].b1 == CMD_ACCESS_MODE then Some(Parsed(SetMode(f), 1))
    else if ws[0].b1 == CMD_BASE_ADDR32 then Some(Parsed(SetBase(TWO16 * f), 1))
    else None
  }

  /** The command at the head of ws. */
  function ParseCmd(ws: seq<Word>): Option<Parsed>
    requires |ws| > 0
  {
    var code := ws[0].b1;
    if code == 0x20 then ParseFixed(Write, 1, ws)
    else if code == 0x22 then ParseFixed(Write, 2, ws)
    else if code == 0x24 then ParseFixed(Write, 4, ws)
    else if code == 0x26 then ParseFixed(Write, 8, ws)
    else if code == 0x21 then ParseFixed(Read, 1, ws)
    else if code == 0x23 then ParseFixed(Read, 2, ws)
    else if code == 0x25 then ParseFixed(Read, 4, ws)
    else if code == 0x27 then ParseFixed(Read, 8, ws)
    else if 0x2A <= code <= 0x2C then ParseBlock(ws)
    else ParseContext(ws)
  }

  datatype Body = Body(cmds: seq<Cmd>, numRw: nat)

  /** The commands up to END, which must be the last word. */
  function ParseBody(ws: seq<Word>): Option<Body>
    decreases |ws|
  {
    if ws == [] then None
    else if ws[0].b1 == CMD_PL0_END then
      if |ws| == 1 && ws[0].b0 == 0 then Some(Body([], Field16(ws[0]))) else None
    else
      match ParseCmd(ws)
      case None => None
      case Some(Parsed(c, k)) =>
        if k == 0 || k > |ws| then None
        else
          match ParseBody(ws[k..])
          case None => None
          case Some(b) => Some(Body([c] + b.cmds, b.numRw))
  }

  /** Exactly one PL2 packet. */
  function ParsePacket(ws: seq<Word>): Option<Packet> {
    if |ws| < 4 || U32(ws[0]) != 4 * |ws| || ws[1].b0 != 1 || ws[1].b1 != CMD_PL0_START then None
    else
      match ParseBody(ws[3..])
      case None => None
      case Some(b) => Some(Packet(ws[2].b0 + 256 * ws[2].b1, Field16(ws[2]), b.cmds, b.numRw))
  }

  /** A run of PL2 packets, cut by following the length words. */
  function ParseStream(ws: seq<Word>): Option<seq<Packet>>
    decreases |ws|
  {
    if ws == [] then Some([])
    else
      var k := U32(ws[0]) / 4;
      if k == 0 || k > |ws| then None
      else
        match ParsePacket(ws[..k])
        case None => None
        case Some(p) =>
          match ParseStream(ws[k..])
          case None => None
          case Some(ps) => Some([p] + ps)
  }

  // ---- Decoding what was encoded ----

  lemma ParseWrShape(head: Word, body: seq<Word>, n: nat)
    requires head.b0 == (n + 3) / 4 && (n + 3) / 4 <= |body|
    ensures ParseFixed(Write, n, [head] + body) == Some(Parsed(Rw(Write, Field16(head), n, ToBytes(body)[..n]), 1 + (n + 3) / 4))
  {
    hide ToBytes, Field16;
    assert ([head] + body)[1..] == body;
  }

  lemma ParseWrOk(a: nat, n: nat, data: seq<byte>, rest: seq<Word>)
    requires a < TWO16 && (n == 1 || n == 2 || n == 4 || n == 8) && |data| == n
    ensures ParseFixed(Write, n, CmdWords(Rw(Write, a, n, data)) + rest) == Some(Parsed(Rw(Write, a, n, data), 1 + (n + 3) / 4))
  {
    hide ParseFixed, ToBytes, ToWords, RwCode, Words.Head;
    var head, body := Head((n + 3) / 4, RwCode(Write, n), a), ToWords(data) + rest;
    assert CmdWords(Rw(Write, a, n, data)) + rest == [head] + body;
    HeadParts((n + 3) / 4, RwCode(Write, n), a);
    BytesOfWords(data, rest);
    ParseWrShape(head, body, n);
  }

  lemma ParseRdOk(a: nat, n: nat, rest: seq<Word>)
    requires a < TWO16 && (n == 1 || n == 2 || n == 4 || n == 8)
    ensures ParseFixed(Read, n, CmdWords(Rw(Read, a, n, [])) + rest) == Some(Parsed(Rw(Read, a, n, []), 1))
  {
    HeadField(0, RwCode(Read, n), a);
  }

  lemma BlkWordsOk(n: nat)
    requires 8 <= n <= BLK_SIZE && n % 8 == 0
    ensures (n + 3) / 4 == n / 4
    ensures 4 * BlkWords(n / 4 % 256) == n
  {}

  lemma ParseRdBlkOk(a: nat, n: nat, rest: seq<Word>)
    requires a < TWO16 && 8 < n <= BLK_SIZE && n % 8 == 0
    ensures ParseBlock(CmdWords(Rw(Read, a, n, [])) + rest) == Some(Parsed(Rw(Read, a, n, []), 2))
  {
    HeadField(1, CMD_RDBLK, a);
    BlkWordsOk(n);
  }

  lemma ParseWrBlkShape(head: Word, body: seq<Word>, n: nat)
    requires head.b1 == CMD_WRBLK && 4 * BlkWords(head.b0) == n && n <= 4 * |body|
    ensures ParseBlock([head] + body) == Some(Parsed(Rw(Write, Field16(head), n, ToBytes(body)[..n]), 1 + n / 4))
  {
    hide ToBytes, Field16;
    assert ([head] + body)[1..] == body;
  }

  lemma ParseWrBlkOk(a: nat, n: nat, data: seq<byte>, rest: seq<Word>)
    requires a < TWO16 && 8 < n <= BLK_SIZE && n % 8 == 0 && |data| == n
    ensures ParseBlock(CmdWords(Rw(Write, a, n, data)) + rest) == Some(Parsed(Rw(Write, a, n, data), 1 + n / 4))
  {
    var body := ToWords(data) + rest;
    var head := Head((n + 3) / 4, CMD_WRBLK, a);
    assert CmdWords(Rw(Write, a, n, data)) + rest == [head] + body;
    HeadField((n + 3) / 4, CMD_WRBLK, a);
    BlkWordsOk(n);
    BytesOfWords(data, rest);
    hide ParseBlock, ToBytes, ToWords;
    ParseWrBlkShape(head, body, n);
  }

  lemma ParseFillShape(head: Word, size: Word, body: seq<Word>)
    requires head.b1 == CMD_FILL && head.b0 == 3 && |body| >= 2
    ensures ParseBlock([head, size] + body) == Some(Parsed(Rw(Fill, Field16(head), 4 * BlkWords(size.b0), ToBytes(body)[..8]), 4))
  {
    hide ToBytes, Field16;
    assert ([head, size] + body)[2..] == body;
  }

  lemma ParseFillOk(a: nat, n: nat, data: seq<byte>, rest: seq<Word>)
    requires a < TWO16 && 8 <= n <= BLK_SIZE && n % 8 == 0 && |data| == 8
    ensures ParseBlock(CmdWords(Rw(Fill, a, n, data)) + rest) == Some(Parsed(Rw(Fill, a, n, data), 4))
  {
    var head, size, body := Head(3, CMD_FILL, a), Word(n / 4 % 256, 0, 0, 0), ToWords(data) + rest;
    assert CmdWords(Rw(Fill, a, n, data)) + rest == [head, size] + body;
    HeadField(3, CMD_FILL, a);
    BlkWordsOk(n);
    BytesOfWords(data, rest);
    hide ParseBlock, ToBytes, ToWords;
    ParseFillShape(head, size, body);
  }

  lemma BaseSplit(b: nat)
    requires b < TWO64 && b % TWO16 == 0
    ensures b == TWO16 * (b / TWO16 % TWO16) + TWO32 * (b / TWO32)
    ensures b / TWO32 < TWO32
  {
    assert b == TWO16 * (b / TWO16);
    assert b / TWO16 / TWO16 == b / TWO32;
  }

  lemma ParseBaseOk(b: nat, rest: seq<Word>)
    requires b < TWO64 && b % TWO16 == 0
    ensures ParseContext(BaseWords(b) + rest) == Some(Parsed(SetBase(b), |BaseWords(b)|))
  {
    BaseSplit(b);
    var f := b / TWO16 % TWO16;
    HeadField(0, CMD_BASE_ADDR32, f);
    HeadField(1, CMD_BASE_ADDR64, f);
    FromToU32(b / TWO32);
  }

  lemma ParseContextOk(c: Cmd, rest: seq<Word>)
    requires ValidCmd(c) && !c.Rw?
    ensures ParseContext(CmdWords(c) + rest) == Some(Parsed(c, CmdLen(c)))
  {
    match c
    case SetMap(_) =>
    case SetMode(m) => HeadField(0, CMD_ACCESS_MODE, m);
    case SetBase(b) => ParseBaseOk(b, rest);
  }

  lemma RwHead(kind: Kind, a: nat, n: nat, data: seq<byte>, rest: seq<Word>)
    ensures |CmdWords(Rw(kind, a, n, data))| > 0 && (CmdWords(Rw(kind, a, n, data)) + rest)[0].b1 == RwCode(kind, n)
  {
    hide ToWords;
  }

  lemma ParseRwOk(kind: Kind, a: nat, n: nat, data: seq<byte>, rest: seq<Word>)
    requires a < TWO16 && ValidSize(kind, n) && ValidData(kind, n, data)
    ensures ParseCmd(CmdWords(Rw(kind, a, n, data)) + rest) == Some(Parsed(Rw(kind, a, n, data), CmdLen(Rw(kind, a, n, data))))
  {
    hide CmdWords, ParseFixed, ParseBlock, ParseContext, ToWords;
    RwHead(kind, a, n, data, rest);
    match kind
    case Read => if n <= 8 { ParseRdOk(a, n, rest); } else { ParseRdBlkOk(a, n, rest); }
    case Write => if n <= 8 { ParseWrOk(a, n, data, rest); } else { ParseWrBlkOk(a, n, data, rest); BlkWordsOk(n); }
    case Fill => ParseFillOk(a, n, data, rest);
  }

  lemma ParseCmdOk(c: Cmd, rest: seq<Word>)
    requires ValidCmd(c)
    ensures ParseCmd(CmdWords(c) + rest) == Some(Parsed(c, CmdLen(c)))
    ensures (CmdWords(c) + rest)[0].b1 != CMD_PL0_END
  {
    if c.Rw? {
      ParseRwOk(c.kind, c.offset, c.n, c.data, rest);
    } else {
      ParseContextOk(c, rest);
    }
  }

  lemma CmdLenPositive(c: Cmd)
    ensures CmdLen(c) > 0
  {}

  lemma {:induction false} ParseBodyOk(cmds: seq<Cmd>, numRw: nat)
    requires ValidCmds(cmds) && numRw < TWO16
    ensures ParseBody(CmdsWords(cmds) + [Head(0, CMD_PL0_END, numRw)]) == Some(Body(cmds, numRw))
  {
    hide CmdWords, ParseCmd, CmdLen, ValidCmd, Words.Head, Field16;
    var end := [Head(0, CMD_PL0_END, numRw)];
    if cmds == [] {
      assert CmdsWords(cmds) + end == end;
      HeadParts(0, CMD_PL0_END, numRw);
    } else {
      var ws := CmdsWords(cmds) + end;
      var rest := CmdsWords(cmds[1..]) + end;
      CmdWordsLen(cmds[0]);
      ParseCmdOk(cmds[0], rest);
      ParseBodyOk(cmds[1..], numRw);
      CmdLenPositive(cmds[0]);
      assert ws == CmdWords(cmds[0]) + rest && ws[CmdLen(cmds[0])..] == rest;
      assert cmds == [cmds[0]] + cmds[1..];
    }
  }

  lemma HalvesOk(x: nat)
    requires x < TWO16
    ensures x % 256 + 256 * (x / 256 % 256) == x
  {}

  lemma ParsePacketOk(p: Packet)
    requires ValidPacket(p)
    ensures |PacketWords(p)| == PacketLen(p)
    ensures ParsePacket(PacketWords(p)) == Some(p)
  {
    var ws := PacketWords(p);
    var body := CmdsWords(p.cmds) + [Head(0, CMD_PL0_END, p.numRw)];
    CmdsWordsLen(p.cmds);
    FromToU32(4 * PacketLen(p));
    assert ws == [FromU32(4 * PacketLen(p))] + StartWords(p.cnt, p.mask) + body;
    assert ws[3..] == body;
    ParseBodyOk(p.cmds, p.numRw);
    HalvesOk(p.cnt);
    HalvesOk(p.mask);
  }

  lemma LengthWord(p: Packet)
    requires ValidPacket(p)
    ensures |PacketWords(p)| >= 4 && U32(PacketWords(p)[0]) == 4 * |PacketWords(p)|
  {
    ParsePacketOk(p);
    FromToU32(4 * PacketLen(p));
  }

  /** Round trip at word level: the decoder recovers the packets from their words. */
  lemma {:induction false} StreamRoundTrip(ps: seq<Packet>)
    requires ValidStream(ps)
    ensures ParseStream(StreamWords(ps)) == Some(ps)
  {
    hide PacketWords, ParsePacket, U32, ValidPacket;
    if ps != [] {
      var ws, first := StreamWords(ps), PacketWords(ps[0]);
      ParsePacketOk(ps[0]);
      LengthWord(ps[0]);
      assert ws[0] == first[0] && ws[..|first|] == first && ws[|first|..] == StreamWords(ps[1..]);
      StreamRoundTrip(ps[1..]);
      assert ps == [ps[0]] + ps[1..];
    }
  }
}
