/** Channel messages as packets: how a message is written, and how one that arrives is read. */
module ChlPacket {
  import opened Words
  import opened Errors
  import Mailbox

  const CHL_NUM_MAX: nat := 32
  const MAX_MSG_SIZE: nat := 1024
  const BUF_WORDS: nat := (MAX_MSG_SIZE + 64) / 4
  const CMD_MSG_C2D: byte := 0xCC
  const CMD_MSG_D2C: byte := 0xCD
  const CHO_NONE: byte := 0
  const CHO_INIT: byte := 1

  // ---- Layout ----

  /** Byte i of word w is d[4 * k + i] where d has one; the other bytes keep what the buffer held. */
  function Merge(w: Word, d: seq<byte>, k: nat): Word {
    Word(if 4 * k < |d| then d[4 * k] else w.b0, if 4 * k + 1 < |d| then d[4 * k + 1] else w.b1,
         if 4 * k + 2 < |d| then d[4 * k + 2] else w.b2, if 4 * k + 3 < |d| then d[4 * k + 3] else w.b3)
  }

  /** memcpy of d over the words in prev. */
  function Overlay(prev: seq<Word>, d: seq<byte>): (ws: seq<Word>)
    ensures |ws| == |prev|
  {
    seq(|prev|, k requires 0 <= k < |prev| => Merge(prev[k], d, k))
  }

  function OptionOf(init: Word): byte {
    if init == ZERO then CHO_NONE else CHO_INIT
  }

  /** Length field: the message, and the init word if there is one; an unsigned 16-bit value. */
  function LengthField(init: Word, n: nat): nat {
    W16(if init == ZERO then n else n + 4)
  }

  function InitWords(init: Word): seq<Word> {
    if init == ZERO then [] else [init]
  }

  /** PL2 length of a packet with len bytes after the header. */
  function PktSize(len: nat): nat {
    12 + 4 * ((len + 3) / 4)
  }

  /** Channel, option and length in one word. */
  function MsgHeader(chl: nat, option: byte, len: nat): Word {
    Word(chl % 256, option, len % 256, len / 256 % 256)
  }

  /** The packet of a message; pad is what the rest of its last word holds. */
  function MsgWords(cmd: byte, err: byte, chl: nat, init: Word, msg: seq<byte>, pad: seq<Word>): seq<Word>
    requires |pad| == (|msg| + 3) / 4
  {
    var len := LengthField(init, |msg|);
    [FromU32(PktSize(len)), Word(1, cmd, 0, err), MsgHeader(chl, OptionOf(init), len)]
    + InitWords(init) + Overlay(pad, msg)
  }

  // ---- Reading ----

  /** Rejected, a reset notification, or a message: its place in the packet, length and init word. */
  datatype Received = Rejected | Notified | Msg(at: nat, len: nat, init: Word)

  datatype Reading = Reading(res: Received, reset: bool)

  /** size, h, c, o, len: PL2 length, first header word, channel, option and length of the packet. */
  function ReadFields(size: nat, h: Word, c: byte, o: byte, len: nat, init: Word, chl: nat): Reading {
    if size == 12 && h.b1 == CMD_MSG_D2C && h.b3 == DEV_RESET then
      if h.b0 != 1 || c != 0 || o != 0 || len != 0 then Reading(Rejected, false) else Reading(Notified, true)
    else if size < 16 || h.b1 != CMD_MSG_D2C || h.b0 != 1 then Reading(Rejected, false)
    else if h.b3 != DEV_RESET && h.b3 != PL_NO_ERROR then Reading(Rejected, false)
    else
      var reset := h.b3 == DEV_RESET;
      if c >= CHL_NUM_MAX || o > CHO_INIT || size != PktSize(len) || c != chl then Reading(Rejected, reset)
      else if o == CHO_INIT then Reading(Msg(4, W16(len - 4), init), reset)
      else Reading(Msg(3, len, ZERO), reset)
  }

  function ReadMsg(rsp: seq<Word>, chl: nat): Reading
    requires |rsp| >= 4
  {
    ReadFields(U32(rsp[0]), rsp[1], rsp[2].b0, rsp[2].b1, Field16(rsp[2]), rsp[3], chl)
  }

  /** Which packets are taken for a message, a reset notification, or neither: a message has the right command,
      word length, channel, option and PL2 length, and no error but a reset. A reset is counted even if the rest is
      refused. */
  lemma ReadExactly(size: nat, h: Word, c: byte, o: byte, len: nat, init: Word, chl: nat)
    ensures var r := ReadFields(size, h, c, o, len, init, chl); var res := r.res;
      var right := h.b0 == 1 && h.b1 == 0xCD && (h.b3 == 0x08 || h.b3 == 0x44);
      var sized := len > 0 && size == 12 + 4 * ((len + 3) / 4);
      && (res.Msg? <==> right && c < 32 && c == chl && o <= 1 && sized)
      && (res.Notified? <==> h.b0 == 1 && h.b1 == 0xCD && h.b3 == 0x44 && size == 12 && c == 0 && o == 0 && len == 0)
      && (r.reset <==> h.b0 == 1 && h.b1 == 0xCD && h.b3 == 0x44 && (size >= 16 || (size == 12 && c == 0 && o == 0 && len == 0)))
      && (res.Msg? ==> res == (if o == 1 then Msg(4, W16(len - 4), init) else Msg(3, len, ZERO)))
  {
    var k := (len + 3) / 4;
    assert PktSize(len) == 12 + 4 * k && (len > 0 <==> k > 0);
    hide PktSize, W16;
  }

  /** The bytes a message points to. */
  function Bytes(rsp: seq<Word>, m: Received): seq<byte>
    requires m.Msg? && m.at <= |rsp| && m.len <= 4 * |rsp[m.at..]|
  {
    ToBytes(rsp[m.at..])[..m.len]
  }

  // ---- Round trip ----

  lemma OverlayBytes(pad: seq<Word>, d: seq<byte>)
    requires |pad| == (|d| + 3) / 4
    ensures |d| <= 4 * |pad| && ToBytes(Overlay(pad, d))[..|d|] == d
  {
    forall i | 0 <= i < |d| ensures ToBytes(Overlay(pad, d))[i] == d[i] {
      assert i == 4 * (i / 4) + i % 4;
    }
  }

  lemma ReadHeader(rsp: seq<Word>, chl: nat, init: Word, n: nat, reset: bool)
    requires |rsp| >= 4 && chl < CHL_NUM_MAX && n + 4 < TWO16
    requires var len := LengthField(init, n);
      && rsp[0] == FromU32(PktSize(len)) && rsp[1] == Word(1, CMD_MSG_D2C, 0, if reset then DEV_RESET else PL_NO_ERROR)
      && rsp[2] == MsgHeader(chl, OptionOf(init), len)
    ensures ReadMsg(rsp, chl) ==
      if n == 0 && init == ZERO then (if reset && chl == 0 then Reading(Notified, true) else Reading(Rejected, false))
      else Reading(if init == ZERO then Msg(3, n, ZERO) else Msg(4, n, rsp[3]), reset)
  {
    hide ReadFields, LengthField, PktSize, MsgHeader, FromU32, U32, Field16;
    var len := LengthField(init, n);
    LengthIs(init, n);
    SizeIs(len);
    HeaderIs(chl, OptionOf(init), len);
    FieldsRead(chl, init, n, len, rsp[3], reset);
  }

  lemma FieldsRead(chl: nat, init: Word, n: nat, len: nat, next: Word, reset: bool)
    requires chl < CHL_NUM_MAX && len == (if init == ZERO then n else n + 4) && (init != ZERO ==> W16(len - 4) == n)
    requires if len == 0 then PktSize(len) == 12 else PktSize(len) >= 16
    ensures ReadFields(PktSize(len), Word(1, CMD_MSG_D2C, 0, if reset then DEV_RESET else PL_NO_ERROR), chl, OptionOf(init), len, next, chl) ==
      if n == 0 && init == ZERO then (if reset && chl == 0 then Reading(Notified, true) else Reading(Rejected, false))
      else Reading(if init == ZERO then Msg(3, n, ZERO) else Msg(4, n, next), reset)
  {
    hide PktSize, W16;
  }

  lemma LengthIs(init: Word, n: nat)
    requires n + 4 < TWO16
    ensures var len := LengthField(init, n);
      len == (if init == ZERO then n else n + 4) && (init != ZERO ==> len >= 4 && W16(len - 4) == n)
  {}

  lemma SizeIs(len: nat)
    requires len < TWO16
    ensures U32(FromU32(PktSize(len))) == PktSize(len) && (if len == 0 then PktSize(len) == 12 else PktSize(len) >= 16)
  {
    FromToU32(PktSize(len));
  }

  lemma HeaderIs(chl: nat, option: byte, len: nat)
    requires chl < CHL_NUM_MAX && len < TWO16
    ensures var w := MsgHeader(chl, option, len); w.b0 == chl && w.b1 == option && Field16(w) == len
  {}

  /** What a device sends back with payload and options unchanged is read as the same message, init word
      and length, for every length the field can hold and whatever the padding; except that the message
      without bytes and init word is not taken for a message. */
  lemma MessageRoundTrip(chl: nat, init: Word, msg: seq<byte>, pad: seq<Word>, reset: bool)
    requires chl < CHL_NUM_MAX && |msg| + 4 < TWO16 && |pad| == (|msg| + 3) / 4
    ensures var rsp := MsgWords(CMD_MSG_D2C, if reset then DEV_RESET else PL_NO_ERROR, chl, init, msg, pad);
      if msg == [] && init == ZERO then
        |rsp| == 3 && forall next: Word :: !ReadMsg(rsp + [next], chl).res.Msg?
      else
        |rsp| >= 4 && var r := ReadMsg(rsp, chl);
        && r.reset == reset && r.res.Msg? && r.res.init == init && r.res.len == |msg|
        && r.res.at <= |rsp| && r.res.len <= 4 * |rsp[r.res.at..]| && Bytes(rsp, r.res) == msg
  {
    OverlayBytes(pad, msg);
    hide ToBytes, FromU32, Overlay, ReadMsg, LengthField, PktSize, MsgHeader;
    var rsp := MsgWords(CMD_MSG_D2C, if reset then DEV_RESET else PL_NO_ERROR, chl, init, msg, pad);
    if msg == [] && init == ZERO {
      forall next: Word ensures !ReadMsg(rsp + [next], chl).res.Msg? {
        ReadHeader(rsp + [next], chl, init, 0, reset);
      }
    } else {
      ReadHeader(rsp, chl, init, |msg|, reset);
      assert rsp[if init == ZERO then 3 else 4..] == Overlay(pad, msg);
    }
  }

  lemma PktWords(init: Word, n: nat)
    requires n + 4 < TWO16
    ensures var len := LengthField(init, n);
      PktSize(len) == 4 * (3 + |InitWords(init)| + (n + 3) / 4) && PktSize(len) < TWO32
      && (PktSize(len) <= MAX_MSG_SIZE <==> n + 4 * |InitWords(init)| <= MAX_MSG_SIZE - 12)
  {}

  /** The client's receive limit counts the whole packet: a message arrives exactly if it has, with its
      init word, at most 1012 bytes, although lengths up to 1024 can be negotiated; a longer one breaks
      the connection. */
  lemma MessageReceived(err: byte, chl: nat, init: Word, msg: seq<byte>, pad: seq<Word>, rest: seq<Word>)
    requires |msg| + 4 < TWO16 && |pad| == (|msg| + 3) / 4
    ensures var pkt := MsgWords(CMD_MSG_D2C, err, chl, init, msg, pad);
      var r := Mailbox.RecvPkt(Mailbox.Recv(true, true, pkt + rest, []), MAX_MSG_SIZE);
      if |msg| + 4 * |InitWords(init)| <= MAX_MSG_SIZE - 12 then r == Mailbox.Recv(true, true, rest, pkt) else !r.ok && !r.up
  {
    var pkt := MsgWords(CMD_MSG_D2C, err, chl, init, msg, pad);
    PktWords(init, |msg|);
    FromToU32(PktSize(LengthField(init, |msg|)));
    hide Mailbox.RecvPkt, PktSize, LengthField, FromU32, U32, Overlay, MsgHeader;
    Mailbox.RecvOne(pkt, rest, [], MAX_MSG_SIZE);
    assert [] + pkt == pkt;
  }

  /** The length a message is compared with before it is sent, and whether it passes. */
  predicate MayBeSent(n: nat, init: Word, msgLengthC2d: nat) {
    LengthField(init, n) <= msgLengthC2d
  }

  /** The check is the intended one exactly if adding the init word does not wrap the 16-bit length
      around to one that passes. */
  lemma SendLimit(n: nat, init: Word, max: nat)
    requires n < TWO16 && max <= MAX_MSG_SIZE
    ensures (MayBeSent(n, init, max) <==> n + (if init == ZERO then 0 else 4) <= max)
      <==> (init == ZERO || n + 4 < TWO16 || n + 4 - TWO16 > max)
  {}

  // ---- The handler ----

  class ChlPacketHandler {
    const rqBuf: array<Word>
    var chl: nat
    var deviceResetCount: nat

    constructor ()
      ensures fresh(rqBuf) && rqBuf.Length == BUF_WORDS && deviceResetCount == 0
    {
      rqBuf := new Word[BUF_WORDS](_ => ZERO);
      chl, deviceResetCount := 0, 0;
    }

    /** Copies d over the buffer from word w on; bytes of the last word behind d stay as they were. */
    method Copy(w: nat, d: seq<byte>)
      requires w + (|d| + 3) / 4 <= rqBuf.Length
      modifies rqBuf
      ensures rqBuf[w..w + (|d| + 3) / 4] == Overlay(old(rqBuf[w..w + (|d| + 3) / 4]), d)
      ensures rqBuf[..w] == old(rqBuf[..w])
    {
      var n := (|d| + 3) / 4;
      var k := 0;
      while k < n
        invariant k <= n
        invariant forall j :: w <= j < w + k ==> rqBuf[j] == Merge(old(rqBuf[j]), d, j - w)
        invariant forall j :: 0 <= j < w || w + k <= j < w + n ==> rqBuf[j] == old(rqBuf[j])
      {
        rqBuf[w + k] := Merge(rqBuf[w + k], d, k);
        k := k + 1;
      }
    }

    /** Writes a message packet into the request buffer. */
    method GetPktSendMsg(channel: nat, msg: seq<byte>, init: Word)
      requires rqBuf.Length == BUF_WORDS && channel < CHL_NUM_MAX
      requires |msg| + 4 * |InitWords(init)| <= MAX_MSG_SIZE
      modifies rqBuf, `chl
      ensures var at := if init == ZERO then 3 else 4; var n := (|msg| + 3) / 4;
        rqBuf[..at + n] == MsgWords(CMD_MSG_C2D, 0, channel, init, msg, old(rqBuf[at..at + n]))
      ensures rqBuf[1] == Word(1, 0xCC, 0, 0)
    {
      chl := 0xFF;
      var len := LengthField(init, |msg|);
      var n := (|msg| + 3) / 4;
      rqBuf[0] := FromU32(PktSize(len));
      rqBuf[1] := Word(1, CMD_MSG_C2D, 0, 0);
      rqBuf[2] := MsgHeader(channel, OptionOf(init), len);
      var at := 3;
      if init != ZERO {
        rqBuf[3] := init;
        at := 4;
      }
      assert rqBuf[at..at + n] == old(rqBuf[at..at + n]);
      ghost var head := rqBuf[..at];
      assert head == [rqBuf[0], rqBuf[1], rqBuf[2]] + InitWords(init);
      Copy(at, msg);
      assert rqBuf[..at + n] == rqBuf[..at] + rqBuf[at..at + n];
    }

    /** Reads a packet for a channel; a reported device reset is counted even if the rest is rejected. */
    method SetPktRcvMsg(rsp: seq<Word>, channel: nat) returns (res: Received)
      requires |rsp| >= 4
      modifies `deviceResetCount
      ensures var r := ReadMsg(rsp, channel);
        res == r.res && deviceResetCount == old(deviceResetCount) + if r.reset then 1 else 0
    {
      var size, h, m := U32(rsp[0]), rsp[1], rsp[2];
      var len := Field16(m);
      if size == 12 && h.b1 == CMD_MSG_D2C && h.b3 == DEV_RESET {
        if h.b0 != 1 || m.b0 != 0 || m.b1 != 0 || len != 0 {
          return Rejected;
        }
        deviceResetCount := deviceResetCount + 1;
        return Notified;
      }
      if size < 16 || h.b1 != CMD_MSG_D2C || h.b0 != 1 {
        return Rejected;
      }
      if h.b3 == DEV_RESET {
        deviceResetCount := deviceResetCount + 1;
      } else if h.b3 != PL_NO_ERROR {
        return Rejected;
      }
      if m.b0 >= CHL_NUM_MAX || m.b1 > CHO_INIT || size != PktSize(len) || m.b0 != channel {
        return Rejected;
      }
      var rest: int := len;
      return if m.b1 == CHO_INIT then Msg(4, W16(rest - 4), rsp[3]) else Msg(3, len, ZERO);
    }
  }
}
