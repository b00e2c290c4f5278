/** Bytes and little-endian 32-bit words, the units of every TAS packet. */
module Words {
  type byte = b: int | 0 <= b < 256

  /** A 32-bit word, seen as its four bytes in memory order. */
  datatype Word = Word(b0: byte, b1: byte, b2: byte, b3: byte)

  const ZERO := Word(0, 0, 0, 0)
  const TWO16: nat := 0x1_0000
  const TWO32: nat := 0x1_0000_0000
  const TWO64: nat := 0x1_0000_0000_0000_0000

  /** The value an unsigned variable of 32 (16, 64) bits keeps of x. */
  function W32(x: int): (r: nat)
    ensures r < TWO32
  {
    x % TWO32
  }

  function W16(x: int): (r: nat)
    ensures r < TWO16
  {
    x % TWO16
  }

  function W64(x: int): (r: nat)
    ensures r < TWO64
  {
    x % TWO64
  }

  function Min(a: nat, b: nat): nat {
    if a < b then a else b
  }

  /** A header word: word length, command code, 16-bit field; each cast to its width. */
  function Head(wl: nat, cmd: nat, field: nat): Word {
    Word(wl % 256, cmd % 256, field % 256, field / 256 % 256)
  }

  /** The 16-bit field in the upper half of a header word. */
  function Field16(w: Word): (r: nat)
    ensures r < TWO16
  {
    w.b2 + 256 * w.b3
  }

  function FromU32(x: nat): Word {
    Word(x % 256, x / 256 % 256, x / TWO16 % 256, x / 0x100_0000 % 256)
  }

  function U32(w: Word): (r: nat)
    ensures r < TWO32
  {
    w.b0 + 256 * w.b1 + TWO16 * w.b2 + 0x100_0000 * w.b3
  }

  lemma HeadField(wl: nat, cmd: nat, field: nat)
    requires field < TWO16
    ensures Field16(Head(wl, cmd, field)) == field
  {
    assert field / 256 < 256;
  }

  lemma HeadParts(wl: nat, cmd: byte, field: nat)
    requires wl < 256 && field < TWO16
    ensures var w := Head(wl, cmd, field); w.b0 == wl && w.b1 == cmd && Field16(w) == field
  {
    HeadField(wl, cmd, field);
  }

  lemma FromToU32(x: nat)
    requires x < TWO32
    ensures U32(FromU32(x)) == x
  {
    var a, b, c := x / 256, x / TWO16, x / 0x100_0000;
    assert x == 256 * a + x % 256;
    assert a == 256 * (a / 256) + a % 256 && a / 256 == b;
    assert b == 256 * (b / 256) + b % 256 && b / 256 == c;
  }

  /** Byte i of d, or zero past the end: copying into a cleared word buffer. */
  function At(d: seq<byte>, i: nat): byte {
    if i < |d| then d[i] else 0
  }

  /** memcpy of d into words; the last word is padded with zero bytes. */
  function ToWords(d: seq<byte>): (ws: seq<Word>)
    ensures |ws| == (|d| + 3) / 4
  {
    seq((|d| + 3) / 4, k requires 0 <= k => Word(At(d, 4 * k), At(d, 4 * k + 1), At(d, 4 * k + 2), At(d, 4 * k + 3)))
  }

  function Nth(w: Word, i: nat): byte
    requires i < 4
  {
    if i == 0 then w.b0 else if i == 1 then w.b1 else if i == 2 then w.b2 else w.b3
  }

  /** The bytes of a word buffer. */
  function ToBytes(ws: seq<Word>): (d: seq<byte>)
    ensures |d| == 4 * |ws|
  {
    seq(4 * |ws|, i requires 0 <= i < 4 * |ws| => Nth(ws[i / 4], i % 4))
  }

  /** Copying bytes into words and back gives the bytes followed by the padding. */
  lemma BytesOfWords(d: seq<byte>, rest: seq<Word>)
    ensures |ToBytes(ToWords(d) + rest)| >= |d|
    ensures ToBytes(ToWords(d) + rest)[..|d|] == d
  {
    var ws := ToWords(d) + rest;
    forall i | 0 <= i < |d| ensures ToBytes(ws)[i] == d[i] {
      assert i / 4 < |ToWords(d)| && ws[i / 4] == ToWords(d)[i / 4];
      assert i == 4 * (i / 4) + i % 4;
    }
  }
}
