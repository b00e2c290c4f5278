/** The CRC behind the device id hash is the CRC-32 of section 3.2.9 of IEEE 802.3 (and section 8 of
    RFC 1952), although its register starts at zero, is never inverted, and its table looks different. */
module Crc {
  /** A byte, promoted to 32 bits. */
  type octet = b: bv32 | b < 0x100

  function Xor(a: bv32, b: bv32): bv32 {
    a ^ b
  }

  function Not(s: bv32): bv32 {
    s ^ 0xFFFF_FFFF
  }

  function Upper(s: bv32): bv32 {
    s >> 4
  }

  function Lower(s: bv32): bv32 {
    s & 0xF
  }

  /** One step of the standard register, least significant bit first. */
  function Shift(s: bv32): bv32 {
    if s & 1 == 1 then (s >> 1) ^ 0xEDB8_8320 else s >> 1
  }

  function Shift4(s: bv32): bv32 {
    Shift(Shift(Shift(Shift(s))))
  }

  function Register(s: bv32, data: seq<octet>): bv32
    decreases |data|
  {
    if data == [] then s else Register(Shift4(Shift4(Xor(s, data[0]))), data[1..])
  }

  /** CRC-32, bit by bit: the register starts with all ones and is inverted in the end. */
  function StandardCrc(data: seq<octet>): bv32 {
    Not(Register(0xFFFF_FFFF, data))
  }

  /** The 16-entry table of the code. */
  function Table(i: bv32): bv32 {
    if i < 8 then
      if i < 4 then
        if i < 2 then (if i == 0 then 0x4DBD_F21C else 0x500A_E278) else if i == 2 then 0x76D3_D2D4 else 0x6B64_C2B0
      else
        if i < 6 then (if i == 4 then 0x3B61_B38C else 0x26D6_A3E8) else if i == 6 then 0x000F_9344 else 0x1DB8_8320
    else
      if i < 12 then
        if i < 10 then (if i == 8 then 0xA005_713C else 0xBDB2_6158) else if i == 10 then 0x9B6B_51F4 else 0x86DC_4190
      else
        if i < 14 then (if i == 12 then 0xD6D9_30AC else 0xCB6E_20C8) else if i == 14 then 0xEDB7_1064 else 0xF000_0000
  }

  /** One look-up of the code: four bits of data into its register. */
  function Nibble(crc: bv32, d: bv32): bv32 {
    Xor(Upper(crc), Table(Lower(Xor(crc, d))))
  }

  // ---- The standard register, four bits at a time ----

  /** The code's table is the standard one read backwards, with the top four bits flipped. */
  lemma TableIsShift4(i: bv32)
    requires i < 16
    ensures Table(i) == Shift4(15 - i) ^ 0xF000_0000
  {}

  function Combine(h: bv32, t: bv32): bv32 {
    h ^ t ^ 0xF000_0000
  }

  function Reversed(i: bv32): bv32 {
    15 - i
  }

  /** Four steps shift the upper bits down and mix in what the lowest four bits stand for. */
  lemma Shift4Is(s: bv32)
    ensures Shift4(s) == Combine(Upper(s), Table(Reversed(Lower(s))))
  {
    if s & 1 == 0 {
      if s & 2 == 0 {
        if s & 4 == 0 {
          if s & 8 == 0 {} else {}
        } else {
          if s & 8 == 0 {} else {}
        }
      } else {
        if s & 4 == 0 {
          if s & 8 == 0 {} else {}
        } else {
          if s & 8 == 0 {} else {}
        }
      }
    } else {
      if s & 2 == 0 {
        if s & 4 == 0 {
          if s & 8 == 0 {} else {}
        } else {
          if s & 8 == 0 {} else {}
        }
      } else {
        if s & 4 == 0 {
          if s & 8 == 0 {} else {}
        } else {
          if s & 8 == 0 {} else {}
        }
      }
    }
  }

  /** One look-up is four steps of the standard register, on complements. */
  lemma NibbleIsShift4(crc: bv32, d: bv32)
    requires d < 16
    ensures Not(Nibble(crc, d)) == Shift4(Xor(Not(crc), d))
  {
    hide Shift4, Table, Xor, Not, Upper, Lower, Combine, Reversed;
    Shift4Is(Xor(Not(crc), d));
    Complement(crc, d);
    Cancel(Upper(crc), Table(Lower(Xor(crc, d))));
  }

  function Flip28(s: bv32): bv32 {
    s ^ 0x0FFF_FFFF
  }

  lemma Complement(crc: bv32, d: bv32)
    requires d < 16
    ensures var s := Xor(Not(crc), d);
      Reversed(Lower(s)) == Lower(Xor(crc, d)) && Upper(s) == Flip28(Upper(crc))
  {}

  lemma Cancel(c: bv32, t: bv32)
    ensures Not(Xor(c, t)) == Combine(Flip28(c), t)
  {}

  /** The upper half of a byte may be mixed in after the lower half has been shifted out. */
  lemma ByteInHalves(s: bv32, b: octet)
    ensures Shift4(Xor(s, b)) == Xor(Shift4(Xor(s, Lower(b))), Upper(b))
  {
    hide Shift4, Table, Xor, Upper, Lower, Combine, Reversed;
    Shift4Is(Xor(s, b));
    Shift4Is(Xor(s, Lower(b)));
    Halves(s, b);
    Swap(Upper(Xor(s, Lower(b))), Upper(b), Table(Reversed(Lower(Xor(s, b)))));
  }

  lemma Halves(s: bv32, b: octet)
    ensures Lower(b) < 16 && Upper(b) < 16
    ensures Lower(Xor(s, b)) == Lower(Xor(s, Lower(b)))
    ensures Upper(Xor(s, b)) == Xor(Upper(Xor(s, Lower(b))), Upper(b))
  {}

  lemma Swap(x: bv32, y: bv32, t: bv32)
    ensures Combine(Xor(x, y), t) == Xor(Combine(x, t), y)
  {
    assert (x ^ y) ^ t == (x ^ t) ^ y;
  }

  lemma ByteDone(crc: bv32, b: octet)
    ensures Not(Nibble(Nibble(crc, Lower(b)), Upper(b))) == Shift4(Shift4(Xor(Not(crc), b)))
  {
    hide *;
    Halves(crc, b);
    NibbleIsShift4(crc, Lower(b));
    NibbleIsShift4(Nibble(crc, Lower(b)), Upper(b));
    ByteInHalves(Not(crc), b);
  }

  lemma Ends(crc: bv32)
    ensures Not(0) == 0xFFFF_FFFF && Not(Not(crc)) == crc
  {}

  /** The loop over bytes, two table look-ups each: its register is the complement of the standard one. */
  method Crc32(data: seq<octet>) returns (crc: bv32)
    ensures crc == StandardCrc(data)
  {
    hide Nibble, Shift4, Not, Xor;
    crc := 0;
    Ends(0);
    assert data[0..] == data;
    var n := 0;
    while n < |data|
      invariant n <= |data| && Register(Not(crc), data[n..]) == Register(0xFFFF_FFFF, data)
    {
      ByteDone(crc, data[n]);
      crc := Nibble(crc, Lower(data[n]));
      crc := Nibble(crc, Upper(data[n]));
      n := n + 1;
    }
    Ends(crc);
  }

  /** The digits 1 to 9 as characters, the usual test vector. */
  function Digits(): seq<octet> {
    [0x31, 0x32, 0x33, 0x34, 0x35, 0x36, 0x37, 0x38, 0x39]
  }

  lemma OneByte(s: bv32, b: octet, rest: seq<octet>)
    ensures Register(s, [b] + rest) == Register(Shift4(Shift4(Xor(s, b))), rest)
  {
    hide Shift4, Xor;
    assert ([b] + rest)[1..] == rest;
  }

  lemma Steps()
    ensures Shift4(Shift4(Xor(0xFFFFFFFF, 0x31))) == 0x7C231048
    ensures Shift4(Shift4(Xor(0x7C231048, 0x32))) == 0xB0ACBB32
    ensures Shift4(Shift4(Xor(0xB0ACBB32, 0x33))) == 0x77B79C2D
    ensures Shift4(Shift4(Xor(0x77B79C2D, 0x34))) == 0x641C1F5C
    ensures Shift4(Shift4(Xor(0x641C1F5C, 0x35))) == 0x340AC5E3
    ensures Shift4(Shift4(Xor(0x340AC5E3, 0x36))) == 0xF68D2C9E
    ensures Shift4(Shift4(Xor(0xF68D2C9E, 0x37))) == 0xAFFC9660
    ensures Shift4(Shift4(Xor(0xAFFC9660, 0x38))) == 0x651F2550
    ensures Shift4(Shift4(Xor(0x651F2550, 0x39))) == 0x340BC6D9
    ensures Not(0x340BC6D9) == 0xCBF4_3926
  {}

  /** The check value published for this CRC. */
  lemma CheckValue()
    ensures StandardCrc(Digits()) == 0xCBF4_3926
  {
    hide Shift4, Xor, Not, Register;
    Steps();
    var d := Digits();
    assert Register(0x340BC6D9, []) == 0x340BC6D9 by { Done(0x340BC6D9); }
    OneByte(0x651F2550, 0x39, d[9..]);
    assert [0x39] + d[9..] == d[8..];
    OneByte(0xAFFC9660, 0x38, d[8..]);
    assert [0x38] + d[8..] == d[7..];
    OneByte(0xF68D2C9E, 0x37, d[7..]);
    assert [0x37] + d[7..] == d[6..];
    OneByte(0x340AC5E3, 0x36, d[6..]);
    assert [0x36] + d[6..] == d[5..];
    OneByte(0x641C1F5C, 0x35, d[5..]);
    assert [0x35] + d[5..] == d[4..];
    OneByte(0x77B79C2D, 0x34, d[4..]);
    assert [0x34] + d[4..] == d[3..];
    OneByte(0xB0ACBB32, 0x33, d[3..]);
    assert [0x33] + d[3..] == d[2..];
    OneByte(0x7C231048, 0x32, d[2..]);
    assert [0x32] + d[2..] == d[1..];
    OneByte(0xFFFFFFFF, 0x31, d[1..]);
    assert [0x31] + d[1..] == d[0..];
    assert d[0..] == d && d[9..] == [];
  }

  lemma Done(s: bv32)
    ensures Register(s, []) == s
  {}
}
