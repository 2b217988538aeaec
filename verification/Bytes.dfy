/** Bytes, the bitwise AND of a flash cell, and big/little-endian numbers. */
module Bytes {

  type byte = x: int | 0 <= x < 256

  const ERASED: byte := 0xFF

  function AndBits(a: nat, b: nat, bits: nat): nat
  {
    if bits == 0 then 0 else (a % 2) * (b % 2) + 2 * AndBits(a / 2, b / 2, bits - 1)
  }

  function Ones(bits: nat): nat
  {
    if bits == 0 then 0 else 1 + 2 * Ones(bits - 1)
  }

  lemma {:induction false} AndBitsBound(a: nat, b: nat, bits: nat)
    ensures AndBits(a, b, bits) <= Ones(bits)
  {
    if bits > 0 {
      AndBitsBound(a / 2, b / 2, bits - 1);
      assert (a % 2) * (b % 2) <= 1;
    }
  }

  lemma {:induction false} AndBitsOnes(b: nat, bits: nat)
    requires b <= Ones(bits)
    ensures AndBits(Ones(bits), b, bits) == b
  {
    if bits > 0 {
      assert Ones(bits) % 2 == 1 && Ones(bits) / 2 == Ones(bits - 1);
      AndBitsOnes(b / 2, bits - 1);
    }
  }

  lemma OnesOfByte()
    ensures Ones(8) == 0xFF
  {
    assert Ones(4) == 15;
    assert Ones(6) == 63;
  }

  /** The AND of two bytes, bit by bit. */
  function And8(a: byte, b: byte): byte
  {
    AndBitsBound(a, b, 8);
    OnesOfByte();
    AndBits(a, b, 8)
  }

  /** Bit k of a number. */
  function Bit(a: nat, k: nat): nat
  {
    if k == 0 then a % 2 else Bit(a / 2, k - 1)
  }

  lemma {:induction false} AndBitsBit(a: nat, b: nat, bits: nat, k: nat)
    requires k < bits
    ensures Bit(AndBits(a, b, bits), k) == 1 <==> Bit(a, k) == 1 && Bit(b, k) == 1
  {
    var r := AndBits(a / 2, b / 2, bits - 1);
    assert (a % 2) * (b % 2) == if a % 2 == 1 && b % 2 == 1 then 1 else 0;
    assert AndBits(a, b, bits) % 2 == (a % 2) * (b % 2) && AndBits(a, b, bits) / 2 == r;
    if k > 0 {
      AndBitsBit(a / 2, b / 2, bits - 1, k - 1);
    }
  }

  /** A bit is set in the AND exactly if it is set in both: programming clears bits and
      sets none. */
  lemma AndIsBitwise(a: byte, b: byte, k: nat)
    requires k < 8
    ensures Bit(And8(a, b), k) == 1 <==> Bit(a, k) == 1 && Bit(b, k) == 1
  {
    AndBitsBit(a, b, 8, k);
  }

  /** Programming an erased cell stores the byte itself. */
  lemma AndErased(b: byte)
    ensures And8(ERASED, b) == b
  {
    OnesOfByte();
    AndBitsOnes(b, 8);
  }

  /** `addr3`: the three address bytes of a SPI command, most significant first. */
  function Addr3(a: nat): seq<byte>
  {
    [a / 0x10000 % 256, a / 0x100 % 256, a % 256]
  }

  /** The address that the chip decodes from a command. */
  function AddrOf(command: seq<byte>): nat
    requires |command| >= 4
  {
    (command[1] as int) * 0x10000 + (command[2] as int) * 0x100 + command[3] as int
  }

  /** The chip sees the low 24 bits. */
  lemma AddrOfAddr3(op: byte, a: nat, rest: seq<byte>)
    ensures |[op] + Addr3(a) + rest| >= 4
    ensures AddrOf([op] + Addr3(a) + rest) == a % 0x1000000
  {
    var c := [op] + Addr3(a) + rest;
    assert c[1] == a / 0x10000 % 256 && c[2] == a / 0x100 % 256 && c[3] == a % 256;
    assert a / 0x100 / 0x100 == a / 0x10000;
  }

  /** Python's `s[lo:hi]`, which clamps both bounds to the length. */
  function Slice<T>(s: seq<T>, lo: nat, hi: nat): seq<T>
  {
    var top := if hi <= |s| then hi else |s|;
    if lo <= top then s[lo..top] else []
  }
}
