/** The SPI-NOR chip (W25Q64): 8 MiB of cells, a write-enable latch, a busy
    period after each erase or program, and the protection bits of SR1 and SR2. */
module Nor {
  import opened Bytes

  const FLASH_SIZE: nat := 0x800000
  const PAGE_SIZE: nat := 256
  const SECTOR_SIZE: nat := 0x1000
  const BLOCK_SIZE: nat := 0x10000

  /** A multiple of the smallest erase. */
  predicate Aligned(n: nat) { n % SECTOR_SIZE == 0 }

  const OP_PAGE_PROGRAM: byte := 0x02
  const OP_READ: byte := 0x03
  const OP_RDSR1: byte := 0x05
  const OP_WREN: byte := 0x06
  const OP_SECTOR_ERASE: byte := 0x20
  const OP_RDSR2: byte := 0x35
  const OP_RDID: byte := 0x9F
  const OP_BLOCK_ERASE: byte := 0xD8

  const RDID_EXPECT: seq<byte> := [0xEF, 0x40, 0x17]

  /** `wip` is the number of status polls that still find the chip busy.
      `high1` holds SR1 bits 2 to 7 and `sr2` the second status register. */
  datatype Chip = Chip(mem: seq<byte>, wel: bool, wip: nat, high1: nat, sr2: byte)
  {
    predicate Valid() {
      |mem| == FLASH_SIZE && high1 < 64
    }

    /** SR1 & (BP | TB), with mask 0x3C. */
    predicate Protected() {
      high1 % 16 != 0
    }

    /** SR2 & CMP, with mask 0x40: everything is protected while BP is 0. */
    predicate Complemented() {
      sr2 / 64 % 2 == 1
    }

    /** The chip carries out the erases and programs it is sent. */
    predicate Honours() {
      !Protected() && !Complemented()
    }

    function Status1(): byte
      requires Valid()
    {
      high1 * 4 + (if wel then 2 else 0) + (if wip > 0 then 1 else 0)
    }
  }

  predicate HasWip(sr1: byte) { sr1 % 2 == 1 }             // SR1 & 0x01

  predicate HasWel(sr1: byte) { sr1 / 2 % 2 == 1 }         // SR1 & 0x02

  predicate HasProtection(sr1: byte) { sr1 / 4 % 16 != 0 } // SR1 & 0x3C

  lemma StatusBits(c: Chip)
    requires c.Valid()
    ensures HasWip(c.Status1()) <==> c.wip > 0
    ensures HasWel(c.Status1()) <==> c.wel
    ensures HasProtection(c.Status1()) <==> c.Protected()
  {
  }

  // ---------------------------------------------------------------- cells

  /** Erasing sets every cell of [a, a + n). */
  function Fill(mem: seq<byte>, a: nat, n: nat): (r: seq<byte>)
    ensures |r| == |mem|
  {
    seq(|mem|, i requires 0 <= i < |mem| => if a <= i < a + n then ERASED else mem[i])
  }

  /** Programming ANDs the bytes into one page and wraps at the page's end. */
  function Burn(mem: seq<byte>, page: nat, at: nat, data: seq<byte>): (r: seq<byte>)
    requires page + PAGE_SIZE <= |mem| && at < PAGE_SIZE
    ensures |r| == |mem|
    decreases |data|
  {
    if data == [] then mem
    else Burn(mem[page + at := And8(mem[page + at], data[0])], page, (at + 1) % PAGE_SIZE, data[1..])
  }

  /** `data` written over `mem` at `a`. */
  function Splice(mem: seq<byte>, a: nat, data: seq<byte>): (r: seq<byte>)
    ensures |r| == |mem|
  {
    seq(|mem|, i requires 0 <= i < |mem| => if a <= i < a + |data| then data[i - a] else mem[i])
  }

  /** The two memories agree on every cell outside [lo, hi). */
  ghost predicate Kept(m0: seq<byte>, m1: seq<byte>, lo: int, hi: int)
  {
    && |m1| == |m0|
    && forall i {:trigger m1[i]} :: 0 <= i < |m0| && !(lo <= i < hi) ==> m1[i] == m0[i]
  }

  ghost predicate Blank(mem: seq<byte>, lo: int, hi: int)
  {
    && 0 <= lo && hi <= |mem|
    && forall i {:trigger mem[i]} :: lo <= i < hi ==> mem[i] == ERASED
  }

  ghost predicate Holds(mem: seq<byte>, a: nat, data: seq<byte>)
  {
    && a + |data| <= |mem|
    && forall i {:trigger mem[i]} :: a <= i < a + |data| ==> mem[i] == data[i - a]
  }

  lemma {:induction false} BurnStaysInPage(mem: seq<byte>, page: nat, at: nat, data: seq<byte>)
    requires page + PAGE_SIZE <= |mem| && at < PAGE_SIZE
    ensures Kept(mem, Burn(mem, page, at, data), page, page + PAGE_SIZE)
    decreases |data|
  {
    if data != [] {
      BurnStaysInPage(mem[page + at := And8(mem[page + at], data[0])], page, (at + 1) % PAGE_SIZE, data[1..]);
    }
  }

  /** Without a wrap, programming is a cell-by-cell AND. */
  lemma {:induction false} BurnWithoutWrap(mem: seq<byte>, page: nat, at: nat, data: seq<byte>)
    requires page + PAGE_SIZE <= |mem| && at < PAGE_SIZE && at + |data| <= PAGE_SIZE
    ensures Kept(mem, Burn(mem, page, at, data), page + at, page + at + |data|)
    ensures forall i :: 0 <= i < |data| ==>
      Burn(mem, page, at, data)[page + at + i] == And8(mem[page + at + i], data[i])
    decreases |data|
  {
    if |data| == 1 {
      assert data[1..] == [];
    } else if data != [] {
      var mem' := mem[page + at := And8(mem[page + at], data[0])];
      var r := Burn(mem', page, at + 1, data[1..]);
      BurnWithoutWrap(mem', page, at + 1, data[1..]);
      forall i | 0 <= i < |data|
        ensures r[page + at + i] == And8(mem[page + at + i], data[i])
      {
        if i > 0 {
          assert r[page + (at + 1) + (i - 1)] == And8(mem'[page + (at + 1) + (i - 1)], data[1..][i - 1]);
        }
      }
    }
  }

  // ------------------------------------------------------------- commands

  /** An address as the chip sees it: its upper bits are not connected. */
  function Cell(command: seq<byte>): nat
    requires |command| >= 4
  {
    AddrOf(command) % FLASH_SIZE
  }

  /** The cell behind an address; addresses past the chip start over. */
  function CellAt(mem: seq<byte>, a: nat): byte
    requires |mem| == FLASH_SIZE
  {
    if a < FLASH_SIZE then mem[a] else mem[a % FLASH_SIZE]
  }

  function Cells(mem: seq<byte>, a: nat, n: nat): (r: seq<byte>)
    requires |mem| == FLASH_SIZE
    ensures |r| == n
  {
    seq<byte>(n, i requires 0 <= i < n => CellAt(mem, a + i))
  }

  lemma CellsInChip(mem: seq<byte>, a: nat, n: nat)
    requires |mem| == FLASH_SIZE && a + n <= FLASH_SIZE
    ensures Cells(mem, a, n) == mem[a..a + n]
  {
    forall i | 0 <= i < n
      ensures Cells(mem, a, n)[i] == mem[a..a + n][i]
    {
      assert Cells(mem, a, n)[i] == CellAt(mem, a + i);
      assert a + i < FLASH_SIZE;
    }
  }

  /** The chip after a command. `busy` is how many polls the operation will take.
      A busy chip obeys status reads only; an erase or program without the latch,
      or on a protected chip, does nothing. */
  function After(c: Chip, command: seq<byte>, busy: nat): (c': Chip)
    requires c.Valid()
    ensures c'.Valid() && c'.high1 == c.high1 && c'.sr2 == c.sr2
  {
    if command == [] then c
    else if command[0] == OP_RDSR1 then
      c.(wip := if c.wip == 0 then 0 else c.wip - 1, wel := c.wel && c.wip != 1)
    else if c.wip > 0 then c
    else if command[0] == OP_WREN then c.(wel := true)
    else if |command| < 4 || !c.wel || !c.Honours() then c
    else if command[0] == OP_SECTOR_ERASE then
      Working(c.(mem := Fill(c.mem, Cell(command) - Cell(command) % SECTOR_SIZE, SECTOR_SIZE)), busy)
    else if command[0] == OP_BLOCK_ERASE then
      Working(c.(mem := Fill(c.mem, Cell(command) - Cell(command) % BLOCK_SIZE, BLOCK_SIZE)), busy)
    else if command[0] == OP_PAGE_PROGRAM then
      Working(c.(mem := Burn(c.mem, Cell(command) - Cell(command) % PAGE_SIZE, Cell(command) % PAGE_SIZE,
                             command[4..])), busy)
    else c
  }

  /** The latch drops when the operation ends, which is at once when it takes no polls. */
  function Working(c: Chip, busy: nat): Chip
  {
    c.(wip := busy, wel := busy > 0)
  }

  /** The bytes the chip shifts out. A busy chip answers other reads with `noise`. */
  function Answer(c: Chip, command: seq<byte>, rcount: nat, noise: byte): (r: seq<byte>)
    requires c.Valid()
    ensures |r| == rcount
  {
    if command == [] then seq(rcount, _ => noise)
    else if command[0] == OP_RDSR1 then seq(rcount, _ => c.Status1())
    else if command[0] == OP_RDSR2 then seq(rcount, _ => c.sr2)
    else if c.wip > 0 then seq(rcount, _ => noise)
    else if command[0] == OP_RDID then
      seq(rcount, i requires 0 <= i < rcount => if i < 3 then RDID_EXPECT[i] else 0)
    else if command[0] == OP_READ && |command| >= 4 then
      seq(rcount, i requires 0 <= i < rcount => c.mem[(Cell(command) + i) % FLASH_SIZE])
    else seq(rcount, _ => noise)
  }
}
