/** Reading, erasing, programming and verifying one region within one session. */
module Region {
  import opened Results
  import opened Bytes
  import opened Nor
  import opened Bench
  import opened Bridge
  import opened Planning

  const READ_CHUNK: nat := MAX_READ

  /** One transaction inside a frame. */
  method Send(bridge: SpiBridge, command: seq<byte>, rcount: nat, ghost f: Frame) returns (r: Result<seq<byte>>)
    requires bridge.Ready() && Fits(command, rcount)
    requires Inside(bridge.rig.world, f, bridge.rig.now)
    requires Kept(bridge.rig.now.chip.mem,
                  After(bridge.rig.now.chip, command, bridge.rig.world.busy(bridge.rig.now.clock)).mem, f.lo, f.hi)
    modifies bridge, bridge.rig
    ensures bridge.Valid() && (r.Ok? ==> bridge.Ready()) && bridge.guard == old(bridge.guard)
    ensures Inside(bridge.rig.world, f, bridge.rig.now)
    ensures r.Err? ==> TransferError(r.error, bridge.rig.world, bridge.guard, old(bridge.rig.now.clock))
    ensures old(bridge.Steady()) ==> r.Ok? && bridge.Steady()
    ensures old(bridge.Refusal()).Some? ==>
      r == Err(old(bridge.Refusal()).value) && bridge.rig.now == old(bridge.Refused())
    ensures !old(bridge.rig.now.ap) && Smooth(bridge.rig.world, old(bridge.rig.now.clock)) && bridge.guard != Some(0) ==>
      r.Ok? && !bridge.rig.now.ap
    ensures bridge.txn == old(bridge.txn) + 1 && (r == Err(Crash) ==> bridge.Polls())
    ensures r.Ok? ==> bridge.rig.now == Delivered(bridge.rig.world, old(bridge.rig.now), command)
                      && r.value == Reply(bridge.rig.world, old(bridge.rig.now), command, rcount)
  {
    InsideStep(bridge.rig.world, f, bridge.rig.now, command);
    r := bridge.Transact(command, rcount);
  }

  /** `check_rdid` */
  method CheckRdid(bridge: SpiBridge, ghost f: Frame) returns (r: Result<()>)
    requires bridge.Ready() && Inside(bridge.rig.world, f, bridge.rig.now)
    modifies bridge, bridge.rig
    ensures bridge.Valid() && (r.Ok? ==> bridge.Ready()) && bridge.guard == old(bridge.guard)
    ensures Inside(bridge.rig.world, f, bridge.rig.now)
    ensures r.Err? ==> TransferError(r.error, bridge.rig.world, bridge.guard, old(bridge.rig.now.clock)) || r.error == Fatal(BadRdid)
    ensures (!old(bridge.rig.now.ap) && Smooth(bridge.rig.world, old(bridge.rig.now.clock)) && bridge.guard != Some(0)
             && old(bridge.rig.now.live) > 0 && old(bridge.rig.now.Idle())) ==> r.Ok?
    ensures !old(bridge.rig.now.ap) && Smooth(bridge.rig.world, old(bridge.rig.now.clock)) && bridge.guard != Some(0) ==>
      !bridge.rig.now.ap
    ensures bridge.txn == old(bridge.txn) + 1 && (r == Err(Crash) ==> bridge.Polls())
    ensures r.Ok? ==> Spent(old(bridge.rig.now), bridge.rig.now) && old(bridge.rig.now.live) > 0
                      && bridge.rig.now.clock == old(bridge.rig.now.clock) + 1
                      && bridge.rig.now.chip == old(bridge.rig.now.chip)
    ensures old(bridge.Steady()) && old(bridge.rig.now.live) > 0 && old(bridge.rig.now.Idle()) ==>
      r.Ok? && bridge.Steady()
  {
    assert [OP_RDID][0] == OP_RDID;
    var got :- Send(bridge, [OP_RDID], 3, f);
    assert old(bridge.rig.now.live) > 0 && old(bridge.rig.now.Idle()) ==> got == RDID_EXPECT;
    if got != RDID_EXPECT {
      return Err(Fatal(BadRdid));
    }
    assert got[0] != got[1];
    return Ok(());
  }

  /** `read_sr`: SR1, then SR2. */
  method ReadSr(bridge: SpiBridge, ghost f: Frame) returns (r: Result<(byte, byte)>)
    requires bridge.Ready() && Inside(bridge.rig.world, f, bridge.rig.now)
    modifies bridge, bridge.rig
    ensures bridge.Valid() && (r.Ok? ==> bridge.Ready()) && bridge.guard == old(bridge.guard)
    ensures Inside(bridge.rig.world, f, bridge.rig.now)
    ensures r.Err? ==> TransferError(r.error, bridge.rig.world, bridge.guard, old(bridge.rig.now.clock))
    ensures old(bridge.Steady()) ==> r.Ok? && bridge.Steady()
    ensures old(bridge.Refusal()).Some? ==>
      r == Err(old(bridge.Refusal()).value) && bridge.rig.now == old(bridge.Refused())
    ensures r.Ok? ==> Spent(old(bridge.rig.now), bridge.rig.now)
                      && bridge.rig.now.clock == old(bridge.rig.now.clock) + 2
                      && bridge.rig.now.chip.mem == old(bridge.rig.now.chip.mem)
                      && r.value.0 == (if old(bridge.rig.now.live) == 0 then 0 else old(bridge.rig.now.chip).Status1())
                      && r.value.1 == (if old(bridge.rig.now.live) <= 1 then 0 else old(bridge.rig.now.chip).sr2)
    ensures r.Ok? && old(bridge.rig.now.Idle()) ==> bridge.rig.now.chip == old(bridge.rig.now.chip)
  {
    assert [OP_RDSR1][0] == OP_RDSR1 && [OP_RDSR2][0] == OP_RDSR2;
    var sr1 :- Send(bridge, [OP_RDSR1], 1, f);
    var sr2 :- Send(bridge, [OP_RDSR2], 1, f);
    return Ok((sr1[0], sr2[0]));
  }

  /** `wait_wip_clear`. On a dead bus the first poll already looks clear. */
  method WaitWipClear(bridge: SpiBridge, ghost f: Frame) returns (r: Result<nat>)
    requires bridge.Ready() && Inside(bridge.rig.world, f, bridge.rig.now)
    modifies bridge, bridge.rig
    ensures bridge.Valid() && (r.Ok? ==> bridge.Ready()) && bridge.guard == old(bridge.guard)
    ensures Inside(bridge.rig.world, f, bridge.rig.now)
    ensures r.Err? ==> TransferError(r.error, bridge.rig.world, bridge.guard, old(bridge.rig.now.clock)) || r.error == Fatal(WipStuck)
    ensures r.Ok? ==> Spent(old(bridge.rig.now), bridge.rig.now)
                      && bridge.rig.now.clock == old(bridge.rig.now.clock) + r.value
                      && 1 <= r.value <= old(bridge.rig.now.chip.wip) + 1
                      && bridge.rig.now.chip.wip <= old(bridge.rig.now.chip.wip)
                      && bridge.rig.now.chip.mem == old(bridge.rig.now.chip.mem)
    // All polls answered: the operation is over and the latch has dropped with it.
    ensures r.Ok? && old(bridge.rig.now.live) >= r.value ==>
      r.value == old(bridge.rig.now.chip.wip) + 1
      && bridge.rig.now.chip == old(bridge.rig.now.chip).(wip := 0,
           wel := old(bridge.rig.now.chip.wel) && old(bridge.rig.now.chip.wip) == 0)
    // The deadline is looked at after each busy poll: a wait that outlasts it fails, and no other is called stuck.
    ensures var most := Max(1, bridge.rig.world.patience(old(bridge.rig.now.clock)));
      && (r.Ok? ==> r.value <= most)
      && (r == Err(Fatal(WipStuck)) ==> old(bridge.rig.now.chip.wip) >= most && old(bridge.rig.now.live) >= most)
      && (old(bridge.rig.now.chip.wip) >= most && old(bridge.rig.now.live) >= most ==> r.Err?)
    ensures old(bridge.Steady()) && old(bridge.rig.now.chip.wip) < bridge.rig.world.slowest ==>
      r.Ok? && bridge.Steady()
  {
    var patience := bridge.rig.world.patience(bridge.rig.now.clock);
    var polls := 0;
    ghost var b0 := bridge.rig.now;
    ghost var steady := bridge.Steady();
    while true
      invariant bridge.Ready() && bridge.guard == old(bridge.guard) && Inside(bridge.rig.world, f, bridge.rig.now)
      invariant polls <= b0.chip.wip
      invariant polls > 0 ==> polls < patience && polls <= b0.live
      invariant Spent(b0, bridge.rig.now) && bridge.rig.now.clock == b0.clock + polls
      invariant bridge.rig.now.chip == b0.chip.(wip := b0.chip.wip - polls,
                  wel := b0.chip.wel && (polls == 0 || b0.chip.wip > polls))
      invariant steady ==> bridge.Steady()
      decreases patience - polls
    {
      assert [OP_RDSR1][0] == OP_RDSR1;
      StatusBits(bridge.rig.now.chip);
      var sr1 :- Send(bridge, [OP_RDSR1], 1, f);
      polls := polls + 1;
      if !HasWip(sr1[0]) {
        return Ok(polls);
      }
      if polls >= patience {
        return Err(Fatal(WipStuck));
      }
    }
  }

  /** One READ of n cells at `addr`. */
  method SendRead(bridge: SpiBridge, addr: nat, n: nat, ghost f: Frame) returns (r: Result<seq<byte>>)
    requires bridge.Ready() && Inside(bridge.rig.world, f, bridge.rig.now)
    requires n <= READ_CHUNK
    modifies bridge, bridge.rig
    ensures bridge.Valid() && (r.Ok? ==> bridge.Ready()) && bridge.guard == old(bridge.guard)
    ensures Inside(bridge.rig.world, f, bridge.rig.now)
    ensures r.Err? ==> TransferError(r.error, bridge.rig.world, bridge.guard, old(bridge.rig.now.clock))
    ensures old(bridge.Steady()) ==> r.Ok? && bridge.Steady()
    ensures r.Ok? ==> Spent(old(bridge.rig.now), bridge.rig.now)
                      && bridge.rig.now.clock == old(bridge.rig.now.clock) + 1
                      && bridge.rig.now.chip == old(bridge.rig.now.chip)
    ensures r.Ok? ==> |r.value| == n && ReadBack(old(bridge.rig.now), addr, r.value)
  {
    var command := [OP_READ] + Addr3(addr);
    ghost var b := bridge.rig.now;
    AnswersCells(b.chip, addr, n, bridge.rig.world.noise(b.clock), bridge.rig.world.busy(b.clock));
    r := Send(bridge, command, n, f);
    if r.Ok? {
      ShortReadBack(b, addr, r.value);
    }
  }

  /** An idle chip answers READ with its cells, and no chip changes by it. */
  lemma AnswersCells(c: Chip, addr: nat, n: nat, noise: byte, busy: nat)
    requires c.Valid()
    ensures After(c, [OP_READ] + Addr3(addr), busy) == c
    ensures c.wip == 0 ==> Answer(c, [OP_READ] + Addr3(addr), n, noise) == Cells(c.mem, addr, n)
  {
    var command := [OP_READ] + Addr3(addr);
    assert command == [OP_READ] + Addr3(addr) + [] && command[0] == OP_READ;
    AddrOfAddr3(OP_READ, addr, []);
    if c.wip == 0 && n > 0 {
      var answer := Answer(c, command, n, noise);
      forall i {:trigger answer[i]} | 0 <= i < n
        ensures answer[i] == CellAt(c.mem, addr + i)
      {
        StartsOver(addr, i);
        assert answer[i] == c.mem[(Cell(command) + i) % FLASH_SIZE];
      }
    }
  }

  /** Neither the three address bytes nor the chip's size changes which cell is meant. */
  lemma StartsOver(addr: nat, i: nat)
    ensures (addr % 0x1000000 % FLASH_SIZE + i) % FLASH_SIZE == (addr + i) % FLASH_SIZE
    ensures addr + i < FLASH_SIZE ==> (addr + i) % FLASH_SIZE == addr + i
  {
    Quotient24(addr);
    var q, r := addr / FLASH_SIZE, addr % FLASH_SIZE;
    var q', r' := (r + i) / FLASH_SIZE, (r + i) % FLASH_SIZE;
    assert addr + i == FLASH_SIZE * (q + q') + r';
  }

  lemma Quotient24(addr: nat)
    ensures addr % 0x1000000 % FLASH_SIZE == addr % FLASH_SIZE
  {
  }

  lemma InChip(addr: nat)
    requires addr < FLASH_SIZE
    ensures addr % 0x1000000 % FLASH_SIZE == addr
  {
  }

  lemma ShortReadBack(b: Board, addr: nat, out: seq<byte>)
    requires b.chip.Valid() && |out| <= READ_CHUNK
    requires b.live == 0 ==> forall j :: 0 <= j < |out| ==> out[j] == 0
    requires b.live > 0 && b.Idle() ==> out == Cells(b.chip.mem, addr, |out|)
    ensures ReadBack(b, addr, out)
  {
    forall j | 0 <= j < |out|
      ensures j / READ_CHUNK == 0 && j < |out|
    {
      QuotientIs(j, READ_CHUNK, 0);
    }
  }

  /** `out` was read from `addr` on, from b on: byte j, which comes with transaction
      j / 62, is the cell while the bus lives and zero from then on. */
  ghost predicate ReadBack(b: Board, addr: nat, out: seq<byte>)
    requires b.chip.Valid()
  {
    forall j {:trigger out[j]} :: 0 <= j < |out| ==>
      (j / READ_CHUNK >= b.live ==> out[j] == 0)
      && (j / READ_CHUNK < b.live && b.Idle() ==> out[j] == CellAt(b.chip.mem, addr + j))
  }

  lemma ReadBackAppend(b: Board, b': Board, addr: nat, count: nat, out: seq<byte>, got: seq<byte>)
    requires b.chip.Valid() && b'.chip == b.chip && Spent(b, b') && b'.clock == b.clock + count
    requires |out| == READ_CHUNK * count && |got| <= READ_CHUNK
    requires ReadBack(b, addr, out) && ReadBack(b', addr + |out|, got)
    ensures ReadBack(b, addr, out + got)
  {
    var all := out + got;
    forall j {:trigger all[j]} | |out| <= j < |all|
      ensures j / READ_CHUNK == count && all[j] == got[j - |out|] && (j - |out|) / READ_CHUNK == 0
    {
      QuotientIs(j, READ_CHUNK, count);
    }
  }

  /** `read_region`. A read past the chip's end starts over at its beginning. */
  method ReadRegion(bridge: SpiBridge, offset: nat, length: nat, ghost f: Frame) returns (r: Result<seq<byte>>)
    requires bridge.Ready() && Inside(bridge.rig.world, f, bridge.rig.now)
    modifies bridge, bridge.rig
    ensures bridge.Valid() && (r.Ok? ==> bridge.Ready()) && bridge.guard == old(bridge.guard)
    ensures Inside(bridge.rig.world, f, bridge.rig.now)
    ensures r.Err? ==> TransferError(r.error, bridge.rig.world, bridge.guard, old(bridge.rig.now.clock))
    ensures old(bridge.Steady()) ==> r.Ok? && bridge.Steady()
    ensures r.Ok? ==> Spent(old(bridge.rig.now), bridge.rig.now)
                      && bridge.rig.now.clock == old(bridge.rig.now.clock) + ReadCost(length)
                      && bridge.rig.now.chip == old(bridge.rig.now.chip)
    ensures r.Ok? ==> |r.value| == length && ReadBack(old(bridge.rig.now), offset, r.value)
  {
    ghost var b0 := bridge.rig.now;
    ghost var steady := bridge.Steady();
    ghost var count := 0;
    var out: seq<byte> := [];
    var addr, end := offset, offset + length;
    while addr < end
      invariant offset <= addr <= end && |out| == addr - offset
      invariant bridge.Ready() && bridge.guard == old(bridge.guard) && Inside(bridge.rig.world, f, bridge.rig.now)
      invariant bridge.rig.now.chip == b0.chip && Spent(b0, bridge.rig.now)
      invariant bridge.rig.now.clock == b0.clock + count
      invariant if addr < end then |out| == READ_CHUNK * count else count == ReadCost(length)
      invariant steady ==> bridge.Steady()
      invariant ReadBack(b0, offset, out)
    {
      var n := Min(READ_CHUNK, end - addr);
      ghost var b := bridge.rig.now;
      var got :- SendRead(bridge, addr, n, f);
      ReadBackAppend(b0, b, offset, count, out, got);
      out := out + got;
      addr := addr + n;
      count := count + 1;
      if addr == end {
        QuotientIs(length + READ_CHUNK - 1, READ_CHUNK, count);
      }
    }
    return Ok(out);
  }

  /** ceil(length / 62) */
  function ReadCost(length: nat): nat
  {
    (length + READ_CHUNK - 1) / READ_CHUNK
  }

  lemma QuotientIs(a: nat, d: nat, q: nat)
    requires d == READ_CHUNK && d * q <= a < d * q + d
    ensures a / d == q
  {
  }

  // ----------------------------------------------------------------- erase

  function EraseCommand(e: Erase): seq<byte> { [e.op] + Addr3(e.at) }

  lemma EraseEffect(c: Chip, e: Erase, busy: nat)
    requires c.Valid() && SelfAligned(e) && e.at + e.size <= FLASH_SIZE
    ensures Kept(c.mem, After(c, EraseCommand(e), busy).mem, e.at, e.at + e.size)
    ensures c.wip > 0 || !c.wel || !c.Honours() ==> After(c, EraseCommand(e), busy) == c
    ensures c.wip == 0 && c.wel && c.Honours() ==>
      After(c, EraseCommand(e), busy) == Working(c.(mem := Fill(c.mem, e.at, e.size)), busy)
  {
    var command := EraseCommand(e);
    assert command == [e.op] + Addr3(e.at) + [] && command[0] == e.op;
    AddrOfAddr3(e.op, e.at, []);
    InChip(e.at);
    assert Cell(command) == e.at;
  }

  /** Past the chip's end an erase starts over at its beginning, so a region must end
      inside the chip if nothing else is to change. */
  lemma EraseStartsOver(c: Chip, e: Erase, busy: nat)
    requires c.Valid() && SelfAligned(e) && c.wip == 0 && c.wel && c.Honours()
    ensures After(c, EraseCommand(e), busy).mem == Fill(c.mem, e.at % FLASH_SIZE, e.size)
  {
    var command := EraseCommand(e);
    assert command == [e.op] + Addr3(e.at) + [] && command[0] == e.op;
    AddrOfAddr3(e.op, e.at, []);
    Quotient24(e.at);
    StillAligned(e.at, SECTOR_SIZE);
    StillAligned(e.at, BLOCK_SIZE);
  }

  lemma StillAligned(at: nat, size: nat)
    requires size == SECTOR_SIZE || size == BLOCK_SIZE
    ensures at % size == 0 ==> at % FLASH_SIZE % size == 0
  {
  }

  /** WREN to an idle chip. */
  method SendWren(bridge: SpiBridge, ghost f: Frame) returns (r: Result<()>)
    requires bridge.Ready() && Inside(bridge.rig.world, f, bridge.rig.now)
    requires bridge.rig.now.live > 0 ==> bridge.rig.now.Idle()
    modifies bridge, bridge.rig
    ensures bridge.Valid() && (r.Ok? ==> bridge.Ready()) && bridge.guard == old(bridge.guard)
    ensures Inside(bridge.rig.world, f, bridge.rig.now)
    ensures r.Err? ==> TransferError(r.error, bridge.rig.world, bridge.guard, old(bridge.rig.now.clock))
    ensures r.Ok? ==> Spent(old(bridge.rig.now), bridge.rig.now)
                      && bridge.rig.now.clock == old(bridge.rig.now.clock) + 1
                      && bridge.rig.now.chip == (if old(bridge.rig.now.live) > 0
                                                 then old(bridge.rig.now.chip).(wel := true)
                                                 else old(bridge.rig.now.chip))
    ensures old(bridge.Steady()) ==> r.Ok? && bridge.Steady()
  {
    assert [OP_WREN][0] == OP_WREN;
    var _ :- Send(bridge, [OP_WREN], 0, f);
    return Ok(());
  }

  /** WREN, and the check that it latched: on a dead bus it reads as not latched. */
  method Latch(bridge: SpiBridge, at: nat, ghost f: Frame) returns (r: Result<()>)
    requires bridge.Ready() && Inside(bridge.rig.world, f, bridge.rig.now) && bridge.rig.now.Idle()
    modifies bridge, bridge.rig
    ensures bridge.Valid() && (r.Ok? ==> bridge.Ready()) && bridge.guard == old(bridge.guard)
    ensures Inside(bridge.rig.world, f, bridge.rig.now)
    ensures r.Err? ==> TransferError(r.error, bridge.rig.world, bridge.guard, old(bridge.rig.now.clock)) || r.error == Fatal(WelNotLatched(at))
    ensures r.Ok? ==> Spent(old(bridge.rig.now), bridge.rig.now) && old(bridge.rig.now.live) >= 2
                      && bridge.rig.now.clock == old(bridge.rig.now.clock) + 3
                      && bridge.rig.now.chip == old(bridge.rig.now.chip).(wel := true)
    ensures old(bridge.Steady()) && old(bridge.rig.now.live) >= 2 ==> r.Ok? && bridge.Steady()
  {
    var _ :- SendWren(bridge, f);
    StatusBits(bridge.rig.now.chip);
    var sr :- ReadSr(bridge, f);
    if !HasWel(sr.0) {
      return Err(Fatal(WelNotLatched(at)));
    }
    return Ok(());
  }

  /** The error that says: the flash responds, so the erase truly did nothing. */
  predicate BlamesChip(e: Error)
  {
    e.Fatal? && e.why.EraseNoOp? && e.why.responds
  }

  /** What the program asks of a chip whose erase left bytes behind: does it respond?
      The answer is right about the bus. */
  method Diagnose(bridge: SpiBridge, at: nat, ghost f: Frame) returns (e: Error)
    requires bridge.Ready() && Inside(bridge.rig.world, f, bridge.rig.now) && at + READ_CHUNK <= FLASH_SIZE
    requires bridge.rig.now.live > 0 ==> bridge.rig.now.Idle()
    modifies bridge, bridge.rig
    ensures e.Fatal? && e.why.EraseNoOp? ==> e.why == EraseNoOp(at, old(bridge.rig.now.live) > 0)
    ensures bridge.Valid() && bridge.guard == old(bridge.guard) && Inside(bridge.rig.world, f, bridge.rig.now)
    ensures WriteError(e, bridge.rig.world, bridge.guard, old(bridge.rig.now.clock))
  {
    assert [OP_RDID][0] == OP_RDID;
    var rdid := Send(bridge, [OP_RDID], 3, f);
    if rdid.Err? {
      return rdid.error;
    }
    assert old(bridge.rig.now.live) > 0 ==> rdid.value == RDID_EXPECT;
    assert old(bridge.rig.now.live) == 0 ==> rdid.value[0] == 0;
    var sr := ReadSr(bridge, f);
    if sr.Err? {
      return sr.error;
    }
    var reread := SendRead(bridge, at, READ_CHUNK, f);
    return if reread.Err? then reread.error else Fatal(EraseNoOp(at, rdid.value == RDID_EXPECT));
  }

  /** The spot check of an erase: its first 62 bytes must read 0xFF. */
  method CheckBlank(bridge: SpiBridge, at: nat, ghost f: Frame) returns (r: Result<()>)
    requires bridge.Ready() && Inside(bridge.rig.world, f, bridge.rig.now) && at + READ_CHUNK <= FLASH_SIZE
    requires bridge.rig.now.live > 0 ==> bridge.rig.now.Idle()
    modifies bridge, bridge.rig
    ensures bridge.Valid() && (r.Ok? ==> bridge.Ready()) && bridge.guard == old(bridge.guard)
    ensures Inside(bridge.rig.world, f, bridge.rig.now)
    ensures r.Err? ==> WriteError(r.error, bridge.rig.world, bridge.guard, old(bridge.rig.now.clock))
    ensures r.Ok? ==> Spent(old(bridge.rig.now), bridge.rig.now) && old(bridge.rig.now.live) > 0
                      && bridge.rig.now.clock == old(bridge.rig.now.clock) + 1
                      && bridge.rig.now.chip == old(bridge.rig.now.chip)
    ensures (old(bridge.Steady()) && old(bridge.rig.now.live) > 0 && old(bridge.rig.now.Idle())
             && Blank(old(bridge.rig.now.chip.mem), at, at + READ_CHUNK)) ==> r.Ok? && bridge.Steady()
    // The chip is blamed only when the bus is alive and the cells are not blank.
    ensures r.Err? && BlamesChip(r.error) ==>
      old(bridge.rig.now.live) >= 2 && !Blank(old(bridge.rig.now.chip.mem), at, at + READ_CHUNK)
  {
    ghost var b := bridge.rig.now;
    var head :- SendRead(bridge, at, READ_CHUNK, f);
    var blank: seq<byte> := seq(READ_CHUNK, _ => ERASED);
    if b.live > 0 && b.Idle() && Blank(b.chip.mem, at, at + READ_CHUNK) {
      BlankReadsBlank(b, at, head);
      assert head == blank;
    }
    if head != blank {
      var error := Diagnose(bridge, at, f);
      return Err(error);
    }
    assert head[0] == ERASED;
    QuotientIs(0, READ_CHUNK, 0);
    return Ok(());
  }

  /** The erase command, its wait, and a look at the first bytes. */
  method EraseAndCheck(bridge: SpiBridge, e: Erase, ghost f: Frame) returns (r: Result<()>)
    requires bridge.Ready() && Inside(bridge.rig.world, f, bridge.rig.now)
    requires SelfAligned(e) && e.at + e.size <= FLASH_SIZE
    requires (f.lo <= e.at && e.at + e.size <= f.hi) || !bridge.rig.now.chip.Honours()
    requires bridge.rig.now.Idle() && bridge.rig.now.chip.wel
    modifies bridge, bridge.rig
    ensures bridge.Valid() && (r.Ok? ==> bridge.Ready()) && bridge.guard == old(bridge.guard)
    ensures Inside(bridge.rig.world, f, bridge.rig.now)
    ensures r.Err? ==> WriteError(r.error, bridge.rig.world, bridge.guard, old(bridge.rig.now.clock))
    ensures r.Ok? ==> Spent(old(bridge.rig.now), bridge.rig.now) && bridge.rig.now.Idle()
                      && 3 <= bridge.rig.now.clock - old(bridge.rig.now.clock) <= old(bridge.rig.now.live)
    ensures r.Ok? && old(bridge.rig.now.chip.Honours()) ==>
      bridge.rig.now.chip.mem == Fill(old(bridge.rig.now.chip.mem), e.at, e.size)
      && bridge.rig.now.clock == old(bridge.rig.now.clock) + 3 + bridge.rig.world.busy(old(bridge.rig.now.clock))
    ensures (old(bridge.Steady()) && old(bridge.rig.now.chip.Honours())
             && old(bridge.rig.now.live) >= 2 + bridge.rig.world.slowest) ==> r.Ok? && bridge.Steady()
    // A chip that ignores the erase passes, at the cost of one poll, if its first cells are blank.
    ensures r.Ok? && !old(bridge.rig.now.chip.Honours()) ==>
      bridge.rig.now.chip.mem == old(bridge.rig.now.chip.mem)
      && bridge.rig.now.clock == old(bridge.rig.now.clock) + 3
    ensures (old(bridge.Steady()) && !old(bridge.rig.now.chip.Honours()) && old(bridge.rig.now.live) >= 3
             && Blank(old(bridge.rig.now.chip.mem), e.at, e.at + READ_CHUNK)) ==> r.Ok? && bridge.Steady()
    ensures r.Err? && old(bridge.rig.now.chip.Honours()) ==> !BlamesChip(r.error)
  {
    ghost var b0, w := bridge.rig.now, bridge.rig.world;
    EraseEffect(b0.chip, e, w.busy(b0.clock));
    if b0.chip.Honours() {
      KeptWiden(b0.chip.mem, After(b0.chip, EraseCommand(e), w.busy(b0.clock)).mem, e.at, e.at + e.size, f.lo, f.hi);
    }
    var _ :- Send(bridge, EraseCommand(e), 0, f);
    var polls :- WaitWipClear(bridge, f);
    r := CheckBlank(bridge, e.at, f);
  }

  lemma BlankReadsBlank(b: Board, addr: nat, out: seq<byte>)
    requires b.chip.Valid() && |out| == READ_CHUNK && addr + READ_CHUNK <= FLASH_SIZE
    requires ReadBack(b, addr, out) && b.live > 0 && b.Idle() && Blank(b.chip.mem, addr, addr + READ_CHUNK)
    ensures forall j :: 0 <= j < READ_CHUNK ==> out[j] == ERASED
  {
    forall j | 0 <= j < READ_CHUNK
      ensures out[j] == ERASED
    {
      QuotientIs(j, READ_CHUNK, 0);
      assert out[j] == b.chip.mem[addr + j];
    }
  }

  /** One pass of the erase loop: when it succeeds the bus has answered all of it. */
  method EraseEntry(bridge: SpiBridge, e: Erase, ghost f: Frame) returns (r: Result<()>)
    requires bridge.Ready() && Inside(bridge.rig.world, f, bridge.rig.now)
    requires SelfAligned(e) && e.at + e.size <= FLASH_SIZE
    requires (f.lo <= e.at && e.at + e.size <= f.hi) || !bridge.rig.now.chip.Honours()
    requires bridge.rig.now.Idle()
    modifies bridge, bridge.rig
    ensures bridge.Valid() && (r.Ok? ==> bridge.Ready()) && bridge.guard == old(bridge.guard)
    ensures Inside(bridge.rig.world, f, bridge.rig.now)
    ensures r.Err? ==> WriteError(r.error, bridge.rig.world, bridge.guard, old(bridge.rig.now.clock))
    ensures r.Ok? ==> Spent(old(bridge.rig.now), bridge.rig.now) && bridge.rig.now.Idle()
                      && 3 <= bridge.rig.now.clock - old(bridge.rig.now.clock) <= old(bridge.rig.now.live)
    ensures r.Ok? && old(bridge.rig.now.chip.Honours()) ==>
      bridge.rig.now.chip.mem == Fill(old(bridge.rig.now.chip.mem), e.at, e.size)
      && bridge.rig.now.clock == old(bridge.rig.now.clock) + 6 + bridge.rig.world.busy(old(bridge.rig.now.clock) + 3)
    ensures (old(bridge.Steady()) && old(bridge.rig.now.chip.Honours())
             && old(bridge.rig.now.live) >= 5 + bridge.rig.world.slowest) ==> r.Ok? && bridge.Steady()
    ensures r.Ok? && !old(bridge.rig.now.chip.Honours()) ==>
      bridge.rig.now.chip.mem == old(bridge.rig.now.chip.mem)
      && bridge.rig.now.clock == old(bridge.rig.now.clock) + 6
    ensures (old(bridge.Steady()) && !old(bridge.rig.now.chip.Honours()) && old(bridge.rig.now.live) >= 6
             && Blank(old(bridge.rig.now.chip.mem), e.at, e.at + READ_CHUNK)) ==> r.Ok? && bridge.Steady()
    ensures r.Err? && old(bridge.rig.now.chip.Honours()) ==> !BlamesChip(r.error)
  {
    var _ :- Latch(bridge, e.at, f);
    r := EraseAndCheck(bridge, e, f);
  }

  ghost predicate WriteError(e: Error, w: World, guard: Option<int>, t: nat)
  {
    TransferError(e, w, guard, t) || (e.Fatal? && e.why != TooLong && e.why != VerifyLength)
  }

  lemma KeptWiden(m0: seq<byte>, m1: seq<byte>, lo: int, hi: int, lo': int, hi': int)
    requires Kept(m0, m1, lo, hi) && lo' <= lo && hi <= hi'
    ensures Kept(m0, m1, lo', hi')
  {
  }

  // ------------------------------------------------- whole-region phases

  function Times(k: nat, each: nat): nat
  {
    if k == 0 then 0 else Times(k - 1, each) + each
  }

  lemma {:induction false} TimesIsProduct(k: nat, each: nat)
    ensures Times(k, each) == k * each
  {
    if k > 0 {
      TimesIsProduct(k - 1, each);
    }
  }

  lemma {:induction false} TimesMonotone(j: nat, k: nat, each: nat)
    requires j <= k
    ensures Times(j, each) <= Times(k, each)
  {
    if j < k {
      TimesMonotone(j, k - 1, each);
    }
  }

  /** The most that one pass of the erase loop costs; an ignored erase is over at once. */
  function PassCost(c: Chip, w: World): nat
  {
    if c.Honours() then 5 + w.slowest else 6
  }

  /** What the erase loop keeps: k entries are behind it, and the bus answered all of them. */
  ghost predicate EraseLoop(bridge: SpiBridge, b0: Board, calm: bool, plan: seq<Erase>, lo: nat, hi: nat, k: nat)
    reads bridge, bridge.rig
    requires k <= |plan|
  {
    var w, b := bridge.rig.world, bridge.rig.now;
    && bridge.Ready() && Spent(b0, b) && b.Idle() && b.clock - b0.clock <= b0.live && (k > 0 ==> b0.live > 0)
    && b.chip.Honours() == b0.chip.Honours()
    && (b0.chip.Honours() ==> b.chip.mem == EraseAll(b0.chip.mem, plan, k))
    && (b0.chip.Honours() && Uniform(w, b0) ==> b.clock == b0.clock + Times(k, 5 + w.slowest))
    && (!b0.chip.Honours() ==> b.chip.mem == b0.chip.mem && b.clock == b0.clock + Times(k, 6))
    && (calm ==> bridge.Steady() && (b0.chip.Honours() || Blank(b0.chip.mem, lo, hi))
                 && b0.live >= Times(|plan|, PassCost(b0.chip, w))
                 && b.clock <= b0.clock + Times(k, PassCost(b0.chip, w)))
  }

  /** One turn of the erase loop. */
  method EraseNext(bridge: SpiBridge, plan: seq<Erase>, k: nat, ghost b0: Board, ghost calm: bool,
                   ghost lo: nat, ghost hi: nat, ghost f: Frame)
    returns (r: Result<()>)
    requires k < |plan| && EraseLoop(bridge, b0, calm, plan, lo, hi, k) && Inside(bridge.rig.world, f, bridge.rig.now)
    requires hi <= FLASH_SIZE && Tiles(plan, lo, hi) && ((f.lo <= lo && hi <= f.hi) || !b0.chip.Honours())
    modifies bridge, bridge.rig
    ensures bridge.Valid() && bridge.guard == old(bridge.guard) && Inside(bridge.rig.world, f, bridge.rig.now)
    ensures r.Err? ==> WriteError(r.error, bridge.rig.world, bridge.guard, old(bridge.rig.now.clock)) && !calm
    ensures r.Err? && b0.chip.Honours() ==> !BlamesChip(r.error)
    ensures r.Ok? ==> EraseLoop(bridge, b0, calm, plan, lo, hi, k + 1)
  {
    TileBounds(plan, lo, hi, k);
    TileBounds(plan, lo, hi, k + 1);
    TimesMonotone(k + 1, |plan|, PassCost(b0.chip, bridge.rig.world));
    assert plan[k].at == EraseStart(plan, lo, k);
    r := EraseEntry(bridge, plan[k], f);
  }

  /** The erase loop. If it ends, the bus lived through all of it. */
  method ErasePhase(bridge: SpiBridge, plan: seq<Erase>, ghost lo: nat, ghost hi: nat, ghost f: Frame)
    returns (r: Result<()>)
    requires bridge.Ready() && Inside(bridge.rig.world, f, bridge.rig.now)
    requires hi <= FLASH_SIZE && Tiles(plan, lo, hi)
    requires (f.lo <= lo && hi <= f.hi) || !bridge.rig.now.chip.Honours()
    requires bridge.rig.now.Idle()
    modifies bridge, bridge.rig
    ensures bridge.Valid() && (r.Ok? ==> bridge.Ready()) && bridge.guard == old(bridge.guard)
    ensures Inside(bridge.rig.world, f, bridge.rig.now)
    ensures r.Err? ==> WriteError(r.error, bridge.rig.world, bridge.guard, old(bridge.rig.now.clock))
    ensures r.Ok? ==> Spent(old(bridge.rig.now), bridge.rig.now) && bridge.rig.now.Idle()
                      && bridge.rig.now.clock - old(bridge.rig.now.clock) <= old(bridge.rig.now.live)
                      && (plan != [] ==> old(bridge.rig.now.live) > 0)
    ensures r.Ok? && old(bridge.rig.now.chip.Honours()) ==>
      bridge.rig.now.chip.mem == EraseAll(old(bridge.rig.now.chip.mem), plan, |plan|)
    ensures r.Ok? && old(bridge.rig.now.chip.Honours()) && Uniform(bridge.rig.world, old(bridge.rig.now)) ==>
      bridge.rig.now.clock == old(bridge.rig.now.clock) + Times(|plan|, 5 + bridge.rig.world.slowest)
    ensures r.Ok? && !old(bridge.rig.now.chip.Honours()) ==>
      bridge.rig.now.chip.mem == old(bridge.rig.now.chip.mem)
      && bridge.rig.now.clock == old(bridge.rig.now.clock) + Times(|plan|, 6)
    ensures (old(bridge.Steady()) && (old(bridge.rig.now.chip.Honours()) || Blank(old(bridge.rig.now.chip.mem), lo, hi))
             && old(bridge.rig.now.live) >= Times(|plan|, PassCost(old(bridge.rig.now.chip), bridge.rig.world))) ==>
      r.Ok? && bridge.Steady()
      && bridge.rig.now.clock <= old(bridge.rig.now.clock)
                                 + Times(|plan|, PassCost(old(bridge.rig.now.chip), bridge.rig.world))
    ensures r.Err? && old(bridge.rig.now.chip.Honours()) ==> !BlamesChip(r.error)
  {
    ghost var b0 := bridge.rig.now;
    ghost var calm := bridge.Steady() && (b0.chip.Honours() || Blank(b0.chip.mem, lo, hi))
                      && b0.live >= Times(|plan|, PassCost(b0.chip, bridge.rig.world));
    for k := 0 to |plan|
      invariant bridge.guard == old(bridge.guard) && Inside(bridge.rig.world, f, bridge.rig.now)
      invariant EraseLoop(bridge, b0, calm, plan, lo, hi, k)
    {
      r := EraseNext(bridge, plan, k, b0, calm, lo, hi, f);
      if r.Err? {
        return;
      }
    }
    return Ok(());
  }

  // --------------------------------------------------------------- program

  function ProgramCommand(c: Chunk): seq<byte> { [OP_PAGE_PROGRAM] + Addr3(c.at) + c.data }

  lemma ProgramEffect(c: Chip, k: Chunk, busy: nat)
    requires c.Valid() && k.at < FLASH_SIZE && k.at % PAGE_SIZE + |k.data| <= PAGE_SIZE
    ensures Kept(c.mem, After(c, ProgramCommand(k), busy).mem, k.at, k.at + |k.data|)
    ensures c.wip > 0 || !c.wel || !c.Honours() ==> After(c, ProgramCommand(k), busy) == c
    ensures c.wip == 0 && c.wel && c.Honours() ==>
      After(c, ProgramCommand(k), busy) == Working(c.(mem := ProgramAt(c.mem, k.at, k.data)), busy)
  {
    var command := ProgramCommand(k);
    assert command[0] == OP_PAGE_PROGRAM && command[4..] == k.data;
    AddrOfAddr3(OP_PAGE_PROGRAM, k.at, k.data);
    InChip(k.at);
    assert Cell(command) == k.at;
    BurnWithoutWrap(c.mem, k.at - k.at % PAGE_SIZE, k.at % PAGE_SIZE, k.data);
  }

  /** The page program on its own. */
  method SendPage(bridge: SpiBridge, c: Chunk, ghost f: Frame) returns (r: Result<()>)
    requires bridge.Ready() && Inside(bridge.rig.world, f, bridge.rig.now)
    requires c.at + |c.data| <= FLASH_SIZE
    requires (f.lo <= c.at && c.at + |c.data| <= f.hi) || !bridge.rig.now.chip.Honours()
    requires 1 <= |c.data| <= PROGRAM_CHUNK && c.at % PAGE_SIZE + |c.data| <= PAGE_SIZE
    modifies bridge, bridge.rig
    ensures bridge.Valid() && (r.Ok? ==> bridge.Ready()) && bridge.guard == old(bridge.guard)
    ensures Inside(bridge.rig.world, f, bridge.rig.now)
    ensures r.Err? ==> TransferError(r.error, bridge.rig.world, bridge.guard, old(bridge.rig.now.clock))
    ensures r.Ok? ==> bridge.rig.now == Delivered(bridge.rig.world, old(bridge.rig.now), ProgramCommand(c))
    ensures old(bridge.Steady()) ==> r.Ok? && bridge.Steady()
  {
    ghost var b, w := bridge.rig.now, bridge.rig.world;
    ProgramEffect(b.chip, c, w.busy(b.clock));
    if b.chip.Honours() {
      KeptWiden(b.chip.mem, After(b.chip, ProgramCommand(c), w.busy(b.clock)).mem, c.at, c.at + |c.data|, f.lo, f.hi);
    }
    var _ :- Send(bridge, ProgramCommand(c), 0, f);
    return Ok(());
  }

  /** What WREN and the page program together do to the board. */
  lemma ProgramSent(w: World, b0: Board, b1: Board, c: Chunk)
    requires b0.Valid() && b1.Valid() && Spent(b0, b1) && b1.clock == b0.clock + 1 && (b0.live > 0 ==> b0.Idle())
    requires b1.chip == if b0.live > 0 then b0.chip.(wel := true) else b0.chip
    requires c.at < FLASH_SIZE && c.at % PAGE_SIZE + |c.data| <= PAGE_SIZE
    ensures var b2 := Delivered(w, b1, ProgramCommand(c));
      && Spent(b0, b2) && b2.clock == b0.clock + 2
      && (b0.chip.Honours() && b0.live >= 2 ==>
            b2.chip == Working(b0.chip.(mem := ProgramAt(b0.chip.mem, c.at, c.data)), w.busy(b0.clock + 1)))
      && (!b0.chip.Honours() || b0.live < 2 ==> b2.chip.mem == b0.chip.mem && b2.chip.wip == b0.chip.wip)
  {
    ProgramEffect(b1.chip, c, w.busy(b1.clock));
  }

  /** WREN and the page program: the cells change if the bus answers both. */
  method SendProgram(bridge: SpiBridge, c: Chunk, ghost f: Frame) returns (r: Result<()>)
    requires bridge.Ready() && Inside(bridge.rig.world, f, bridge.rig.now)
    requires c.at + |c.data| <= FLASH_SIZE
    requires (f.lo <= c.at && c.at + |c.data| <= f.hi) || !bridge.rig.now.chip.Honours()
    requires 1 <= |c.data| <= PROGRAM_CHUNK && c.at % PAGE_SIZE + |c.data| <= PAGE_SIZE
    requires bridge.rig.now.live > 0 ==> bridge.rig.now.Idle()
    modifies bridge, bridge.rig
    ensures bridge.Valid() && (r.Ok? ==> bridge.Ready()) && bridge.guard == old(bridge.guard)
    ensures Inside(bridge.rig.world, f, bridge.rig.now)
    ensures r.Err? ==> TransferError(r.error, bridge.rig.world, bridge.guard, old(bridge.rig.now.clock))
    ensures r.Ok? ==> Spent(old(bridge.rig.now), bridge.rig.now)
                      && bridge.rig.now.clock == old(bridge.rig.now.clock) + 2
    ensures r.Ok? && old(bridge.rig.now.chip.Honours()) ==>
      if old(bridge.rig.now.live) >= 2
      then bridge.rig.now.chip
           == Working(old(bridge.rig.now.chip).(mem := ProgramAt(old(bridge.rig.now.chip.mem), c.at, c.data)),
                      bridge.rig.world.busy(old(bridge.rig.now.clock) + 1))
      else bridge.rig.now.chip.mem == old(bridge.rig.now.chip.mem)
    ensures r.Ok? ==> bridge.rig.now.chip.wip <= old(bridge.rig.now.chip.wip)
                      || bridge.rig.now.chip.wip == bridge.rig.world.busy(old(bridge.rig.now.clock) + 1)
    ensures r.Ok? && !old(bridge.rig.now.chip.Honours()) ==>
      bridge.rig.now.chip.mem == old(bridge.rig.now.chip.mem)
      && bridge.rig.now.chip.wip == old(bridge.rig.now.chip.wip)
    ensures old(bridge.Steady()) ==> r.Ok? && bridge.Steady()
  {
    ghost var b0, w := bridge.rig.now, bridge.rig.world;
    var _ :- SendWren(bridge, f);
    ghost var b1 := bridge.rig.now;
    var _ :- SendPage(bridge, c, f);
    ProgramSent(w, b0, b1, c);
    return Ok(());
  }

  /** One pass of the program loop. Nothing in it looks at the latch or the cells,
      so it succeeds on a dead bus too; what it stores depends on the budget. */
  method ProgramEntry(bridge: SpiBridge, c: Chunk, ghost f: Frame) returns (r: Result<()>)
    requires bridge.Ready() && Inside(bridge.rig.world, f, bridge.rig.now)
    requires c.at + |c.data| <= FLASH_SIZE
    requires (f.lo <= c.at && c.at + |c.data| <= f.hi) || !bridge.rig.now.chip.Honours()
    requires 1 <= |c.data| <= PROGRAM_CHUNK && c.at % PAGE_SIZE + |c.data| <= PAGE_SIZE
    requires bridge.rig.now.live > 0 ==> bridge.rig.now.Idle()
    modifies bridge, bridge.rig
    ensures bridge.Valid() && (r.Ok? ==> bridge.Ready()) && bridge.guard == old(bridge.guard)
    ensures Inside(bridge.rig.world, f, bridge.rig.now)
    ensures r.Err? ==> WriteError(r.error, bridge.rig.world, bridge.guard, old(bridge.rig.now.clock))
    ensures r.Ok? ==> Spent(old(bridge.rig.now), bridge.rig.now)
                      && (bridge.rig.now.live > 0 ==> bridge.rig.now.Idle())
    ensures r.Ok? && old(bridge.rig.now.chip.Honours()) ==>
      bridge.rig.now.chip.mem == (if old(bridge.rig.now.live) >= 2
                                  then ProgramAt(old(bridge.rig.now.chip.mem), c.at, c.data)
                                  else old(bridge.rig.now.chip.mem))
    ensures r.Ok? && old(bridge.rig.now.chip.Honours()) && bridge.rig.now.live > 0 ==>
      bridge.rig.now.clock == old(bridge.rig.now.clock) + 3 + bridge.rig.world.busy(old(bridge.rig.now.clock) + 1)
    ensures r.Ok? && old(bridge.rig.now.live) > 0 ==>
      bridge.rig.now.clock <= old(bridge.rig.now.clock) + 3 + bridge.rig.world.busy(old(bridge.rig.now.clock) + 1)
    ensures r.Ok? && !old(bridge.rig.now.chip.Honours()) && old(bridge.rig.now.Idle()) ==>
      bridge.rig.now.Idle() && bridge.rig.now.chip.mem == old(bridge.rig.now.chip.mem)
      && bridge.rig.now.clock == old(bridge.rig.now.clock) + 3
    ensures old(bridge.Steady()) && old(bridge.rig.now.chip.wip) < bridge.rig.world.slowest ==>
      r.Ok? && bridge.Steady() && bridge.rig.now.chip.wip < bridge.rig.world.slowest
      && bridge.rig.now.clock <= old(bridge.rig.now.clock) + 2 + bridge.rig.world.slowest
  {
    var _ :- SendProgram(bridge, c, f);
    var polls :- WaitWipClear(bridge, f);
    return Ok(());
  }

  /** After k passes of the program loop, `done` chunks are stored: all k while the
      bus lives. In a uniform world the budget b0.live decides: the last chunk is
      stored when all but its p polls were paid for. */
  ghost predicate Programmed(w: World, b0: Board, b: Board, chunks: seq<Chunk>, k: nat, done: nat)
  {
    && done <= k <= |chunks|
    && b0.chip.Valid() && (forall i :: 0 <= i < |chunks| ==> chunks[i].at < FLASH_SIZE)
    && b.chip.mem == ProgramAll(b0.chip.mem, chunks, done)
    && (b.live > 0 ==> done == k)
    && (Uniform(w, b0) ==>
          && (b.live > 0 ==> b.clock == b0.clock + Times(k, 2 + w.slowest))
          && (b.live == 0 ==> b0.live <= Times(k, 2 + w.slowest))
          && (k > 0 ==> (done == k <==> b0.live + w.slowest >= Times(k, 2 + w.slowest))))
  }

  lemma ProgrammedStep(w: World, b0: Board, b: Board, b': Board, chunks: seq<Chunk>, k: nat, done: nat)
    requires Programmed(w, b0, b, chunks, k, done) && k < |chunks|
    requires Spent(b0, b) && Spent(b, b')
    requires b'.chip.mem == if b.live >= 2 then ProgramAt(b.chip.mem, chunks[k].at, chunks[k].data) else b.chip.mem
    requires b'.live > 0 ==> b'.clock == b.clock + 3 + w.busy(b.clock + 1)
    requires b.live > 0 ==> b'.clock <= b.clock + 3 + w.busy(b.clock + 1)
    ensures Programmed(w, b0, b', chunks, k + 1, if b.live >= 2 then done + 1 else done)
  {
  }

  lemma ChunkFits(chunks: seq<Chunk>, lo: nat, data: seq<byte>, k: nat)
    requires Covers(chunks, lo, data) && k < |chunks|
    ensures lo <= chunks[k].at && chunks[k].at + |chunks[k].data| <= lo + |data|
    ensures 1 <= |chunks[k].data| <= PROGRAM_CHUNK && chunks[k].at % PAGE_SIZE + |chunks[k].data| <= PAGE_SIZE
  {
    assert InData(chunks[k], lo, data) && InPage(chunks[k], lo + |data|);
  }

  /** What the program loop keeps: k chunks are behind it. */
  ghost predicate ProgramLoop(bridge: SpiBridge, b0: Board, steady: bool, chunks: seq<Chunk>, k: nat, done: nat)
    reads bridge, bridge.rig
  {
    var w, b := bridge.rig.world, bridge.rig.now;
    && bridge.Ready() && Spent(b0, b) && (b.live > 0 ==> b.Idle())
    && b.chip.Honours() == b0.chip.Honours() && (b0.chip.Honours() ==> Programmed(w, b0, b, chunks, k, done))
    && (!b0.chip.Honours() ==> b.Idle() && b.chip.mem == b0.chip.mem && b.clock == b0.clock + Times(k, 3))
    && (steady ==> bridge.Steady() && b.chip.wip < w.slowest && b.clock <= b0.clock + Times(k, 2 + w.slowest))
  }

  /** One turn of the program loop. */
  method ProgramNext(bridge: SpiBridge, chunks: seq<Chunk>, data: seq<byte>, k: nat, ghost b0: Board,
                     ghost steady: bool, ghost done: nat, ghost lo: nat, ghost f: Frame)
    returns (r: Result<()>, ghost done': nat)
    requires ProgramLoop(bridge, b0, steady, chunks, k, done) && Inside(bridge.rig.world, f, bridge.rig.now)
    requires lo + |data| <= FLASH_SIZE && Covers(chunks, lo, data) && k < |chunks|
    requires (f.lo <= lo && lo + |data| <= f.hi) || !b0.chip.Honours()
    modifies bridge, bridge.rig
    ensures bridge.Valid() && bridge.guard == old(bridge.guard)
    ensures Inside(bridge.rig.world, f, bridge.rig.now)
    ensures r.Err? ==> WriteError(r.error, bridge.rig.world, bridge.guard, old(bridge.rig.now.clock)) && !steady
    ensures r.Ok? ==> ProgramLoop(bridge, b0, steady, chunks, k + 1, done')
  {
    ghost var b, w := bridge.rig.now, bridge.rig.world;
    done' := done;
    ChunkFits(chunks, lo, data, k);
    r := ProgramEntry(bridge, chunks[k], f);
    if r.Ok? && b0.chip.Honours() {
      ProgrammedStep(w, b0, b, bridge.rig.now, chunks, k, done);
      done' := if b.live >= 2 then done + 1 else done;
    }
  }

  /** The program loop. `done` chunks were stored; all of them if the bus outlived it. */
  method ProgramPhase(bridge: SpiBridge, chunks: seq<Chunk>, data: seq<byte>, ghost lo: nat, ghost f: Frame)
    returns (r: Result<()>, ghost done: nat)
    requires bridge.Ready() && Inside(bridge.rig.world, f, bridge.rig.now)
    requires lo + |data| <= FLASH_SIZE && Covers(chunks, lo, data)
    requires (f.lo <= lo && lo + |data| <= f.hi) || !bridge.rig.now.chip.Honours()
    requires forall i :: 0 <= i < |chunks| ==> chunks[i].at < FLASH_SIZE
    requires bridge.rig.now.Idle()
    modifies bridge, bridge.rig
    ensures bridge.Valid() && (r.Ok? ==> bridge.Ready()) && bridge.guard == old(bridge.guard)
    ensures Inside(bridge.rig.world, f, bridge.rig.now)
    ensures r.Err? ==> WriteError(r.error, bridge.rig.world, bridge.guard, old(bridge.rig.now.clock))
    ensures r.Ok? ==> Spent(old(bridge.rig.now), bridge.rig.now)
                      && (bridge.rig.now.live > 0 ==> bridge.rig.now.Idle())
    ensures r.Ok? && old(bridge.rig.now.chip.Honours()) ==>
      Programmed(bridge.rig.world, old(bridge.rig.now), bridge.rig.now, chunks, |chunks|, done)
    ensures r.Ok? && !old(bridge.rig.now.chip.Honours()) ==>
      bridge.rig.now.Idle() && bridge.rig.now.chip.mem == old(bridge.rig.now.chip.mem)
      && bridge.rig.now.clock == old(bridge.rig.now.clock) + Times(|chunks|, 3)
    ensures old(bridge.Steady()) ==>
      r.Ok? && bridge.Steady()
      && bridge.rig.now.clock <= old(bridge.rig.now.clock) + Times(|chunks|, 2 + bridge.rig.world.slowest)
  {
    ghost var b0, steady := bridge.rig.now, bridge.Steady();
    done := 0;
    for k := 0 to |chunks|
      invariant bridge.guard == old(bridge.guard) && Inside(bridge.rig.world, f, bridge.rig.now)
      invariant ProgramLoop(bridge, b0, steady, chunks, k, done)
    {
      r, done := ProgramNext(bridge, chunks, data, k, b0, steady, done, lo, f);
      if r.Err? {
        return;
      }
    }
    return Ok(()), done;
  }
}
