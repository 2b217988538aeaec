/** `write_region`: erase, program, verify, and what its success means. */
module Writing {
  import opened Results
  import opened Bytes
  import opened Nor
  import opened Bench
  import opened Bridge
  import opened Planning
  import opened Region

  // ------------------------------------------------------- budget formulas

  /** The data's length without its trailing zeros. */
  function NonzeroLength(data: seq<byte>): (n: nat)
    ensures n <= |data|
    ensures n > 0 ==> data[n - 1] != 0
    ensures forall j :: n <= j < |data| ==> data[j] == 0
  {
    if data == [] then 0
    else if data[|data| - 1] != 0 then |data|
    else NonzeroLength(data[..|data| - 1])
  }

  /** Transactions of the status check and the erase loop, for n sectors and p polls a wait. */
  function EraseCost(n: nat, p: nat): nat { 2 + n * (5 + p) }

  /** ... of the program loop, with 80 chunks a sector. */
  function LoopCost(n: nat, p: nat): nat { 80 * n * (2 + p) }

  function ProgramCost(n: nat, p: nat): nat { EraseCost(n, p) + LoopCost(n, p) }

  function Sectors(data: seq<byte>): nat { |data| / SECTOR_SIZE }

  /** ... and of the read-back: 2 + n(5 + p) + 80n(2 + p) + ceil(4096n / 62). */
  function WriteCost(data: seq<byte>, p: nat): nat { ProgramCost(Sectors(data), p) + ReadCost(|data|) }

  /** write_region returns: the session lived until its last nonzero byte was read
      back, or, if all bytes are zero, to the end of the erase loop. */
  predicate Returns(live: nat, data: seq<byte>, p: nat)
  {
    live >= if NonzeroLength(data) == 0 then EraseCost(Sectors(data), p)
            else ProgramCost(Sectors(data), p) + ReadCost(NonzeroLength(data))
  }

  /** The data is in the cells: the session lived to the last page program, which
      leaves only its p polls. */
  predicate Stored(live: nat, data: seq<byte>, p: nat)
  {
    live + p >= ProgramCost(Sectors(data), p)
  }

  /** Success implies storage, whatever the session's budget, exactly when the
      data has a nonzero byte. */
  lemma VerifySoundIff(data: seq<byte>, p: nat)
    requires Aligned(|data|) && data != []
    ensures (forall live: nat :: Returns(live, data, p) ==> Stored(live, data, p))
            <==> (exists i :: 0 <= i < |data| && data[i] != 0)
  {
    var n := Sectors(data);
    assert n >= 1;
    if NonzeroLength(data) == 0 {
      assert Returns(EraseCost(n, p), data, p);
      ProductBound(n, p);
      assert !Stored(EraseCost(n, p), data, p);
    } else {
      assert data[NonzeroLength(data) - 1] != 0;
    }
  }

  lemma ProductBound(n: nat, p: nat)
    requires n >= 1
    ensures LoopCost(n, p) >= 160 + 80 * p
  {
    assert n * (2 + p) >= 2 + p by {
      assert (n - 1) * (2 + p) >= 0;
    }
    assert 80 * n * (2 + p) == 80 * (n * (2 + p));
  }

  // ------------------------------------------------------------ read-back

  /** The reported address: on a bus that outlives the read, the first cell that
      differs from the source. */
  ghost predicate FirstMismatch(b: Board, offset: nat, data: seq<byte>, at: nat)
    requires b.chip.Valid() && offset + |data| <= FLASH_SIZE
  {
    && offset <= at < offset + |data|
    && (b.Idle() && b.live >= ReadCost(|data|) ==>
          b.chip.mem[at] != data[at - offset] && Holds(b.chip.mem, offset, data[..at - offset]))
  }

  lemma MismatchFound(b: Board, offset: nat, data: seq<byte>, readback: seq<byte>, i: nat)
    requires b.chip.Valid() && offset + |data| <= FLASH_SIZE && |readback| == |data| && i < |data|
    requires ReadBack(b, offset, readback) && readback[i] != data[i]
    requires forall j :: 0 <= j < i ==> readback[j] == data[j]
    ensures FirstMismatch(b, offset, data, offset + i)
  {
    if b.Idle() && b.live >= ReadCost(|data|) {
      forall j | 0 <= j <= i
        ensures readback[j] == b.chip.mem[offset + j]
      {
        ByteInCost(j, |data|);
      }
      forall x {:trigger b.chip.mem[x]} | offset <= x < offset + i
        ensures b.chip.mem[x] == data[..i][x - offset]
      {
        assert readback[x - offset] == b.chip.mem[offset + (x - offset)];
      }
    }
  }

  lemma ByteInCost(j: nat, n: nat)
    requires j < n
    ensures j / READ_CHUNK < ReadCost(n)
  {
    var q := j / READ_CHUNK;
    assert n + READ_CHUNK - 1 >= READ_CHUNK * (q + 1);
  }

  /** The read-back: success means every byte that the live bus returned agrees
      with the source, and every byte a dead bus returned had to be zero. */
  method Verify(bridge: SpiBridge, offset: nat, data: seq<byte>, ghost f: Frame) returns (r: Result<()>)
    requires bridge.Ready() && Inside(bridge.rig.world, f, bridge.rig.now)
    requires offset + |data| <= FLASH_SIZE
    modifies bridge, bridge.rig
    ensures bridge.Valid() && (r.Ok? ==> bridge.Ready()) && bridge.guard == old(bridge.guard)
    ensures Inside(bridge.rig.world, f, bridge.rig.now)
    ensures r.Err? ==> WriteError(r.error, bridge.rig.world, bridge.guard, old(bridge.rig.now.clock))
    ensures r.Ok? ==> Spent(old(bridge.rig.now), bridge.rig.now)
                      && bridge.rig.now.clock == old(bridge.rig.now.clock) + ReadCost(|data|)
                      && bridge.rig.now.chip == old(bridge.rig.now.chip)
                      && ReadBack(old(bridge.rig.now), offset, data)
    ensures r.Err? && r.error.Fatal? && r.error.why.VerifyFailed? ==>
      FirstMismatch(old(bridge.rig.now), offset, data, r.error.why.at)
    ensures (old(bridge.Steady()) && ReadBack(old(bridge.rig.now), offset, data)
             && (old(bridge.rig.now.live) > 0 ==> old(bridge.rig.now.Idle()))) ==> r.Ok? && bridge.Steady()
  {
    ghost var b := bridge.rig.now;
    var readback :- ReadRegion(bridge, offset, |data|, f);
    if ReadBack(b, offset, data) && (b.live > 0 ==> b.Idle()) {
      ReadBackUnique(b, offset, data, readback);
    }
    if forall j :: 0 <= j < |data| ==> readback[j] == data[j] {
      assert readback == data;
    }
    if readback != data {
      var i := 0;
      while i < |data| && readback[i] == data[i]
        invariant 0 <= i <= |data|
        invariant forall j :: 0 <= j < i ==> readback[j] == data[j]
      {
        i := i + 1;
      }
      if i < |data| {
        MismatchFound(b, offset, data, readback, i);
      }
      return Err(Fatal(if i < |data| then VerifyFailed(offset + i) else VerifyLength));
    }
    return Ok(());
  }

  lemma ReadBackUnique(b: Board, addr: nat, out: seq<byte>, out': seq<byte>)
    requires b.chip.Valid() && |out| == |out'|
    requires ReadBack(b, addr, out) && ReadBack(b, addr, out') && (b.live > 0 ==> b.Idle())
    ensures out == out'
  {
    forall j | 0 <= j < |out|
      ensures out[j] == out'[j]
    {
      assert j / READ_CHUNK < b.live || j / READ_CHUNK >= b.live;
    }
  }

  /** When the cells hold the data, the budget that the read-back needs is the part
      with nonzero bytes. */
  lemma ReadBackNeeds(b: Board, offset: nat, data: seq<byte>)
    requires b.chip.Valid() && offset + |data| <= FLASH_SIZE
    requires b.live > 0 ==> b.Idle() && Holds(b.chip.mem, offset, data)
    ensures ReadBack(b, offset, data)
            <==> NonzeroLength(data) == 0 || b.live >= ReadCost(NonzeroLength(data))
  {
    var n := NonzeroLength(data);
    if n > 0 {
      LastChunk(n);
      assert data[n - 1] != 0;
    }
    if n == 0 || b.live >= ReadCost(n) {
      forall j | 0 <= j < |data|
        ensures j / READ_CHUNK >= b.live ==> data[j] == 0
        ensures j / READ_CHUNK < b.live ==> data[j] == b.chip.mem[offset + j]
      {
        if j < n {
          ChunkMonotone(j, n - 1);
        }
      }
    }
  }

  lemma LastChunk(n: nat)
    requires n > 0
    ensures ReadCost(n) == (n - 1) / READ_CHUNK + 1
  {
    QuotientIs(n + READ_CHUNK - 1, READ_CHUNK, (n - 1) / READ_CHUNK + 1);
  }

  lemma ChunkMonotone(i: nat, j: nat)
    requires i <= j
    ensures i / READ_CHUNK <= j / READ_CHUNK
  {
  }

  // ---------------------------------------------------------- write_region

  lemma StartsBeforeEnd(chunks: seq<Chunk>, offset: nat, data: seq<byte>, k: nat)
    requires Covers(chunks, offset, data) && k < |chunks|
    ensures ChunkStart(chunks, offset, k) < offset + |data|
  {
    assert InData(chunks[k], offset, data) && InPage(chunks[k], offset + |data|);
  }

  /** The phase costs as products. */
  lemma PhaseCosts(n: nat, p: nat)
    ensures EraseCost(n, p) == 2 + Times(n, 5 + p)
    ensures LoopCost(n, p) == Times(80 * n, 2 + p)
  {
    TimesIsProduct(n, 5 + p);
    TimesIsProduct(80 * n, 2 + p);
  }

  /** The status check: a protected chip passes it only on a dead bus. */
  method CheckProtection(bridge: SpiBridge, ghost f: Frame) returns (r: Result<()>)
    requires bridge.Ready() && Inside(bridge.rig.world, f, bridge.rig.now) && bridge.rig.now.Idle()
    modifies bridge, bridge.rig
    ensures bridge.Valid() && (r.Ok? ==> bridge.Ready()) && bridge.guard == old(bridge.guard)
    ensures Inside(bridge.rig.world, f, bridge.rig.now)
    ensures r.Err? ==> TransferError(r.error, bridge.rig.world, bridge.guard, old(bridge.rig.now.clock)) || r.error == Fatal(BlockProtected)
    ensures old(bridge.Refusal()).Some? ==>
      r == Err(old(bridge.Refusal()).value) && bridge.rig.now == old(bridge.Refused())
    ensures r.Ok? ==> Spent(old(bridge.rig.now), bridge.rig.now) && bridge.rig.now.chip == old(bridge.rig.now.chip)
                      && bridge.rig.now.clock == old(bridge.rig.now.clock) + 2
    ensures old(bridge.Steady()) ==> bridge.Steady()
    ensures old(bridge.Steady()) && old(bridge.rig.now.live) > 0 ==>
      (r.Ok? <==> !old(bridge.rig.now.chip.Protected()))
    ensures r.Ok? ==> old(bridge.rig.now.live) == 0 || !old(bridge.rig.now.chip.Protected())
  {
    StatusBits(bridge.rig.now.chip);
    var sr :- ReadSr(bridge, f);
    if HasProtection(sr.0) {
      return Err(Fatal(BlockProtected));
    }
    return Ok(());
  }

  /** What a finished erase loop leaves, and what it cost with the status check: the bus
      lived through it and the chip is not protected. */
  ghost predicate EraseOutcome(w: World, b0: Board, b: Board, offset: nat, data: seq<byte>)
  {
    && Spent(b0, b) && b.Idle() && Aligned(offset) && Aligned(|data|)
    && (data != [] ==> !b0.chip.Protected() && b.clock - b0.clock <= b0.live)
    && (b0.chip.Honours() ==> b.chip.mem == Fill(b0.chip.mem, offset, |data|))
    && (b0.chip.Honours() && Uniform(w, b0) ==> b.clock == b0.clock + EraseCost(Sectors(data), w.slowest))
    && (!b0.chip.Honours() ==> b.chip.mem == b0.chip.mem && b.clock == b0.clock + EraseCost(Sectors(data), 1))
  }

  lemma EraseEnds(w: World, b0: Board, b1: Board, b2: Board, plan: seq<Erase>, offset: nat, data: seq<byte>)
    requires Spent(b0, b1) && b1.chip == b0.chip && b1.clock == b0.clock + 2 && (b0.live == 0 || !b0.chip.Protected())
    requires Spent(b1, b2) && b2.Idle() && b2.clock - b1.clock <= b1.live && (plan != [] ==> b1.live > 0)
    requires Tiles(plan, offset, offset + |data|) && |plan| == Sectors(data)
    requires Aligned(offset) && Aligned(|data|)
    requires b1.chip.Honours() ==> b2.chip.mem == EraseAll(b1.chip.mem, plan, |plan|)
    requires b1.chip.Honours() && Uniform(w, b1) ==> b2.clock == b1.clock + Times(|plan|, 5 + w.slowest)
    requires !b1.chip.Honours() ==> b2.chip.mem == b1.chip.mem && b2.clock == b1.clock + Times(|plan|, 6)
    ensures EraseOutcome(w, b0, b2, offset, data)
  {
    PhaseCosts(Sectors(data), w.slowest);
    PhaseCosts(Sectors(data), 1);
    PlanErasesRange(b0.chip.mem, plan, offset, offset + |data|);
  }

  /** The budget and the chip let the erase loop end. */
  ghost predicate Erasable(w: World, b: Board, offset: nat, data: seq<byte>)
  {
    && !b.chip.Protected() && (b.chip.Honours() || Blank(b.chip.mem, offset, offset + |data|))
    && b.live >= 2 + Times(Sectors(data), PassCost(b.chip, w))
  }

  /** The cost of the passes as a product: an ignored erase leaves a wait of one poll. */
  lemma PassCosts(c: Chip, w: World, n: nat)
    ensures 2 + Times(n, PassCost(c, w)) == EraseCost(n, if c.Honours() then w.slowest else 1)
  {
    PhaseCosts(n, if c.Honours() then w.slowest else 1);
  }

  /** The status check, the plan and the erase loop. It ends if the bus lasts and the
      chip obeys; a chip with CMP set passes too if it is blank. */
  method EraseRegion(bridge: SpiBridge, offset: nat, data: seq<byte>, ghost f: Frame) returns (r: Result<()>)
    requires bridge.Ready() && Inside(bridge.rig.world, f, bridge.rig.now) && bridge.rig.now.Idle()
    requires offset + |data| <= FLASH_SIZE
    requires (f.lo <= offset && offset + |data| <= f.hi) || !bridge.rig.now.chip.Honours()
    modifies bridge, bridge.rig
    ensures bridge.Valid() && (r.Ok? ==> bridge.Ready()) && bridge.guard == old(bridge.guard)
    ensures Inside(bridge.rig.world, f, bridge.rig.now)
    ensures r.Err? ==> WriteError(r.error, bridge.rig.world, bridge.guard, old(bridge.rig.now.clock))
    ensures old(bridge.Refusal()).Some? ==>
      r == Err(old(bridge.Refusal()).value) && bridge.rig.now == old(bridge.Refused())
    ensures r.Ok? ==> EraseOutcome(bridge.rig.world, old(bridge.rig.now), bridge.rig.now, offset, data)
    ensures (old(bridge.Steady()) && Aligned(offset) && Aligned(|data|)
             && Erasable(bridge.rig.world, old(bridge.rig.now), offset, data)) ==>
      r.Ok? && bridge.Steady()
      && bridge.rig.now.clock <= old(bridge.rig.now.clock) + 2
                                 + Times(Sectors(data), PassCost(old(bridge.rig.now.chip), bridge.rig.world))
    ensures r.Err? && old(bridge.rig.now.chip.Honours()) ==> !BlamesChip(r.error)
  {
    ghost var b0 := bridge.rig.now;
    var _ :- CheckProtection(bridge, f);
    ghost var b1 := bridge.rig.now;
    var plan :- ErasePlan(offset, |data|, false);
    r := ErasePhase(bridge, plan, offset, offset + |data|, f);
    if r.Ok? {
      EraseEnds(bridge.rig.world, b0, b1, bridge.rig.now, plan, offset, data);
    }
  }

  /** The chunks and the program loop, over blank cells. */
  method ProgramRegion(bridge: SpiBridge, offset: nat, data: seq<byte>, ghost f: Frame) returns (r: Result<()>)
    requires bridge.Ready() && Inside(bridge.rig.world, f, bridge.rig.now) && bridge.rig.now.Idle()
    requires offset + |data| <= FLASH_SIZE && Aligned(offset) && Aligned(|data|)
    requires (f.lo <= offset && offset + |data| <= f.hi) || !bridge.rig.now.chip.Honours()
    requires bridge.rig.now.chip.Honours() ==> Blank(bridge.rig.now.chip.mem, offset, offset + |data|)
    modifies bridge, bridge.rig
    ensures bridge.Valid() && (r.Ok? ==> bridge.Ready()) && bridge.guard == old(bridge.guard)
    ensures Inside(bridge.rig.world, f, bridge.rig.now)
    ensures r.Err? ==> WriteError(r.error, bridge.rig.world, bridge.guard, old(bridge.rig.now.clock))
    ensures r.Ok? ==> Spent(old(bridge.rig.now), bridge.rig.now)
                      && (bridge.rig.now.live > 0 ==> bridge.rig.now.Idle())
    ensures r.Ok? && old(bridge.rig.now.chip.Honours()) ==>
      ProgramOutcome(bridge.rig.world, old(bridge.rig.now), bridge.rig.now, offset, data,
                     LoopCost(Sectors(data), bridge.rig.world.slowest))
    ensures r.Ok? && !old(bridge.rig.now.chip.Honours()) ==>
      bridge.rig.now.Idle() && bridge.rig.now.chip.mem == old(bridge.rig.now.chip.mem)
      && bridge.rig.now.clock == old(bridge.rig.now.clock) + LoopCost(Sectors(data), 1)
    ensures old(bridge.Steady()) ==>
      r.Ok? && bridge.Steady()
      && bridge.rig.now.clock <= old(bridge.rig.now.clock) + LoopCost(Sectors(data), bridge.rig.world.slowest)
  {
    ghost var b := bridge.rig.now;
    PhaseCosts(Sectors(data), 1);
    PhaseCosts(Sectors(data), bridge.rig.world.slowest);
    var chunks := ProgramChunks(offset, data);
    ChunkCount(chunks, offset, data);
    ChunksInChip(chunks, offset, data);
    ghost var done;
    r, done := ProgramPhase(bridge, chunks, data, offset, f);
    if r.Ok? && b.chip.Honours() {
      ProgramEnds(bridge.rig.world, b, bridge.rig.now, chunks, offset, data, done);
    }
  }

  /** What a finished program loop has stored, and what it cost. */
  ghost predicate ProgramOutcome(w: World, b: Board, b': Board, offset: nat, data: seq<byte>, cost: nat)
  {
    && (b'.live > 0 ==> b'.chip.mem == Splice(b.chip.mem, offset, data))
    && (Uniform(w, b) && b'.live > 0 ==> b'.clock == b.clock + cost)
    && (Uniform(w, b) && b'.live == 0 ==> b.live <= cost)
    && (Uniform(w, b) && b.live + w.slowest >= cost ==> b'.chip.mem == Splice(b.chip.mem, offset, data))
    && (Uniform(w, b) && b.live + w.slowest < cost ==>
          offset + |data| <= |b'.chip.mem| && data != [] && b'.chip.mem[offset + |data| - 1] == ERASED)
  }

  lemma ProgramEnds(w: World, b: Board, b': Board, chunks: seq<Chunk>, offset: nat, data: seq<byte>, done: nat)
    requires Covers(chunks, offset, data) && |chunks| == 80 * Sectors(data)
    requires b.chip.Valid() && offset + |data| <= FLASH_SIZE && Blank(b.chip.mem, offset, offset + |data|)
    requires Aligned(|data|)
    requires Programmed(w, b, b', chunks, |chunks|, done)
    ensures ProgramOutcome(w, b, b', offset, data, LoopCost(Sectors(data), w.slowest))
  {
    PhaseCosts(Sectors(data), w.slowest);
    ProgramPrefix(b.chip.mem, chunks, offset, data, done);
    if done == |chunks| {
      assert data[..|data|] == data;
    } else {
      StartsBeforeEnd(chunks, offset, data, done);
    }
  }

  /** The read-back of a finished program loop matches exactly when the bus lives
      to the last nonzero byte. */
  lemma ReadBackMatches(w: World, b: Board, b': Board, offset: nat, data: seq<byte>, cost: nat)
    requires b.chip.Valid() && b'.chip.Valid() && offset + |data| <= FLASH_SIZE
    requires ProgramOutcome(w, b, b', offset, data, cost) && (b'.live > 0 ==> b'.Idle())
    ensures ReadBack(b', offset, data) <==>
            NonzeroLength(data) == 0 || b'.live >= ReadCost(NonzeroLength(data))
    ensures NonzeroLength(data) > 0 ==> ReadCost(NonzeroLength(data)) > 0
  {
    if b'.live > 0 {
      SpliceHeld(b.chip.mem, offset, data);
    }
    ReadBackNeeds(b', offset, data);
    if NonzeroLength(data) > 0 {
      LastChunk(NonzeroLength(data));
    }
  }

  lemma SpliceHeld(mem: seq<byte>, offset: nat, data: seq<byte>)
    requires offset + |data| <= |mem|
    ensures Holds(Splice(mem, offset, data), offset, data)
  {
  }

  /** In a uniform world its budget decides; if it matches, the budget also says
      whether the data is stored. */
  lemma BudgetDecides(w: World, b: Board, b': Board, offset: nat, data: seq<byte>, cost: nat, rest: nat)
    requires offset + |data| <= |b.chip.mem| && data != [] && Uniform(w, b)
    requires ProgramOutcome(w, b, b', offset, data, cost) && Spent(b, b')
    requires NonzeroLength(data) > 0 ==> rest > 0
    ensures rest > 0 ==> (b'.live >= rest <==> b.live >= cost + rest)
    ensures NonzeroLength(data) == 0 || b'.live >= rest ==>
      (b'.chip.mem == Splice(b.chip.mem, offset, data) <==> b.live + w.slowest >= cost)
  {
    if rest > 0 {
      SpentDecides(b, b', cost, rest);
    }
    if NonzeroLength(data) == 0 {
      LastIsZero(b.chip.mem, offset, data);
    }
  }

  lemma SpentDecides(b: Board, b': Board, cost: nat, rest: nat)
    requires Spent(b, b') && rest > 0
    requires if b'.live > 0 then b'.clock == b.clock + cost else b.live <= cost
    ensures b'.live >= rest <==> b.live >= cost + rest
  {
  }

  lemma LastIsZero(mem: seq<byte>, offset: nat, data: seq<byte>)
    requires data != [] && NonzeroLength(data) == 0 && offset + |data| <= |mem|
    ensures Splice(mem, offset, data)[offset + |data| - 1] == 0
  {
  }

  /** The budget at b covered every transaction up to b' but those of the read-back
      that came after the last nonzero byte. */
  predicate Outlived(b: Board, b': Board, data: seq<byte>)
  {
    b.live + ReadCost(|data|) >= b'.clock - b.clock + ReadCost(NonzeroLength(data))
  }

  /** A read-back with a nonzero byte matches only if that byte came from a live bus. */
  lemma MatchIsAlive(b: Board, offset: nat, data: seq<byte>)
    requires b.chip.Valid()
    requires ReadBack(b, offset, data) && NonzeroLength(data) > 0
    ensures b.live >= ReadCost(NonzeroLength(data)) > 0
  {
    LastChunk(NonzeroLength(data));
    assert data[NonzeroLength(data) - 1] != 0;
  }

  /** What a matching read-back says about the program loop before it. */
  lemma MatchDecides(w: World, b: Board, b': Board, b'': Board, offset: nat, data: seq<byte>, cost: nat)
    requires b.chip.Valid() && b'.chip.Valid() && offset + |data| <= FLASH_SIZE
    requires ProgramOutcome(w, b, b', offset, data, cost) && Spent(b, b') && (b'.live > 0 ==> b'.Idle())
    requires ReadBack(b', offset, data) && b''.chip == b'.chip && b''.clock == b'.clock + ReadCost(|data|)
    ensures NonzeroLength(data) > 0 ==> b''.chip.mem == Splice(b.chip.mem, offset, data)
    ensures Uniform(w, b) && (NonzeroLength(data) > 0 || b.live > cost) ==> b''.clock == b.clock + cost + ReadCost(|data|)
    ensures Uniform(w, b) && data != [] ==>
      (b''.chip.mem == Splice(b.chip.mem, offset, data) <==> b.live + w.slowest >= cost)
  {
    ReadBackMatches(w, b, b', offset, data, cost);
    if Uniform(w, b) && data != [] {
      BudgetDecides(w, b, b', offset, data, cost, ReadCost(NonzeroLength(data)));
    }
  }

  /** When the read-back of a finished program loop must match. */
  lemma MatchFollows(w: World, b: Board, b': Board, offset: nat, data: seq<byte>, cost: nat)
    requires b.chip.Valid() && b'.chip.Valid() && offset + |data| <= FLASH_SIZE
    requires ProgramOutcome(w, b, b', offset, data, cost) && Spent(b, b') && (b'.live > 0 ==> b'.Idle())
    ensures b'.clock <= b.clock + cost && b.live >= cost + ReadCost(|data|) ==> ReadBack(b', offset, data)
    ensures Uniform(w, b) && data != [] ==>
      (ReadBack(b', offset, data) <==> NonzeroLength(data) == 0 || b.live >= cost + ReadCost(NonzeroLength(data)))
  {
    ReadBackMatches(w, b, b', offset, data, cost);
    ReadCostMonotone(NonzeroLength(data), |data|);
    if Uniform(w, b) && data != [] {
      BudgetDecides(w, b, b', offset, data, cost, ReadCost(NonzeroLength(data)));
    }
  }

  /** The cells as a bus shows them that answers `left` more transactions. */
  ghost predicate Shown(mem: seq<byte>, left: int, offset: nat, data: seq<byte>)
    requires |mem| == FLASH_SIZE
  {
    forall j :: 0 <= j < |data| ==> data[j] == if j / READ_CHUNK < left then CellAt(mem, offset + j) else 0
  }

  lemma ShownReads(b: Board, left: int, offset: nat, data: seq<byte>)
    requires b.chip.Valid() && b.Idle() && b.live == if left > 0 then left else 0
    ensures ReadBack(b, offset, data) <==> Shown(b.chip.mem, left, offset, data)
  {
    if ReadBack(b, offset, data) {
      forall j | 0 <= j < |data|
        ensures data[j] == if j / READ_CHUNK < left then CellAt(b.chip.mem, offset + j) else 0
      {
        assert j / READ_CHUNK < b.live || j / READ_CHUNK >= b.live;
      }
    }
  }

  /** 62m bytes of 0xFF and then zeros, at least one. */
  ghost predicate BlankThenZero(data: seq<byte>, m: nat)
  {
    READ_CHUNK * m < |data| && forall j :: 0 <= j < |data| ==> data[j] == if j < READ_CHUNK * m then ERASED else 0
  }

  /** What blank cells show is stored in them exactly if no zero is shown. */
  lemma BlankShows(mem: seq<byte>, left: int, offset: nat, data: seq<byte>)
    requires |mem| == FLASH_SIZE && offset + |data| <= FLASH_SIZE && Blank(mem, offset, offset + |data|)
    ensures Shown(mem, left, offset, data) && !Holds(mem, offset, data) <==>
            BlankThenZero(data, if left > 0 then left else 0)
  {
    var m := if left > 0 then left else 0;
    forall j | 0 <= j < |data|
      ensures CellAt(mem, offset + j) == ERASED && (j / READ_CHUNK < left <==> j < READ_CHUNK * m)
    {
      BeforeChunk(j, m);
      assert mem[offset + j] == ERASED;
    }
    if BlankThenZero(data, m) {
      assert data[READ_CHUNK * m] == 0 && mem[offset + READ_CHUNK * m] == ERASED;
    }
    if Shown(mem, left, offset, data) && |data| <= READ_CHUNK * m {
      forall x {:trigger mem[x]} | offset <= x < offset + |data|
        ensures mem[x] == data[x - offset]
      {
        BeforeChunk(x - offset, m);
      }
    }
  }

  lemma BeforeChunk(j: nat, m: nat)
    ensures j / READ_CHUNK < m <==> j < READ_CHUNK * m
  {
  }

  /** On a chip that ignores commands and is blank, a return of write_region means
      storage for every budget exactly when the data is not 0xFF for a number of whole
      reads and zero from there on. */
  lemma BlankSoundIff(mem: seq<byte>, offset: nat, data: seq<byte>)
    requires |mem| == FLASH_SIZE && offset + |data| <= FLASH_SIZE && Blank(mem, offset, offset + |data|)
    ensures (forall left: int :: Shown(mem, left, offset, data) ==> Holds(mem, offset, data))
            <==> !exists m: nat :: BlankThenZero(data, m)
  {
    if m: nat :| BlankThenZero(data, m) {
      BlankShows(mem, m, offset, data);
      assert Shown(mem, m, offset, data);
    } else {
      forall left: int | Shown(mem, left, offset, data)
        ensures Holds(mem, offset, data)
      {
        BlankShows(mem, left, offset, data);
      }
    }
  }

  /** What programming and verifying guarantees, over blank cells. */
  ghost predicate MatchOutcome(w: World, b: Board, b': Board, steady: bool, offset: nat, data: seq<byte>, r: Result<()>)
    requires b.Valid()
  {
    var p, cost := w.slowest, LoopCost(Sectors(data), w.slowest);
    && (r.Ok? && b.chip.Honours() && NonzeroLength(data) > 0 ==> b'.chip.mem == Splice(b.chip.mem, offset, data))
    && (r.Ok? && b.chip.Honours() && Uniform(w, b) && (NonzeroLength(data) > 0 || b.live > cost) ==>
          b'.clock == b.clock + cost + ReadCost(|data|))
    && (r.Ok? && NonzeroLength(data) > 0 ==> Outlived(b, b', data))
    && (steady && b.chip.Honours() && b.live >= cost + ReadCost(|data|) ==> r.Ok?)
    && (steady && Uniform(w, b) && b.chip.Honours() && data != [] ==>
          && (r.Ok? <==> NonzeroLength(data) == 0 || b.live >= cost + ReadCost(NonzeroLength(data)))
          && (r.Ok? ==> (b'.chip.mem == Splice(b.chip.mem, offset, data) <==> b.live + p >= cost)))
    && (steady && !b.chip.Honours() ==>
          (r.Ok? <==> Shown(b.chip.mem, b.live - LoopCost(Sectors(data), 1), offset, data)))
  }

  /** Program and verify, over blank cells. */
  method ProgramAndVerify(bridge: SpiBridge, offset: nat, data: seq<byte>, ghost f: Frame) returns (r: Result<()>)
    requires bridge.Ready() && Inside(bridge.rig.world, f, bridge.rig.now) && bridge.rig.now.Idle()
    requires offset + |data| <= FLASH_SIZE && Aligned(offset) && Aligned(|data|)
    requires (f.lo <= offset && offset + |data| <= f.hi) || !bridge.rig.now.chip.Honours()
    requires bridge.rig.now.chip.Honours() ==> Blank(bridge.rig.now.chip.mem, offset, offset + |data|)
    modifies bridge, bridge.rig
    ensures bridge.Valid() && (r.Ok? ==> bridge.Ready()) && bridge.guard == old(bridge.guard)
    ensures Inside(bridge.rig.world, f, bridge.rig.now)
    ensures r.Err? ==> WriteError(r.error, bridge.rig.world, bridge.guard, old(bridge.rig.now.clock))
    ensures MatchOutcome(bridge.rig.world, old(bridge.rig.now), bridge.rig.now, old(bridge.Steady()), offset, data, r)
  {
    ghost var w, b := bridge.rig.world, bridge.rig.now;
    var _ :- ProgramRegion(bridge, offset, data, f);
    ghost var b' := bridge.rig.now;
    if b.chip.Honours() {
      MatchFollows(w, b, b', offset, data, LoopCost(Sectors(data), w.slowest));
    } else {
      ShownReads(b', b.live - LoopCost(Sectors(data), 1), offset, data);
    }
    r := Verify(bridge, offset, data, f);
    if r.Ok? && b.chip.Honours() {
      MatchDecides(w, b, b', bridge.rig.now, offset, data, LoopCost(Sectors(data), w.slowest));
    }
    if r.Ok? && NonzeroLength(data) > 0 {
      MatchIsAlive(b', offset, data);
    }
  }

  lemma ReadCostMonotone(m: nat, n: nat)
    requires m <= n
    ensures ReadCost(m) <= ReadCost(n)
  {
    ChunkMonotone(m + READ_CHUNK - 1, n + READ_CHUNK - 1);
  }

  /** What write_region guarantees, from b0 to b, if it has ended with r. `steady` says
      that from b0 on nothing but the budget can make a transaction fail. */
  ghost predicate WriteOutcome(w: World, b0: Board, b: Board, steady: bool, offset: nat, data: seq<byte>, r: Result<()>)
    requires b0.Valid()
  {
    var aligned, n, p := Aligned(offset) && Aligned(|data|), Sectors(data), w.slowest;
    && (r.Ok? ==> aligned)
    // A protected chip is refused; nor does a cell of one with CMP set change at any moment.
    && (b0.chip.Protected() && data != [] ==> r.Err?)
    && (!b0.chip.Honours() ==> Worked(w, b0, b, 0, 0))
    // Success is sound, wherever the bus died, if the data has a nonzero byte.
    && (r.Ok? && !b0.chip.Complemented() && NonzeroLength(data) > 0 ==>
          b.chip.mem == Splice(b0.chip.mem, offset, data))
    // ... and then the bus was alive for every erase, program and poll.
    && (r.Ok? && NonzeroLength(data) > 0 ==> Outlived(b0, b, data))
    // The exact cost, whenever the bus outlives the program loop.
    && (r.Ok? && b0.chip.Honours() && Uniform(w, b0) && (NonzeroLength(data) > 0 || b0.live > ProgramCost(n, p)) ==>
          b.clock == b0.clock + WriteCost(data, p))
    // Enough budget is enough.
    && (steady && b0.chip.Honours() && aligned && b0.live >= WriteCost(data, p) ==> r.Ok?)
    // With waits of one length, the budget alone decides the outcome.
    && (steady && Uniform(w, b0) && b0.chip.Honours() && aligned && data != [] ==>
          && (r.Ok? <==> Returns(b0.live, data, p))
          && (r.Ok? ==> (b.chip.mem == Splice(b0.chip.mem, offset, data) <==> Stored(b0.live, data, p))))
    // A blank chip with CMP set passes the status check and the erase loop; then the budget
    // alone decides, and what it lets pass is not stored unless the data is blank.
    && (steady && !b0.chip.Honours() && !b0.chip.Protected() && aligned
        && Blank(b0.chip.mem, offset, offset + |data|) && b0.live >= EraseCost(n, 1) ==>
          (r.Ok? <==> Shown(b0.chip.mem, b0.live - ProgramCost(n, 1), offset, data)))
  }

  /** The erase loop failed. */
  lemma EraseFails(w: World, b0: Board, b: Board, steady: bool, offset: nat, data: seq<byte>, e: Error)
    requires b0.Valid() && (!b0.chip.Honours() ==> Worked(w, b0, b, 0, 0))
    requires steady && Aligned(offset) && Aligned(|data|) ==> !Erasable(w, b0, offset, data)
    ensures WriteOutcome(w, b0, b, steady, offset, data, Err(e))
  {
    PassCosts(b0.chip, w, Sectors(data));
  }

  /** The erase loop ended at b1, program and verify with r at b. */
  lemma WriteEnds(w: World, b0: Board, b1: Board, b: Board, steady: bool, offset: nat, data: seq<byte>, r: Result<()>)
    requires b0.Valid() && b1.Valid() && offset + |data| <= FLASH_SIZE
    requires b1.chip.high1 == b0.chip.high1 && b1.chip.sr2 == b0.chip.sr2
    requires !b0.chip.Honours() ==> Worked(w, b0, b, 0, 0)
    requires EraseOutcome(w, b0, b1, offset, data)
    requires MatchOutcome(w, b1, b, steady && Erasable(w, b0, offset, data), offset, data, r)
    requires steady && Erasable(w, b0, offset, data) && b0.chip.Honours() ==>
      b1.clock <= b0.clock + EraseCost(Sectors(data), w.slowest)
    ensures WriteOutcome(w, b0, b, steady, offset, data, r)
  {
    PassCosts(b0.chip, w, Sectors(data));
    SpliceOverFill(b0.chip.mem, offset, data);
  }

  /** `write_region`, with the read-back. */
  method WriteRegion(bridge: SpiBridge, offset: nat, data: seq<byte>) returns (r: Result<()>)
    requires bridge.Ready() && bridge.rig.now.Idle()
    requires offset + |data| <= FLASH_SIZE
    modifies bridge, bridge.rig
    ensures bridge.Valid() && (r.Ok? ==> bridge.Ready()) && bridge.guard == old(bridge.guard)
    ensures Worked(bridge.rig.world, old(bridge.rig.now), bridge.rig.now, offset, offset + |data|)
    ensures r.Err? ==> WriteError(r.error, bridge.rig.world, bridge.guard, old(bridge.rig.now.clock))
    ensures old(bridge.Refusal()).Some? ==>
      r == Err(old(bridge.Refusal()).value) && bridge.rig.now == old(bridge.Refused())
    ensures WriteOutcome(bridge.rig.world, old(bridge.rig.now), bridge.rig.now, old(bridge.Steady()), offset, data, r)
  {
    ghost var w, b0, steady := bridge.rig.world, bridge.rig.now, bridge.Steady();
    ghost var f := if b0.chip.Honours() then Frame(b0, offset, offset + |data|) else Frame(b0, 0, 0);
    PassCosts(b0.chip, w, Sectors(data));
    var e := EraseRegion(bridge, offset, data, f);
    ghost var b1 := bridge.rig.now;
    if e.Err? {
      TouchedWiden(b0, b1, f.lo, f.hi, offset, offset + |data|);
      EraseFails(w, b0, b1, steady, offset, data, e.error);
      return e;
    }
    SpliceOverFill(b0.chip.mem, offset, data);
    r := ProgramAndVerify(bridge, offset, data, f);
    TouchedWiden(b0, bridge.rig.now, f.lo, f.hi, offset, offset + |data|);
    WriteEnds(w, b0, b1, bridge.rig.now, steady, offset, data, r);
  }
}
