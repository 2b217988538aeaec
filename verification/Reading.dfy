/** `read_region_sessioned`: a long read, one fresh session per piece. */
module Reading {
  import opened Results
  import opened Bytes
  import opened Nor
  import opened Bench
  import opened Planning
  import opened Region
  import opened Sessions
  import opened Writing
  import opened Flashing

  /** The bytes that a bus with `left` transactions to live returns: zeros after them. */
  function Shows(mem: seq<byte>, left: int, addr: nat, n: nat): (r: seq<byte>)
    requires |mem| == FLASH_SIZE
    ensures |r| == n
  {
    seq<byte>(n, j requires 0 <= j < n => if j / READ_CHUNK < left then CellAt(mem, addr + j) else 0)
  }

  /** A sessioned read, piece by piece, from session k on. */
  function ReadRun(budget: nat -> nat, k: nat, mem: seq<byte>, addr: nat, n: nat, piece: nat): (r: seq<byte>)
    requires |mem| == FLASH_SIZE && piece >= 1
    ensures |r| == n
    decreases n
  {
    if n == 0 then []
    else
      var m := Min(piece, n);
      Shows(mem, budget(k) - 2, addr, m) + ReadRun(budget, k + 1, mem, addr + m, n - m, piece)
  }

  function PieceCount(n: nat, piece: nat): nat
    requires piece >= 1
    decreases n
  {
    if n == 0 then 0 else 1 + PieceCount(n - Min(piece, n), piece)
  }

  /** If each session it opens outlives a piece, the sessioned read and the plain one
      return the same: exactly the cells. */
  lemma {:induction false} ReadRunLasts(budget: nat -> nat, k: nat, mem: seq<byte>, addr: nat, n: nat, piece: nat, most: nat)
    requires |mem| == FLASH_SIZE && piece >= 1 && most >= ReadCost(Min(piece, n))
    requires forall i :: k <= i < k + PieceCount(n, piece) ==> budget(i) >= 2 + most
    ensures ReadRun(budget, k, mem, addr, n, piece) == Cells(mem, addr, n)
    decreases n
  {
    if n > 0 {
      var m := Min(piece, n);
      ShowsAll(mem, budget(k) - 2, addr, m);
      ReadCostMonotone(Min(piece, n - m), m);
      ReadRunLasts(budget, k + 1, mem, addr + m, n - m, piece, most);
      LastsStep(budget, k, mem, addr, n, piece);
    }
  }

  lemma LastsStep(budget: nat -> nat, k: nat, mem: seq<byte>, addr: nat, n: nat, piece: nat)
    requires |mem| == FLASH_SIZE && piece >= 1 && n > 0
    requires Shows(mem, budget(k) - 2, addr, Min(piece, n)) == Cells(mem, addr, Min(piece, n))
    requires ReadRun(budget, k + 1, mem, addr + Min(piece, n), n - Min(piece, n), piece)
             == Cells(mem, addr + Min(piece, n), n - Min(piece, n))
    ensures ReadRun(budget, k, mem, addr, n, piece) == Cells(mem, addr, n)
  {
    ReadRunFirst(budget, k, mem, addr, n, piece);
    CellsJoin(mem, addr, Min(piece, n), n - Min(piece, n));
  }

  lemma ReadRunFirst(budget: nat -> nat, k: nat, mem: seq<byte>, addr: nat, n: nat, piece: nat)
    requires |mem| == FLASH_SIZE && piece >= 1 && n > 0
    ensures ReadRun(budget, k, mem, addr, n, piece)
            == Shows(mem, budget(k) - 2, addr, Min(piece, n))
               + ReadRun(budget, k + 1, mem, addr + Min(piece, n), n - Min(piece, n), piece)
  {
  }

  lemma ShowsAll(mem: seq<byte>, left: int, addr: nat, n: nat)
    requires |mem| == FLASH_SIZE && left >= ReadCost(n)
    ensures Shows(mem, left, addr, n) == Cells(mem, addr, n)
  {
    forall j | 0 <= j < n
      ensures Shows(mem, left, addr, n)[j] == CellAt(mem, addr + j)
    {
      ByteInCost(j, n);
    }
  }

  /** One turn of the loop: the bytes read so far and the next piece. */
  method NextRead(rig: Rig, abortEvery: int, piece: nat, end: nat, po: nat, out: seq<byte>,
                  ghost length: nat, ghost offset: nat, ghost b0: Board, ghost coming: bool)
    returns (r: Result<seq<byte>>)
    requires rig.now.Valid() && b0.Valid() && piece >= 1 && po < end
    requires ReadLoop(rig.world, b0, rig.now, abortEvery, coming)
    requires coming ==> Coming(rig.world, b0.begun, PieceCount(length, piece))
    requires ReadSoFar(rig.world, b0, rig.now, piece, length, offset, end, po, out)
    modifies rig
    ensures ReadLoop(rig.world, b0, rig.now, abortEvery, coming)
    ensures r.Err? ==> r.error != Fatal(TooLong) && !coming
    ensures r.Ok? ==> ReadSoFar(rig.world, b0, rig.now, piece, length, offset, end, po + piece, r.value)
  {
    ghost var b, w := rig.now, rig.world;
    PieceCountStep(RestOf(end, po), piece);
    assert b.chip.mem == b0.chip.mem;
    r := ReadPiece(rig, abortEvery, po, Min(piece, end - po));
    ReadLoopStep(w, b0, b, rig.now, abortEvery, coming);
    if r.Ok? {
      ReadStep(w, b0, b, rig.now, piece, length, offset, end, po, out, r.value);
      r := Ok(out + r.value);
    }
  }

  /** In every world a result has the length asked for and is what the sessions' budgets
      say: a bus that dies leaves zeros, and no error. Nothing is written. */
  method ReadRegionSessioned(rig: Rig, abortEvery: int, offset: nat, length: nat, piece: nat)
    returns (r: Result<seq<byte>>)
    requires rig.now.Valid() && piece >= 1
    modifies rig
    ensures Touched(old(rig.now), rig.now, 0, 0)
    ensures rig.now.begun - rig.now.ended == old(rig.now.begun) - old(rig.now.ended)
    ensures rig.now.peak <= Max(old(rig.now.peak), old(rig.now.begun) - old(rig.now.ended) + 1)
    ensures r.Err? ==> r.error != Fatal(TooLong)
    ensures r.Ok? ==> r.value == ReadRun(rig.world.budget, old(rig.now.begun), old(rig.now.chip.mem), offset, length, piece)
                      && rig.now.begun == old(rig.now.begun) + PieceCount(length, piece)
    ensures (Undisturbed(rig.world, old(rig.now), abortEvery)
             && Coming(rig.world, old(rig.now.begun), PieceCount(length, piece))) ==> r.Ok?
  {
    ghost var b0, w := rig.now, rig.world;
    ghost var coming := Undisturbed(w, b0, abortEvery) && Coming(w, b0.begun, PieceCount(length, piece));
    var out: seq<byte> := [];
    var po, end := offset, offset + length;
    ReadStarts(w, b0, piece, length, offset, end);
    while po < end
      invariant offset <= po && ReadLoop(w, b0, rig.now, abortEvery, coming)
      invariant ReadSoFar(w, b0, rig.now, piece, length, offset, end, po, out)
      decreases end - po
    {
      var next := NextRead(rig, abortEvery, piece, end, po, out, length, offset, b0, coming);
      if next.Err? {
        return next;
      }
      out := next.value;
      po := po + piece;
    }
    ReadEnds(w, b0, rig.now, piece, length, offset, end, po, out);
    return Ok(out);
  }

  /** What is left to read at po. */
  function RestOf(end: nat, po: nat): nat
  {
    if po < end then end - po else 0
  }

  /** The n sessions from k on have the budget to come up. */
  ghost predicate Coming(w: World, k: nat, n: nat)
  {
    forall i :: k <= i < k + n ==> w.budget(i) >= 2
  }

  ghost predicate ReadLoop(w: World, b0: Board, b: Board, abortEvery: int, coming: bool)
  {
    && Touched(b0, b, 0, 0) && b0.begun <= b.begun
    && b.begun - b.ended == b0.begun - b0.ended
    && b.peak <= Max(b0.peak, b0.begun - b0.ended + 1)
    && (coming ==> Undisturbed(w, b, abortEvery))
  }

  lemma ReadLoopStep(w: World, b0: Board, b: Board, b': Board, abortEvery: int, coming: bool)
    requires ReadLoop(w, b0, b, abortEvery, coming) && Touched(b, b', 0, 0) && b'.chip.mem == b.chip.mem
    requires b'.begun == b.begun + 1 && b'.ended == b.ended + 1 && b'.peak <= Max(b.peak, b.begun - b.ended + 1)
    ensures ReadLoop(w, b0, b', abortEvery, coming)
  {
    TouchedTrans(b0, b, b', 0, 0, 0, 0);
  }

  /** What was read, and the rest of the run, are the whole run. */
  predicate ReadSoFar(w: World, b0: Board, b: Board, piece: nat, length: nat, offset: nat, end: nat, po: nat,
                      out: seq<byte>)
    requires |b0.chip.mem| == FLASH_SIZE && piece >= 1
  {
    && b.begun + PieceCount(RestOf(end, po), piece) == b0.begun + PieceCount(length, piece)
    && Continues(w.budget, b0.begun, b.begun, b0.chip.mem, piece, length, offset, RestOf(end, po), po, out)
  }

  predicate Continues(budget: nat -> nat, k0: nat, k: nat, mem: seq<byte>, piece: nat, length: nat, offset: nat,
                      rest: nat, po: nat, out: seq<byte>)
    requires |mem| == FLASH_SIZE && piece >= 1
  {
    out + ReadRun(budget, k, mem, po, rest, piece) == ReadRun(budget, k0, mem, offset, length, piece)
  }

  lemma ReadStarts(w: World, b0: Board, piece: nat, length: nat, offset: nat, end: nat)
    requires |b0.chip.mem| == FLASH_SIZE && piece >= 1 && end == offset + length
    ensures ReadSoFar(w, b0, b0, piece, length, offset, end, offset, [])
  {
    var whole := ReadRun(w.budget, b0.begun, b0.chip.mem, offset, length, piece);
    assert [] + whole == whole;
  }

  lemma ReadEnds(w: World, b0: Board, b: Board, piece: nat, length: nat, offset: nat, end: nat, po: nat, out: seq<byte>)
    requires |b0.chip.mem| == FLASH_SIZE && piece >= 1 && po >= end
    requires ReadSoFar(w, b0, b, piece, length, offset, end, po, out)
    ensures out == ReadRun(w.budget, b0.begun, b0.chip.mem, offset, length, piece)
    ensures b.begun == b0.begun + PieceCount(length, piece)
  {
    assert ReadRun(w.budget, b.begun, b0.chip.mem, po, 0, piece) == [];
    assert out + [] == out;
  }

  lemma PieceCountStep(rest: nat, piece: nat)
    requires rest > 0 && piece >= 1
    ensures PieceCount(rest, piece) == 1 + PieceCount(if rest <= piece then 0 else rest - piece, piece)
  {
  }

  lemma ReadRunStep(budget: nat -> nat, k: nat, mem: seq<byte>, po: nat, rest: nat, piece: nat)
    requires |mem| == FLASH_SIZE && piece >= 1 && rest > 0
    ensures ReadRun(budget, k, mem, po, rest, piece)
            == Shows(mem, budget(k) - 2, po, Min(piece, rest))
               + ReadRun(budget, k + 1, mem, po + piece, if rest <= piece then 0 else rest - piece, piece)
  {
    if rest <= piece {
      assert ReadRun(budget, k + 1, mem, po + rest, 0, piece) == [];
      assert ReadRun(budget, k + 1, mem, po + piece, 0, piece) == [];
    }
  }

  lemma ReadStep(w: World, b0: Board, b: Board, b': Board, piece: nat, length: nat, offset: nat, end: nat, po: nat,
                 out: seq<byte>, got: seq<byte>)
    requires |b0.chip.mem| == FLASH_SIZE && piece >= 1 && po < end
    requires ReadSoFar(w, b0, b, piece, length, offset, end, po, out) && b'.begun == b.begun + 1
    requires got == Shows(b0.chip.mem, w.budget(b.begun) - 2, po, Min(piece, end - po))
    ensures ReadSoFar(w, b0, b', piece, length, offset, end, po + piece, out + got)
  {
    var rest, later := end - po, RestOf(end, po + piece);
    assert later == if rest <= piece then 0 else rest - piece;
    assert b'.begun + PieceCount(later, piece) == b0.begun + PieceCount(length, piece) by {
      PieceCountStep(rest, piece);
    }
    assert Continues(w.budget, b0.begun, b'.begun, b0.chip.mem, piece, length, offset, later, po + piece, out + got) by {
      ContinuesStep(w.budget, b0.begun, b.begun, b0.chip.mem, piece, length, offset, rest, po, out, got);
    }
  }

  lemma ContinuesStep(budget: nat -> nat, k0: nat, k: nat, mem: seq<byte>, piece: nat, length: nat, offset: nat,
                      rest: nat, po: nat, out: seq<byte>, got: seq<byte>)
    requires |mem| == FLASH_SIZE && piece >= 1 && rest > 0
    requires Continues(budget, k0, k, mem, piece, length, offset, rest, po, out)
    requires got == Shows(mem, budget(k) - 2, po, Min(piece, rest))
    ensures Continues(budget, k0, k + 1, mem, piece, length, offset, if rest <= piece then 0 else rest - piece,
                      po + piece, out + got)
  {
    ReadRunStep(budget, k, mem, po, rest, piece);
    Regroup(out, got, ReadRun(budget, k + 1, mem, po + piece, if rest <= piece then 0 else rest - piece, piece));
  }

  lemma Regroup(a: seq<byte>, b: seq<byte>, c: seq<byte>)
    ensures a + (b + c) == a + b + c
  {
  }

  /** One piece in its own session, torn down on every path: the cells, and zeros from
      the death of the session's bus on. */
  method ReadPiece(rig: Rig, abortEvery: int, po: nat, plen: nat) returns (r: Result<seq<byte>>)
    requires rig.now.Valid()
    modifies rig
    ensures Touched(old(rig.now), rig.now, 0, 0) && rig.now.chip.mem == old(rig.now.chip.mem)
    ensures rig.now.begun == old(rig.now.begun) + 1 && rig.now.ended == old(rig.now.ended) + 1
    ensures rig.now.peak <= Max(old(rig.now.peak), old(rig.now.begun) - old(rig.now.ended) + 1)
    ensures r.Err? ==> r.error != Fatal(TooLong)
    ensures r.Ok? ==> r.value == Shows(old(rig.now.chip.mem), rig.world.budget(old(rig.now.begun)) - 2, po, plen)
    ensures Undisturbed(rig.world, old(rig.now), abortEvery) && rig.world.budget(old(rig.now.begun)) >= 2 ==> r.Ok?
  {
    ghost var b0 := rig.now;
    var session := NewSession(rig, abortEvery);
    ghost var b1 := rig.now;
    if session.Err? {
      return Err(session.error);
    }
    r := ReadRegion(session.value.bridge, po, plen, Frame(b1, 0, 0));
    TouchedTrans(b0, b1, rig.now, 0, 0, 0, 0);
    if r.Ok? {
      ShownReads(b1, b1.live, po, r.value);
      assert r.value == Shows(b1.chip.mem, b1.live, po, plen);
    }
    session.value.Teardown();
  }

  /** A bus that outlives a read delivers the cells. */
  lemma LiveReadIsExact(b: Board, addr: nat, out: seq<byte>)
    requires b.chip.Valid() && b.Idle()
    requires ReadBack(b, addr, out) && b.live >= ReadCost(|out|)
    ensures out == Cells(b.chip.mem, addr, |out|)
    ensures addr + |out| <= FLASH_SIZE ==> out == b.chip.mem[addr..addr + |out|]
  {
    if addr + |out| <= FLASH_SIZE {
      CellsInChip(b.chip.mem, addr, |out|);
    }
    forall j | 0 <= j < |out|
      ensures out[j] == CellAt(b.chip.mem, addr + j)
    {
      ByteInCost(j, |out|);
    }
  }

  lemma CellsJoin(mem: seq<byte>, a: nat, m: nat, n: nat)
    requires |mem| == FLASH_SIZE
    ensures Cells(mem, a, m) + Cells(mem, a + m, n) == Cells(mem, a, m + n)
  {
    var left := Cells(mem, a, m) + Cells(mem, a + m, n);
    forall i | 0 <= i < m + n
      ensures left[i] == CellAt(mem, a + i)
    {
      if i >= m {
        assert a + m + (i - m) == a + i;
      }
    }
  }
}
