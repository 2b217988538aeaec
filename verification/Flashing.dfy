/** `flash_region`: one fresh session per piece, and smaller pieces after a failure. */
module Flashing {
  import opened Results
  import opened Bytes
  import opened Nor
  import opened Bench
  import opened Bridge
  import opened Planning
  import opened Region
  import opened Writing
  import opened Sessions

  const WRITE_PIECE: nat := 0x180000
  const WRITE_PIECE_MIN: nat := 0x1000

  /** The length of the first half of a piece of n bytes. */
  function Half(n: nat): nat
  {
    (n / 2 + SECTOR_SIZE - 1) / SECTOR_SIZE * SECTOR_SIZE
  }

  /** Both halves of a piece above the minimum are nonempty, aligned and smaller. They are
      equal, or the first is one sector larger. */
  lemma HalfSplits(n: nat)
    requires Aligned(n) && n > WRITE_PIECE_MIN
    ensures 0 < Half(n) < n && Aligned(Half(n)) && Aligned(n - Half(n))
    ensures Half(n) / SECTOR_SIZE + (n - Half(n)) / SECTOR_SIZE == n / SECTOR_SIZE
    ensures Half(n) - (n - Half(n)) == 0 || Half(n) - (n - Half(n)) == 0x1000
  {
    var s := n / SECTOR_SIZE;
    var h := (n / 2 + SECTOR_SIZE - 1) / SECTOR_SIZE;
    assert n == SECTOR_SIZE * s && s >= 2;
    assert h == (s + 1) / 2;
    Multiple(h);
    Multiple(s - h);
  }

  lemma Multiple(k: nat)
    ensures Aligned(SECTOR_SIZE * k) && SECTOR_SIZE * k / SECTOR_SIZE == k
  {
  }

  lemma RestAligned(n: nat, i: nat)
    requires Aligned(n) && Aligned(i) && i <= n
    ensures Aligned(n - i) && n / SECTOR_SIZE == i / SECTOR_SIZE + (n - i) / SECTOR_SIZE
  {
    assert n == SECTOR_SIZE * (n / SECTOR_SIZE) && i == SECTOR_SIZE * (i / SECTOR_SIZE);
    Multiple(n / SECTOR_SIZE - i / SECTOR_SIZE);
  }

  // --------------------------------------------- the run, session by session

  /** What became of a piece: did it return, which session comes next, and is all
      its data in the cells? */
  datatype Pieces = Pieces(ok: bool, next: nat, stored: bool)

  /** Two bring-up RDIDs come out of the budget before write_region. */
  predicate PieceReturns(budget: nat, data: seq<byte>, p: nat)
  {
    budget >= 2 && Returns(budget - 2, data, p)
  }

  predicate PieceStored(budget: nat, data: seq<byte>, p: nat)
  {
    budget >= 2 && Stored(budget - 2, data, p)
  }

  /** The downshift in a uniform world, from session k on: a piece whose session
      does not last is halved, and each half gets its own session. */
  function Run(budget: nat -> nat, k: nat, data: seq<byte>, p: nat): (run: Pieces)
    requires Aligned(|data|)
    ensures run.next > k
    ensures !run.ok ==> !run.stored
    decreases |data|
  {
    if PieceReturns(budget(k), data, p) then Pieces(true, k + 1, PieceStored(budget(k), data, p))
    else if |data| <= WRITE_PIECE_MIN then Pieces(false, k + 1, false)
    else
      HalfSplits(|data|);
      var first := Run(budget, k + 1, data[..Half(|data|)], p);
      if !first.ok then first
      else
        var second := Run(budget, first.next, data[Half(|data|)..], p);
        Pieces(second.ok, second.next, first.stored && second.stored)
  }

  /** Every 4 KiB sector of the data has a nonzero byte. */
  predicate SectorsNonzero(data: seq<byte>)
    requires Aligned(|data|)
    decreases |data|
  {
    data == [] || (NonzeroLength(data[..SECTOR_SIZE]) > 0 && SectorsNonzero(data[SECTOR_SIZE..]))
  }

  lemma {:induction false} SectorsNonzeroJoin(a: seq<byte>, b: seq<byte>)
    requires Aligned(|a|) && Aligned(|b|)
    ensures Aligned(|a + b|)
    ensures SectorsNonzero(a + b) <==> SectorsNonzero(a) && SectorsNonzero(b)
    decreases |a|
  {
    if a == [] {
      assert a + b == b;
    } else {
      assert (a + b)[..SECTOR_SIZE] == a[..SECTOR_SIZE];
      assert (a + b)[SECTOR_SIZE..] == a[SECTOR_SIZE..] + b;
      SectorsNonzeroJoin(a[SECTOR_SIZE..], b);
    }
  }

  lemma SectorsNonzeroSplit(data: seq<byte>, h: nat)
    requires Aligned(|data|) && Aligned(h) && h <= |data|
    ensures Aligned(|data| - h)
    ensures SectorsNonzero(data) <==> SectorsNonzero(data[..h]) && SectorsNonzero(data[h..])
  {
    RestAligned(|data|, h);
    assert data == data[..h] + data[h..];
    SectorsNonzeroJoin(data[..h], data[h..]);
  }

  lemma NonzeroSomewhere(data: seq<byte>)
    requires Aligned(|data|) && data != []
    ensures SectorsNonzero(data) ==> NonzeroLength(data) > 0
  {
    if SectorsNonzero(data) {
      var n := NonzeroLength(data[..SECTOR_SIZE]);
      assert data[n - 1] == data[..SECTOR_SIZE][n - 1] != 0;
    }
  }

  lemma ReturnsStores(live: nat, data: seq<byte>, p: nat)
    requires NonzeroLength(data) > 0 && Returns(live, data, p)
    ensures Stored(live, data, p)
  {
  }

  lemma {:induction false} RunSound(budget: nat -> nat, k: nat, data: seq<byte>, p: nat)
    requires Aligned(|data|) && data != [] && SectorsNonzero(data)
    ensures Run(budget, k, data, p).ok ==> Run(budget, k, data, p).stored
    decreases |data|
  {
    NonzeroSomewhere(data);
    if PieceReturns(budget(k), data, p) {
      ReturnsStores(budget(k) - 2, data, p);
    } else if |data| > WRITE_PIECE_MIN {
      HalfSplits(|data|);
      var h := Half(|data|);
      SectorsNonzeroSplit(data, h);
      RunSound(budget, k + 1, data[..h], p);
      RunSound(budget, Run(budget, k + 1, data[..h], p).next, data[h..], p);
    }
  }

  /** A session that does not last sends a piece above the minimum to its halves. */
  lemma RunDownshifts(budget: nat -> nat, k: nat, data: seq<byte>, p: nat)
    requires Aligned(|data|) && |data| > WRITE_PIECE_MIN && !PieceReturns(budget(k), data, p)
    ensures 0 < Half(|data|) < |data| && Aligned(Half(|data|)) && Aligned(|data| - Half(|data|))
    ensures var first := Run(budget, k + 1, data[..Half(|data|)], p);
      if !first.ok then Run(budget, k, data, p) == first
      else
        var second := Run(budget, first.next, data[Half(|data|)..], p);
        Run(budget, k, data, p) == Pieces(second.ok, second.next, first.stored && second.stored)
  {
    HalfSplits(|data|);
  }

  /** A run looks only at the budgets of its own sessions. */
  lemma {:induction false} RunLocal(b1: nat -> nat, b2: nat -> nat, k: nat, data: seq<byte>, p: nat)
    requires Aligned(|data|)
    requires forall i :: k <= i < Run(b1, k, data, p).next ==> b1(i) == b2(i)
    ensures Run(b1, k, data, p) == Run(b2, k, data, p)
    decreases |data|
  {
    assert b1(k) == b2(k);
    if !PieceReturns(b1(k), data, p) && |data| > WRITE_PIECE_MIN {
      RunDownshifts(b1, k, data, p);
      RunDownshifts(b2, k, data, p);
      var h := Half(|data|);
      var first := Run(b1, k + 1, data[..h], p);
      RunLocal(b1, b2, k + 1, data[..h], p);
      if first.ok {
        RunLocal(b1, b2, first.next, data[h..], p);
      }
    }
  }

  /** A budget that any piece of the data returns on. */
  function Plenty(data: seq<byte>, p: nat): nat
  {
    2 + WriteCost(data, p)
  }

  lemma PlentyReturns(budget: nat, data: seq<byte>, p: nat)
    requires budget >= Plenty(data, p)
    ensures PieceReturns(budget, data, p)
  {
    ReadCostMonotone(NonzeroLength(data), |data|);
  }

  lemma PlentyRun(budget: nat -> nat, k: nat, data: seq<byte>, p: nat)
    requires Aligned(|data|) && budget(k) >= Plenty(data, p)
    ensures Run(budget, k, data, p).ok && Run(budget, k, data, p).next == k + 1
  {
    PlentyReturns(budget(k), data, p);
  }

  /** If some sector is all zero, some budgets let the run return with the data not
      in the cells: every session dies at once until the piece is that sector, and
      that session dies right after its erase. */
  lemma {:induction false} RunEscapes(k: nat, data: seq<byte>, p: nat) returns (budget: nat -> nat)
    requires Aligned(|data|) && data != [] && !SectorsNonzero(data)
    ensures Run(budget, k, data, p).ok && !Run(budget, k, data, p).stored
    decreases |data|
  {
    if |data| <= WRITE_PIECE_MIN {
      assert data[..SECTOR_SIZE] == data && data[SECTOR_SIZE..] == [];
      assert NonzeroLength(data) == 0;
      ProductBound(1, p);
      budget := _ => 2 + EraseCost(1, p);
    } else {
      HalfSplits(|data|);
      SectorsNonzeroSplit(data, Half(|data|));
      if !SectorsNonzero(data[..Half(|data|)]) {
        var b1 := RunEscapes(k + 1, data[..Half(|data|)], p);
        budget := EscapeByFirst(b1, k, data, p);
      } else {
        var b2 := RunEscapes(k + 2, data[Half(|data|)..], p);
        budget := EscapeBySecond(b2, k, data, p);
      }
    }
  }

  lemma EscapeByFirst(b1: nat -> nat, k: nat, data: seq<byte>, p: nat) returns (budget: nat -> nat)
    requires Aligned(|data|) && |data| > WRITE_PIECE_MIN && Aligned(Half(|data|)) && Half(|data|) <= |data|
    requires Run(b1, k + 1, data[..Half(|data|)], p).ok && !Run(b1, k + 1, data[..Half(|data|)], p).stored
    ensures Run(budget, k, data, p).ok && !Run(budget, k, data, p).stored
  {
    var j := Run(b1, k + 1, data[..Half(|data|)], p).next;
    var enough := Plenty(data[Half(|data|)..], p);
    budget := i => if i <= k then 0 else if i < j then b1(i) else enough;
    FirstEscapes(b1, budget, k, data, p);
  }

  lemma FirstEscapes(b1: nat -> nat, budget: nat -> nat, k: nat, data: seq<byte>, p: nat)
    requires Aligned(|data|) && |data| > WRITE_PIECE_MIN && Aligned(Half(|data|)) && Half(|data|) <= |data|
    requires var first := Run(b1, k + 1, data[..Half(|data|)], p);
      && first.ok && !first.stored && budget(k) == 0
      && (forall i :: k < i < first.next ==> b1(i) == budget(i))
      && budget(first.next) >= Plenty(data[Half(|data|)..], p)
    ensures Run(budget, k, data, p).ok && !Run(budget, k, data, p).stored
  {
    RunLocal(b1, budget, k + 1, data[..Half(|data|)], p);
    HalfSplits(|data|);
    PlentyRun(budget, Run(b1, k + 1, data[..Half(|data|)], p).next, data[Half(|data|)..], p);
    RunDownshifts(budget, k, data, p);
  }

  lemma EscapeBySecond(b2: nat -> nat, k: nat, data: seq<byte>, p: nat) returns (budget: nat -> nat)
    requires Aligned(|data|) && |data| > WRITE_PIECE_MIN && Aligned(|data| - Half(|data|)) && Half(|data|) <= |data|
    requires Run(b2, k + 2, data[Half(|data|)..], p).ok && !Run(b2, k + 2, data[Half(|data|)..], p).stored
    ensures Run(budget, k, data, p).ok && !Run(budget, k, data, p).stored
  {
    var enough := Plenty(data[..Half(|data|)], p);
    budget := i => if i <= k then 0 else if i == k + 1 then enough else b2(i);
    SecondEscapes(b2, budget, k, data, p);
  }

  lemma SecondEscapes(b2: nat -> nat, budget: nat -> nat, k: nat, data: seq<byte>, p: nat)
    requires Aligned(|data|) && |data| > WRITE_PIECE_MIN && Aligned(|data| - Half(|data|)) && Half(|data|) <= |data|
    requires var second := Run(b2, k + 2, data[Half(|data|)..], p);
      && second.ok && !second.stored && budget(k) == 0 && budget(k + 1) >= Plenty(data[..Half(|data|)], p)
      && forall i :: k + 2 <= i < second.next ==> b2(i) == budget(i)
    ensures Run(budget, k, data, p).ok && !Run(budget, k, data, p).stored
  {
    RunLocal(b2, budget, k + 2, data[Half(|data|)..], p);
    HalfSplits(|data|);
    PlentyRun(budget, k + 1, data[..Half(|data|)], p);
    RunDownshifts(budget, k, data, p);
  }

  /** The downshift is sound for every choice of death points exactly when every
      sector has a nonzero byte. */
  lemma RunSoundIff(data: seq<byte>, p: nat)
    requires Aligned(|data|) && data != []
    ensures (forall budget: nat -> nat, k: nat ::
               Run(budget, k, data, p).ok ==> Run(budget, k, data, p).stored)
            <==> SectorsNonzero(data)
  {
    if SectorsNonzero(data) {
      forall budget: nat -> nat, k: nat
        ensures Run(budget, k, data, p).ok ==> Run(budget, k, data, p).stored
      {
        RunSound(budget, k, data, p);
      }
    } else {
      var budget := RunEscapes(0, data, p);
      assert Run(budget, 0, data, p).ok && !Run(budget, 0, data, p).stored;
    }
  }

  /** A session that lasts m sectors: what they cost, bring-up included. */
  function PieceBudget(m: nat, p: nat): nat
  {
    2 + ProgramCost(m, p) + ReadCost(SECTOR_SIZE * m)
  }

  lemma PieceBudgetMonotone(m: nat, n: nat, p: nat)
    requires m <= n
    ensures PieceBudget(m, p) <= PieceBudget(n, p)
  {
    TimesMonotone(m, n, 5 + p);
    TimesMonotone(80 * m, 80 * n, 2 + p);
    PhaseCosts(m, p);
    PhaseCosts(n, p);
    ReadCostMonotone(SECTOR_SIZE * m, SECTOR_SIZE * n);
  }

  lemma PieceBudgetIsPlenty(data: seq<byte>, p: nat)
    requires Aligned(|data|)
    ensures PieceBudget(Sectors(data), p) == Plenty(data, p)
  {
    assert |data| == SECTOR_SIZE * Sectors(data);
  }

  /** What one sector costs, bring-up included. */
  function SectorBudget(p: nat): nat
  {
    2 + 2 + (5 + p) + 80 * (2 + p) + 67
  }

  lemma SectorIsEnough(data: seq<byte>, p: nat)
    ensures |data| == SECTOR_SIZE ==> Plenty(data, p) == SectorBudget(p)
  {
    assert ReadCost(SECTOR_SIZE) == 67;
  }

  lemma SectorReturns(budget: nat, data: seq<byte>, p: nat)
    requires Aligned(|data|) && data != [] && |data| <= WRITE_PIECE_MIN && budget >= SectorBudget(p)
    ensures PieceReturns(budget, data, p)
  {
    SectorIsEnough(data, p);
    PlentyReturns(budget, data, p);
  }

  /** If every session lasts one sector, the downshift always returns. */
  lemma {:induction false} RunProgress(budget: nat -> nat, k: nat, data: seq<byte>, p: nat)
    requires Aligned(|data|) && data != []
    requires forall i :: i >= k ==> budget(i) >= SectorBudget(p)
    ensures Run(budget, k, data, p).ok
    decreases |data|
  {
    if |data| <= WRITE_PIECE_MIN {
      SectorReturns(budget(k), data, p);
    } else {
      HalfSplits(|data|);
      var h := Half(|data|);
      RunProgress(budget, k + 1, data[..h], p);
      RunProgress(budget, Run(budget, k + 1, data[..h], p).next, data[h..], p);
    }
  }

  /** A piece of n sectors takes at most 2n - 1 sessions. */
  lemma {:induction false} RunSessions(budget: nat -> nat, k: nat, data: seq<byte>, p: nat)
    requires Aligned(|data|) && data != []
    ensures Run(budget, k, data, p).next - k <= 2 * Sectors(data) - 1
    decreases |data|
  {
    if !PieceReturns(budget(k), data, p) && |data| > WRITE_PIECE_MIN {
      HalfSplits(|data|);
      var h := Half(|data|);
      RunSessions(budget, k + 1, data[..h], p);
      RunSessions(budget, Run(budget, k + 1, data[..h], p).next, data[h..], p);
    }
  }

  // ------------------------------------------------------ the flasher itself

  /** From b0 to b1 at most n sessions were begun, all of them were torn down, and
      no two of them were open together. */
  predicate Balanced(b0: Board, b1: Board, n: nat)
  {
    && b0.ended <= b0.begun <= b1.begun <= b0.begun + n
    && b1.begun - b1.ended == b0.begun - b0.ended
    && b1.peak <= Max(b0.peak, b0.begun - b0.ended + 1)
  }

  /** A piece of minimum size inside [lo, hi) could not be written. */
  predicate PieceError(e: Error, lo: nat, hi: nat)
  {
    e.Fatal? ==> e.why.MinPiece? && lo <= e.why.at < hi
  }

  /** From here on nothing but the session budgets can make a read fail. */
  ghost predicate Undisturbed(w: World, b: Board, abortEvery: int)
  {
    Quiet(w, b) && abortEvery != 0 && forall k :: k >= b.begun ==> w.start(k) == Up
  }

  /** ... or a piece. */
  ghost predicate Calm(w: World, b: Board, abortEvery: int)
  {
    Undisturbed(w, b, abortEvery) && b.chip.Honours()
  }

  /** ... and every session lasts one sector. */
  ghost predicate Lasting(w: World, b: Board, abortEvery: int)
  {
    Calm(w, b, abortEvery) && forall k :: k >= b.begun ==> w.budget(k) >= SectorBudget(w.slowest)
  }

  lemma CalmLater(w: World, b: Board, b': Board, abortEvery: int)
    requires b.clock <= b'.clock && b.begun <= b'.begun && b'.chip.Honours() == b.chip.Honours()
    ensures Calm(w, b, abortEvery) ==> Calm(w, b', abortEvery)
    ensures Lasting(w, b, abortEvery) ==> Lasting(w, b', abortEvery)
    ensures Crashes(w, b', abortEvery) ==> Crashes(w, b, abortEvery)
  {
  }

  /** The ways to an exception that is not a FatalError: abort_every is 0, a poll of the
      AP console raises, or a session's steps before the bridge do. */
  ghost predicate Crashes(w: World, b: Board, abortEvery: int)
  {
    abortEvery == 0 || Deaf(w, b.clock) || exists k :: k >= b.begun && w.start(k) == Crashed
  }

  /** What the guard makes of the first transaction after bring-up, the session's third. */
  function FirstPoll(w: World, b: Board, abortEvery: int): Option<Error>
  {
    if abortEvery == 0 then Some(Crash)
    else if 3 % abortEvery != 0 then None
    else if w.deaf(b.clock + 2) then Some(Crash)
    else if w.ap(b.clock + 2) then Some(Fatal(ApWoke))
    else None
  }

  /** The next session comes up and its guard refuses the first transaction. */
  predicate RefusedAtOnce(w: World, b: Board, abortEvery: int)
  {
    ComesUp(w, b) && w.budget(b.begun) >= 2 && FirstPoll(w, b, abortEvery).Some?
  }

  /** Two RDIDs and the refused transaction, unless its number could not be divided. */
  function RefusedClock(b: Board, abortEvery: int): nat
  {
    b.clock + if abortEvery == 0 then 2 else 3
  }

  /** A FatalError, which the handler takes. */
  predicate Caught(r: Result<()>)
  {
    r.Err? && r.error.Fatal?
  }

  /** `first` and `after` are the outcome of the first session and the board after it.
      A FatalError in it ends the run exactly if the piece has minimum size. */
  ghost predicate FirstSession(b0: Board, after: Board, b: Board, first: Result<()>, n: nat)
  {
    && after.begun == b0.begun + 1 && b0.clock <= after.clock <= b.clock && after.begun <= b.begun
    && after.chip.Honours() == b0.chip.Honours()
    && (Caught(first) ==> (b.begun == after.begun <==> n <= WRITE_PIECE_MIN))
  }

  /** The first session failed with a FatalError, the piece is larger than the minimum,
      and what comes after that session is calm and lasts. */
  ghost predicate Recovers(w: World, after: Board, abortEvery: int, first: Result<()>, n: nat)
  {
    Caught(first) && n > WRITE_PIECE_MIN && Lasting(w, after, abortEvery)
  }

  /** A calm session that lasts m sectors is one session, and it flashes the piece. */
  ghost predicate OneSession(w: World, b0: Board, b: Board, abortEvery: int, m: nat, r: Result<()>)
  {
    Calm(w, b0, abortEvery) && w.budget(b0.begun) >= PieceBudget(m, w.slowest) ==> r.Ok? && b.begun == b0.begun + 1
  }

  /** Two calm sessions that last m and m' sectors. */
  ghost predicate LastTwo(w: World, b: Board, abortEvery: int, m: nat, m': nat)
  {
    && Calm(w, b, abortEvery)
    && w.budget(b.begun) >= PieceBudget(m, w.slowest) && w.budget(b.begun + 1) >= PieceBudget(m', w.slowest)
  }

  /** The downshift halves: when the first session on n bytes, more than one sector, has
      failed and the next two last half of the sectors each, rounded up, then these three
      flash the piece. */
  ghost predicate ThreeSessions(w: World, after: Board, b: Board, abortEvery: int, first: Result<()>, n: nat, r: Result<()>)
  {
    Caught(first) && n > 0x1000 && LastTwo(w, after, abortEvery, (n / 0x1000 + 1) / 2, (n / 0x1000 + 1) / 2) ==>
      r.Ok? && b.begun == after.begun + 2
  }

  lemma HalvesLast(w: World, b: Board, abortEvery: int, n: nat)
    requires Aligned(n) && n > WRITE_PIECE_MIN
    ensures Half(n) <= n
    ensures LastTwo(w, b, abortEvery, (n / 0x1000 + 1) / 2, (n / 0x1000 + 1) / 2) ==>
      LastTwo(w, b, abortEvery, Half(n) / SECTOR_SIZE, (n - Half(n)) / SECTOR_SIZE)
  {
    HalfSplits(n);
    PieceBudgetMonotone(Half(n) / SECTOR_SIZE, (n / 0x1000 + 1) / 2, w.slowest);
    PieceBudgetMonotone((n - Half(n)) / SECTOR_SIZE, (n / 0x1000 + 1) / 2, w.slowest);
  }

  /** What the first session of a call on n bytes at `at` decides. A region of one sector
      ends with its FatalError, the guard's too; a larger one recovers if what comes after
      is calm and lasts. */
  ghost predicate FirstOutcome(w: World, b0: Board, after: Board, b: Board, abortEvery: int,
                               at: nat, first: Result<()>, n: nat, r: Result<()>)
  {
    && FirstSession(b0, after, b, first, n)
    && (first == Err(Crash) ==> r == first)
    && (Caught(first) && n <= WRITE_PIECE_MIN ==> r == Err(Fatal(MinPiece(at, first.error.why))))
    && (Recovers(w, after, abortEvery, first, n) ==> r.Ok?)
    && (RefusedAtOnce(w, b0, abortEvery) ==>
          first == Err(FirstPoll(w, b0, abortEvery).value) && after.clock == RefusedClock(b0, abortEvery))
  }

  /** The first piece's outcome is the region's. */
  lemma OutcomeGrows(w: World, b0: Board, after: Board, b: Board, b': Board, abortEvery: int,
                     at: nat, first: Result<()>, n: nat, total: nat, r: Result<()>, r': Result<()>)
    requires FirstOutcome(w, b0, after, b, abortEvery, at, first, n, r)
    requires n <= WRITE_PIECE_MIN <==> total <= WRITE_PIECE_MIN
    requires b.clock <= b'.clock && b.begun <= b'.begun
    requires r == r' || (r.Ok? && (Recovers(w, after, abortEvery, first, n) ==> r'.Ok?))
    requires r.Err? ==> b' == b
    ensures FirstOutcome(w, b0, after, b', abortEvery, at, first, total, r')
  {
  }

  /** Every choice of death points is that of some uniform world, so a statement
      about all budgets is one about runs. */
  lemma BudgetsHappen(budget: nat -> nat, p: nat, b: Board, abortEvery: int) returns (w: World)
    requires p >= 1 && b.chip.Honours() && abortEvery != 0
    ensures Calm(w, b, abortEvery) && Uniform(w, b) && w.budget == budget && w.slowest == p
  {
    w := World(_ => Up, budget, _ => Clean, _ => false, _ => false, _ => false, _ => p - 1, _ => p, _ => 0, p, 0);
    assert forall t :: Smooth(w, t);
  }

  lemma HoldsJoin(mem: seq<byte>, a: nat, data: seq<byte>, h: nat)
    requires h <= |data| && a + |data| <= |mem|
    ensures Holds(mem, a, data) <==> Holds(mem, a, data[..h]) && Holds(mem, a + h, data[h..])
  {
    if Holds(mem, a, data[..h]) && Holds(mem, a + h, data[h..]) {
      forall i {:trigger mem[i]} | a <= i < a + |data|
        ensures mem[i] == data[i - a]
      {
        if i < a + h {
          assert mem[i] == data[..h][i - a];
        } else {
          assert mem[i] == data[h..][i - (a + h)];
        }
      }
    }
  }

  lemma HoldsKept(m0: seq<byte>, m1: seq<byte>, a: nat, data: seq<byte>, lo: nat, hi: nat)
    requires Kept(m0, m1, lo, hi) && a + |data| <= |m0| && a + |data| <= lo
    ensures Holds(m1, a, data) <==> Holds(m0, a, data)
  {
    if Holds(m1, a, data) {
      forall i {:trigger m0[i]} | a <= i < a + |data|
        ensures m0[i] == data[i - a]
      {
        assert m1[i] == m0[i];
      }
    }
  }

  lemma SpliceHolds(m0: seq<byte>, m1: seq<byte>, a: nat, data: seq<byte>)
    requires a + |data| <= |m0| && Kept(m0, m1, a, a + |data|)
    ensures m1 == Splice(m0, a, data) <==> Holds(m1, a, data)
  {
    if Holds(m1, a, data) {
      forall i | 0 <= i < |m1|
        ensures m1[i] == Splice(m0, a, data)[i]
      {
      }
    }
  }

  /** The outcome of one attempt is what its session's budget says. */
  ghost predicate FollowsBudget(w: World, b0: Board, b1: Board, po: nat, data: seq<byte>, ok: bool)
  {
    && (ok <==> PieceReturns(w.budget(b0.begun), data, w.slowest))
    && (ok ==> (Holds(b1.chip.mem, po, data) <==> PieceStored(w.budget(b0.begun), data, w.slowest)))
  }

  /** No data, or data that is in the cells. */
  ghost predicate Stands(mem: seq<byte>, a: nat, data: seq<byte>)
  {
    data == [] || Holds(mem, a, data)
  }

  /** What is seen of a piece when its call is over, in the terms of a run. */
  ghost function Seen(b: Board, a: nat, data: seq<byte>, ok: bool): Pieces
  {
    Pieces(ok, b.begun, ok && Stands(b.chip.mem, a, data))
  }

  /** The outcome of a halved piece is what the run says. */
  ghost predicate FollowsHalves(w: World, b0: Board, b1: Board, po: nat, data: seq<byte>, half: nat, ok: bool)
    requires half <= |data| && Aligned(half) && Aligned(|data| - half)
  {
    var first := Run(w.budget, b0.begun, data[..half], w.slowest);
    var second := Run(w.budget, first.next, data[half..], w.slowest);
    Seen(b1, po, data, ok) ==
    if first.ok then Pieces(second.ok, second.next, first.stored && second.stored) else first
  }

  lemma FollowsAttempt(w: World, b0: Board, b1: Board, po: nat, data: seq<byte>, ok: bool)
    requires Aligned(|data|) && FollowsBudget(w, b0, b1, po, data, ok) && b1.begun == b0.begun + 1
    requires ok || |data| <= WRITE_PIECE_MIN
    ensures Seen(b1, po, data, ok) == Run(w.budget, b0.begun, data, w.slowest)
  {
  }

  lemma FollowsRetry(w: World, b0: Board, b1: Board, b2: Board, po: nat, data: seq<byte>, ok: bool)
    requires Aligned(|data|) && |data| > WRITE_PIECE_MIN && b1.begun == b0.begun + 1
    requires FollowsBudget(w, b0, b1, po, data, false)
    requires Half(|data|) <= |data| && Aligned(Half(|data|)) && Aligned(|data| - Half(|data|))
    requires FollowsHalves(w, b1, b2, po, data, Half(|data|), ok)
    ensures Seen(b2, po, data, ok) == Run(w.budget, b0.begun, data, w.slowest)
  {
  }

  lemma FollowsBoth(w: World, b0: Board, b1: Board, b2: Board, po: nat, data: seq<byte>, half: nat, ok: bool)
    requires half <= |data| && Aligned(half) && Aligned(|data| - half) && po + |data| <= |b1.chip.mem|
    requires Seen(b1, po, data[..half], true) == Run(w.budget, b0.begun, data[..half], w.slowest)
    requires Seen(b2, po + half, data[half..], ok) == Run(w.budget, b1.begun, data[half..], w.slowest)
    requires Kept(b1.chip.mem, b2.chip.mem, po + half, po + |data|)
    ensures FollowsHalves(w, b0, b2, po, data, half, ok)
  {
    HalvesHold(b1.chip.mem, b2.chip.mem, po, data, half);
  }

  /** No data, or data that is in the cells up to the piece that could not be written. */
  ghost predicate PrefixStored(mem: seq<byte>, a: nat, data: seq<byte>, e: Error)
  {
    e.Fatal? && e.why.MinPiece? && a <= e.why.at <= a + |data| ==> Stands(mem, a, data[..e.why.at - a])
  }

  /** What a call on a piece has done, in every world: only the piece has changed, at
      most n sessions were opened, and with a nonzero byte in every sector the data is
      stored, or all of it before the minimum-size piece that failed. */
  ghost predicate Safe(b0: Board, b: Board, po: nat, data: seq<byte>, r: Result<()>, n: nat)
    requires Aligned(|data|)
  {
    && Touched(b0, b, po, po + |data|) && (!b0.chip.Honours() ==> Touched(b0, b, 0, 0))
    && Balanced(b0, b, n)
    && (r.Err? ==> PieceError(r.error, po, po + |data|))
    && (!b0.chip.Complemented() && SectorsNonzero(data) ==>
          if r.Ok? then Holds(b.chip.mem, po, data) else PrefixStored(b.chip.mem, po, data, r.error))
  }

  /** What one session on a piece has done. */
  ghost predicate AttemptOutcome(w: World, b0: Board, b: Board, abortEvery: int, po: nat, data: seq<byte>, r: Result<()>)
  {
    && Touched(b0, b, po, po + |data|) && (!b0.chip.Honours() ==> Touched(b0, b, 0, 0))
    && Balanced(b0, b, 1) && b.begun == b0.begun + 1
    && (r.Ok? && !b0.chip.Complemented() && NonzeroLength(data) > 0 ==> Holds(b.chip.mem, po, data))
    && (Calm(w, b0, abortEvery) && w.budget(b0.begun) >= Plenty(data, w.slowest) ==> r.Ok?)
    && (r == Err(Crash) ==> Crashes(w, b0, abortEvery))
    && (RefusedAtOnce(w, b0, abortEvery) ==>
          r == Err(FirstPoll(w, b0, abortEvery).value) && b.clock == RefusedClock(b0, abortEvery))
    && (Calm(w, b0, abortEvery) && Uniform(w, b0) ==> FollowsBudget(w, b0, b, po, data, r.Ok?))
  }

  /** What the handler has done with a piece larger than the minimum. */
  ghost predicate HandlerOutcome(w: World, b0: Board, b: Board, abortEvery: int, po: nat, data: seq<byte>,
                                 half: nat, r: Result<()>)
    requires Aligned(|data|) && half <= |data| && Aligned(half) && Aligned(|data| - half) && Sectors(data) >= 1
  {
    && Safe(b0, b, po, data, r, 2 * Sectors(data) - 2) && b.begun > b0.begun
    && (r == Err(Crash) ==> Crashes(w, b0, abortEvery))
    && (Lasting(w, b0, abortEvery) ==> r.Ok?)
    && (LastTwo(w, b0, abortEvery, half / SECTOR_SIZE, (|data| - half) / SECTOR_SIZE) ==>
          r.Ok? && b.begun == b0.begun + 2)
    && (Calm(w, b0, abortEvery) && Uniform(w, b0) ==> FollowsHalves(w, b0, b, po, data, half, r.Ok?))
  }

  /** What `do` guarantees of a piece. */
  ghost predicate PieceOutcome(w: World, b0: Board, b: Board, abortEvery: int, po: nat, data: seq<byte>,
                               r: Result<()>, first: Result<()>, after: Board)
    requires Aligned(|data|) && Sectors(data) >= 1
  {
    && Safe(b0, b, po, data, r, 2 * Sectors(data) - 1)
    && FirstOutcome(w, b0, after, b, abortEvery, po, first, |data|, r) && (!Caught(first) ==> r == first)
    && (r == Err(Crash) ==> Crashes(w, b0, abortEvery))
    && (Lasting(w, b0, abortEvery) ==> r.Ok?)
    && OneSession(w, b0, b, abortEvery, Sectors(data), r)
    && ThreeSessions(w, after, b, abortEvery, first, |data|, r)
    && (Calm(w, b0, abortEvery) && Uniform(w, b0) ==>
          Seen(b, po, data, r.Ok?) == Run(w.budget, b0.begun, data, w.slowest))
  }

  /** From the opened session at b1 through write_region to its teardown. */
  lemma AttemptMade(w: World, b0: Board, b1: Board, b2: Board, abortEvery: int, po: nat, data: seq<byte>,
                    steady: bool, r: Result<()>)
    requires Touched(b0, b1, 0, 0) && b1.begun == b0.begun + 1 && b1.ended == b0.ended && b0.ended <= b0.begun
    requires b1.peak <= Max(b0.peak, b0.begun + 1 - b0.ended) && w.budget(b0.begun) == b1.live + 2
    requires b1.Valid() && po + |data| <= FLASH_SIZE && Aligned(po) && Aligned(|data|) && data != []
    requires Worked(w, b1, b2, po, po + |data|) && WriteOutcome(w, b1, b2, steady, po, data, r)
    requires Calm(w, b0, abortEvery) ==> steady
    requires r == Err(Crash) ==> Crashes(w, b1, abortEvery)
    requires RefusedAtOnce(w, b0, abortEvery) ==>
      r == Err(FirstPoll(w, b0, abortEvery).value) && b2.clock == RefusedClock(b0, abortEvery)
    ensures AttemptOutcome(w, b0, End(b2), abortEvery, po, data, r)
  {
    TouchedWiden(b0, b1, 0, 0, po, po + |data|);
    TouchedTrans(b0, b1, b2, po, po + |data|, po, po + |data|);
    if !b0.chip.Honours() {
      TouchedTrans(b0, b1, b2, 0, 0, 0, 0);
    }
    SpliceHolds(b1.chip.mem, b2.chip.mem, po, data);
    CalmLater(w, b0, b1, abortEvery);
  }

  /** A fresh session, write_region in it, and the teardown on every path. */
  method Attempt(rig: Rig, abortEvery: int, po: nat, data: seq<byte>) returns (r: Result<()>)
    requires rig.now.Valid() && po + |data| <= FLASH_SIZE && Aligned(po) && Aligned(|data|) && data != []
    modifies rig
    ensures AttemptOutcome(rig.world, old(rig.now), rig.now, abortEvery, po, data, r)
  {
    ghost var b0 := rig.now;
    var session := NewSession(rig, abortEvery);
    ghost var b1 := rig.now;
    if session.Err? {
      TouchedWiden(b0, b1, 0, 0, po, po + |data|);
      return Err(session.error);
    }
    ghost var steady := session.value.bridge.Steady();
    r := WriteRegion(session.value.bridge, po, data);
    AttemptMade(rig.world, b0, b1, rig.now, abortEvery, po, data, steady, r);
    session.value.Teardown();
  }

  lemma PieceBasics(data: seq<byte>, p: nat)
    requires Aligned(|data|) && data != []
    ensures Sectors(data) >= 1
    ensures SectorsNonzero(data) ==> NonzeroLength(data) > 0
    ensures |data| <= WRITE_PIECE_MIN ==> Plenty(data, p) == SectorBudget(p)
    ensures PieceBudget(Sectors(data), p) == Plenty(data, p)
  {
    NonzeroSomewhere(data);
    SectorIsEnough(data, p);
    PieceBudgetIsPlenty(data, p);
  }

  /** An attempt that the handler does not take is the piece's outcome. */
  lemma AttemptEnds(w: World, b0: Board, b: Board, abortEvery: int, po: nat, data: seq<byte>, r: Result<()>)
    requires Aligned(|data|) && data != [] && Sectors(data) >= 1 && !Caught(r)
    requires AttemptOutcome(w, b0, b, abortEvery, po, data, r)
    ensures PieceOutcome(w, b0, b, abortEvery, po, data, r, r, b)
  {
    PieceBasics(data, w.slowest);
    if Calm(w, b0, abortEvery) && Uniform(w, b0) && r.Ok? {
      FollowsAttempt(w, b0, b, po, data, true);
    }
  }

  /** A minimum-size piece is given up. */
  lemma GivenUp(w: World, b0: Board, b: Board, abortEvery: int, po: nat, data: seq<byte>, first: Result<()>)
    requires Aligned(|data|) && data != [] && Sectors(data) >= 1 && Caught(first) && |data| <= WRITE_PIECE_MIN
    requires AttemptOutcome(w, b0, b, abortEvery, po, data, first)
    ensures PieceOutcome(w, b0, b, abortEvery, po, data, Err(Fatal(MinPiece(po, first.error.why))), first, b)
  {
    PieceBasics(data, w.slowest);
    assert data[..0] == [];
    if Calm(w, b0, abortEvery) && Uniform(w, b0) {
      FollowsAttempt(w, b0, b, po, data, false);
    }
  }

  /** How many sessions a larger one takes when they last. */
  lemma HandlerLasts(w: World, b0: Board, b1: Board, b2: Board, abortEvery: int, data: seq<byte>, first: Result<()>,
                     r: Result<()>)
    requires Aligned(|data|) && Caught(first) && |data| > WRITE_PIECE_MIN && Half(|data|) <= |data|
    requires Calm(w, b0, abortEvery) && w.budget(b0.begun) >= Plenty(data, w.slowest) ==> first.Ok?
    requires LastTwo(w, b1, abortEvery, Half(|data|) / SECTOR_SIZE, (|data| - Half(|data|)) / SECTOR_SIZE) ==>
      r.Ok? && b2.begun == b1.begun + 2
    ensures OneSession(w, b0, b2, abortEvery, Sectors(data), r)
    ensures ThreeSessions(w, b1, b2, abortEvery, first, |data|, r)
  {
    PieceBudgetIsPlenty(data, w.slowest);
    HalvesLast(w, b1, abortEvery, |data|);
  }

  /** A larger one has its two halves' outcome. */
  lemma HandlerEnds(w: World, b0: Board, b1: Board, b2: Board, abortEvery: int, po: nat, data: seq<byte>, half: nat,
                    first: Result<()>, r: Result<()>)
    requires Aligned(|data|) && Sectors(data) >= 1 && Caught(first) && |data| > WRITE_PIECE_MIN
    requires half == Half(|data|) <= |data| && Aligned(half) && Aligned(|data| - half)
    requires AttemptOutcome(w, b0, b1, abortEvery, po, data, first)
    requires HandlerOutcome(w, b1, b2, abortEvery, po, data, half, r)
    ensures PieceOutcome(w, b0, b2, abortEvery, po, data, r, first, b1)
  {
    SafeAfter(b0, b1, b2, po, data, r);
    CalmLater(w, b0, b1, abortEvery);
    HandlerLasts(w, b0, b1, b2, abortEvery, data, first, r);
    if Calm(w, b0, abortEvery) && Uniform(w, b0) {
      FollowsRetry(w, b0, b1, b2, po, data, r.Ok?);
    }
  }

  /** `do`: a piece in a fresh session; after a FatalError, its two halves. Other
      exceptions are not caught, and a minimum-size piece is not split. `first` and
      `after` tell how its first session ended. */
  method Do(rig: Rig, abortEvery: int, po: nat, data: seq<byte>)
    returns (r: Result<()>, ghost first: Result<()>, ghost after: Board)
    requires rig.now.Valid() && po + |data| <= FLASH_SIZE && Aligned(po) && Aligned(|data|) && data != []
    modifies rig
    ensures Sectors(data) >= 1 && PieceOutcome(rig.world, old(rig.now), rig.now, abortEvery, po, data, r, first, after)
    decreases |data|, 2
  {
    ghost var b0, w := rig.now, rig.world;
    PieceBasics(data, w.slowest);
    var attempt := Attempt(rig, abortEvery, po, data);
    first, after := attempt, rig.now;
    if attempt.Ok? || attempt.error == Crash {
      AttemptEnds(w, b0, after, abortEvery, po, data, attempt);
      return attempt, first, after;
    }
    r := Retry(rig, abortEvery, po, data, attempt.error.why);
    if |data| <= WRITE_PIECE_MIN {
      GivenUp(w, b0, after, abortEvery, po, data, first);
    } else {
      HalfSplits(|data|);
      HandlerEnds(w, b0, after, rig.now, abortEvery, po, data, Half(|data|), first, r);
    }
  }

  /** The attempt that failed, and then the handler. */
  lemma SafeAfter(b0: Board, b1: Board, b2: Board, po: nat, data: seq<byte>, r: Result<()>)
    requires Aligned(|data|) && Sectors(data) >= 1
    requires Touched(b0, b1, po, po + |data|) && (!b0.chip.Honours() ==> Touched(b0, b1, 0, 0)) && Balanced(b0, b1, 1)
    requires Safe(b1, b2, po, data, r, 2 * Sectors(data) - 2)
    ensures Safe(b0, b2, po, data, r, 2 * Sectors(data) - 1)
  {
    TouchedTrans(b0, b1, b2, po, po + |data|, po, po + |data|);
    if !b0.chip.Honours() {
      TouchedTrans(b0, b1, b2, 0, 0, 0, 0);
    }
    BalancedTrans(b0, b1, b2, 1, 2 * Sectors(data) - 2, 2 * Sectors(data) - 1);
  }

  /** The handler: a minimum-size piece is given up, a larger one is halved. */
  method Retry(rig: Rig, abortEvery: int, po: nat, data: seq<byte>, why: Fault) returns (r: Result<()>)
    requires rig.now.Valid() && po + |data| <= FLASH_SIZE && Aligned(po) && Aligned(|data|) && data != []
    modifies rig
    ensures |data| <= WRITE_PIECE_MIN ==> r == Err(Fatal(MinPiece(po, why))) && rig.now == old(rig.now)
    ensures |data| > WRITE_PIECE_MIN ==>
      (HalfSplits(|data|);
       HandlerOutcome(rig.world, old(rig.now), rig.now, abortEvery, po, data, Half(|data|), r))
    decreases |data|, 1
  {
    if |data| <= WRITE_PIECE_MIN {
      return Err(Fatal(MinPiece(po, why)));
    }
    HalfSplits(|data|);
    r := Halves(rig, abortEvery, po, data, Half(|data|));
  }

  /** The handler's two calls, one after the other. */
  method Halves(rig: Rig, abortEvery: int, po: nat, data: seq<byte>, half: nat) returns (r: Result<()>)
    requires rig.now.Valid() && po + |data| <= FLASH_SIZE && Aligned(po) && Aligned(|data|)
    requires 0 < half < |data| && Aligned(half) && Aligned(|data| - half)
    requires half / SECTOR_SIZE + (|data| - half) / SECTOR_SIZE == Sectors(data)
    modifies rig
    ensures Sectors(data) >= 1 && HandlerOutcome(rig.world, old(rig.now), rig.now, abortEvery, po, data, half, r)
    decreases |data|, 0
  {
    ghost var b0, w := rig.now, rig.world;
    ghost var first, after;
    EndAligned(po, half);
    r, first, after := Do(rig, abortEvery, po, data[..half]);
    ghost var b1 := rig.now;
    FirstHalf(b0, b1, po, data, half, r);
    if r.Err? {
      FirstFails(w, b0, b1, abortEvery, po, data, half, r, first, after);
      return;
    }
    r, first, after := Do(rig, abortEvery, po + half, data[half..]);
    HalvesEnd(w, b0, b1, rig.now, abortEvery, po, data, half, r);
  }

  lemma FirstFails(w: World, b0: Board, b1: Board, abortEvery: int, po: nat, data: seq<byte>, half: nat,
                   r: Result<()>, first: Result<()>, after: Board)
    requires 0 < half < |data| && Aligned(half) && Aligned(|data| - half) && Aligned(|data|) && r.Err?
    requires half / SECTOR_SIZE >= 1 && Sectors(data) >= 1 && Safe(b0, b1, po, data, r, 2 * Sectors(data) - 2)
    requires PieceOutcome(w, b0, b1, abortEvery, po, data[..half], r, first, after)
    ensures HandlerOutcome(w, b0, b1, abortEvery, po, data, half, r)
  {
  }

  /** What is common to the two calls' outcomes, and what the handler adds. */
  lemma HalvesEnd(w: World, b0: Board, b1: Board, b2: Board, abortEvery: int, po: nat, data: seq<byte>, half: nat,
                  r: Result<()>)
    requires 0 < half < |data| && Aligned(half) && Aligned(|data| - half) && Aligned(|data|) && Sectors(data) >= 1
    requires half / SECTOR_SIZE + (|data| - half) / SECTOR_SIZE == Sectors(data)
    requires b1.Valid() && po + |data| <= FLASH_SIZE && b1.begun > b0.begun
    requires Safe(b0, b1, po, data[..half], Ok(()), 2 * (half / SECTOR_SIZE) - 1)
    requires Safe(b1, b2, po + half, data[half..], r, 2 * ((|data| - half) / SECTOR_SIZE) - 1)
    requires r == Err(Crash) ==> Crashes(w, b1, abortEvery)
    requires Lasting(w, b1, abortEvery) ==> r.Ok?
    requires OneSession(w, b0, b1, abortEvery, half / SECTOR_SIZE, Ok(()))
    requires OneSession(w, b1, b2, abortEvery, (|data| - half) / SECTOR_SIZE, r)
    requires Calm(w, b0, abortEvery) && Uniform(w, b0) ==>
      Seen(b1, po, data[..half], true) == Run(w.budget, b0.begun, data[..half], w.slowest)
    requires Calm(w, b1, abortEvery) && Uniform(w, b1) ==>
      Seen(b2, po + half, data[half..], r.Ok?) == Run(w.budget, b1.begun, data[half..], w.slowest)
    ensures HandlerOutcome(w, b0, b2, abortEvery, po, data, half, r)
  {
    CalmLater(w, b0, b1, abortEvery);
    BothHalves(b0, b1, b2, po, data, half, r);
    if Calm(w, b0, abortEvery) && Uniform(w, b0) {
      FollowsBoth(w, b0, b1, b2, po, data, half, r.Ok?);
    }
  }

  /** The first half failed, or its sessions and frame count for the whole. */
  lemma FirstHalf(b0: Board, b1: Board, po: nat, data: seq<byte>, half: nat, r: Result<()>)
    requires 0 < half < |data| && Aligned(half) && Aligned(|data| - half) && Aligned(|data|)
    requires half / SECTOR_SIZE + (|data| - half) / SECTOR_SIZE == Sectors(data)
    requires Safe(b0, b1, po, data[..half], r, 2 * (half / SECTOR_SIZE) - 1)
    ensures r.Err? ==> Safe(b0, b1, po, data, r, 2 * Sectors(data) - 2)
    ensures b1.chip.Honours() == b0.chip.Honours() && b1.chip.Complemented() == b0.chip.Complemented()
  {
    if r.Err? {
      TouchedWiden(b0, b1, po, po + half, po, po + |data|);
      SectorsNonzeroSplit(data, half);
      if r.error.Fatal? && r.error.why.MinPiece? && po <= r.error.why.at <= po + half {
        assert data[..half][..r.error.why.at - po] == data[..r.error.why.at - po];
      }
    }
  }

  /** Both calls together: frame, sessions, and the data if both are sound. */
  lemma BothHalves(b0: Board, b1: Board, b2: Board, po: nat, data: seq<byte>, half: nat, r: Result<()>)
    requires 0 < half < |data| && Aligned(half) && Aligned(|data| - half) && Aligned(|data|)
    requires half / SECTOR_SIZE + (|data| - half) / SECTOR_SIZE == Sectors(data)
    requires b1.Valid() && po + |data| <= FLASH_SIZE
    requires Safe(b0, b1, po, data[..half], Ok(()), 2 * (half / SECTOR_SIZE) - 1)
    requires Safe(b1, b2, po + half, data[half..], r, 2 * ((|data| - half) / SECTOR_SIZE) - 1)
    ensures Safe(b0, b2, po, data, r, 2 * Sectors(data) - 2)
  {
    TouchedWiden(b0, b1, po, po + half, po, po + |data|);
    TouchedTrans(b0, b1, b2, po, po + |data|, po + half, po + |data|);
    if !b0.chip.Honours() {
      TouchedTrans(b0, b1, b2, 0, 0, 0, 0);
    }
    BalancedTrans(b0, b1, b2, 2 * (half / SECTOR_SIZE) - 1, 2 * ((|data| - half) / SECTOR_SIZE) - 1, 2 * Sectors(data) - 2);
    SectorsNonzeroSplit(data, half);
    if r.Ok? {
      HalvesHold(b1.chip.mem, b2.chip.mem, po, data, half);
    } else if !b0.chip.Complemented() && SectorsNonzero(data) {
      PrefixJoins(b1.chip.mem, b2.chip.mem, po, data, half, r.error);
    }
  }

  /** A stored front and a stored prefix of the rest are a stored prefix. */
  lemma PrefixJoins(m1: seq<byte>, m2: seq<byte>, po: nat, data: seq<byte>, half: nat, e: Error)
    requires 0 < half <= |data| && po + |data| <= |m1| && Kept(m1, m2, po + half, po + |data|)
    requires Holds(m1, po, data[..half]) && PrefixStored(m2, po + half, data[half..], e)
    requires PieceError(e, po + half, po + |data|)
    ensures PrefixStored(m2, po, data, e)
  {
    if e.Fatal? {
      var n := e.why.at - po;
      var d := data[..n];
      assert d[..half] == data[..half] && d[half..] == data[half..][..n - half];
      HoldsKept(m1, m2, po, data[..half], po + half, po + |data|);
      HoldsJoin(m2, po, d, half);
      if n == half {
        assert d == data[..half];
      }
    }
  }

  lemma HalvesHold(m1: seq<byte>, m2: seq<byte>, po: nat, data: seq<byte>, half: nat)
    requires half <= |data| && po + |data| <= |m1| && Kept(m1, m2, po + half, po + |data|)
    ensures Holds(m2, po, data) <==> Holds(m1, po, data[..half]) && Holds(m2, po + half, data[half..])
  {
    HoldsKept(m1, m2, po, data[..half], po + half, po + |data|);
    HoldsJoin(m2, po, data, half);
  }

  // ---------------------------------------------------------- flash_region

  function FirstPiece(n: nat): nat
  {
    if n < WRITE_PIECE then n else WRITE_PIECE
  }

  lemma PieceAligned(n: nat)
    requires Aligned(n)
    ensures FirstPiece(n) <= n && Aligned(FirstPiece(n)) && Aligned(n - FirstPiece(n))
    ensures FirstPiece(n) / SECTOR_SIZE + (n - FirstPiece(n)) / SECTOR_SIZE == n / SECTOR_SIZE
    ensures n > 0 ==> FirstPiece(n) >= SECTOR_SIZE
  {
    var s := n / SECTOR_SIZE;
    assert n == SECTOR_SIZE * s;
    if n >= WRITE_PIECE {
      Multiple(s - 384);
    }
  }

  /** The whole region in a uniform world: its pieces one after the other. */
  function RunAll(budget: nat -> nat, k: nat, data: seq<byte>, p: nat): (run: Pieces)
    requires Aligned(|data|)
    ensures run.next >= k
    ensures !run.ok ==> !run.stored
    decreases |data|
  {
    if data == [] then Pieces(true, k, true)
    else
      PieceAligned(|data|);
      var first := Run(budget, k, data[..FirstPiece(|data|)], p);
      if !first.ok then first
      else
        var rest := RunAll(budget, first.next, data[FirstPiece(|data|)..], p);
        Pieces(rest.ok, rest.next, first.stored && rest.stored)
  }

  lemma {:induction false} RunAllSound(budget: nat -> nat, k: nat, data: seq<byte>, p: nat)
    requires Aligned(|data|) && SectorsNonzero(data)
    ensures RunAll(budget, k, data, p).ok ==> RunAll(budget, k, data, p).stored
    decreases |data|
  {
    if data != [] {
      PieceAligned(|data|);
      var n := FirstPiece(|data|);
      SectorsNonzeroSplit(data, n);
      RunSound(budget, k, data[..n], p);
      RunAllSound(budget, Run(budget, k, data[..n], p).next, data[n..], p);
    }
  }

  lemma {:induction false} RunAllProgress(budget: nat -> nat, k: nat, data: seq<byte>, p: nat)
    requires Aligned(|data|)
    requires forall i :: i >= k ==> budget(i) >= SectorBudget(p)
    ensures RunAll(budget, k, data, p).ok
    decreases |data|
  {
    if data != [] {
      PieceAligned(|data|);
      var n := FirstPiece(|data|);
      RunProgress(budget, k, data[..n], p);
      RunAllProgress(budget, Run(budget, k, data[..n], p).next, data[n..], p);
    }
  }

  lemma {:induction false} RunAllSessions(budget: nat -> nat, k: nat, data: seq<byte>, p: nat)
    requires Aligned(|data|) && data != []
    ensures RunAll(budget, k, data, p).next - k <= 2 * Sectors(data) - 1
    decreases |data|
  {
    PieceAligned(|data|);
    var n := FirstPiece(|data|);
    RunSessions(budget, k, data[..n], p);
    if |data| > n {
      RunAllSessions(budget, Run(budget, k, data[..n], p).next, data[n..], p);
    }
  }

  lemma {:induction false} RunAllLocal(b1: nat -> nat, b2: nat -> nat, k: nat, data: seq<byte>, p: nat)
    requires Aligned(|data|)
    requires forall i :: k <= i < RunAll(b1, k, data, p).next ==> b1(i) == b2(i)
    ensures RunAll(b1, k, data, p) == RunAll(b2, k, data, p)
    decreases |data|
  {
    if data != [] {
      PieceAligned(|data|);
      var n := FirstPiece(|data|);
      RunLocal(b1, b2, k, data[..n], p);
      if Run(b1, k, data[..n], p).ok {
        RunAllLocal(b1, b2, Run(b1, k, data[..n], p).next, data[n..], p);
      }
    }
  }

  lemma {:induction false} RunAllEscapes(k: nat, data: seq<byte>, p: nat) returns (budget: nat -> nat)
    requires Aligned(|data|) && !SectorsNonzero(data)
    ensures RunAll(budget, k, data, p).ok && !RunAll(budget, k, data, p).stored
    decreases |data|
  {
    PieceAligned(|data|);
    var n := FirstPiece(|data|);
    var d1, d2 := data[..n], data[n..];
    SectorsNonzeroSplit(data, n);
    var enough: nat -> nat := _ => SectorBudget(p);
    if !SectorsNonzero(d1) {
      var b1 := RunEscapes(k, d1, p);
      var j := Run(b1, k, d1, p).next;
      budget := i => if i < j then b1(i) else SectorBudget(p);
      RunLocal(b1, budget, k, d1, p);
      RunAllProgress(budget, j, d2, p);
    } else {
      RunProgress(enough, k, d1, p);
      var j := Run(enough, k, d1, p).next;
      var b2 := RunAllEscapes(j, d2, p);
      budget := i => if i < j then SectorBudget(p) else b2(i);
      RunLocal(enough, budget, k, d1, p);
      RunAllLocal(b2, budget, j, d2, p);
    }
  }

  lemma PlentyMonotone(a: seq<byte>, b: seq<byte>, p: nat)
    requires |a| <= |b|
    ensures Plenty(a, p) <= Plenty(b, p)
  {
    var m, n := Sectors(a), Sectors(b);
    assert m <= n;
    TimesMonotone(m, n, 5 + p);
    TimesMonotone(80 * m, 80 * n, 2 + p);
    PhaseCosts(m, p);
    PhaseCosts(n, p);
    ReadCostMonotone(|a|, |b|);
  }

  /** On a budget for the whole region every piece of it returns at once and is stored. */
  lemma {:induction false} RunAllStores(budget: nat -> nat, k: nat, data: seq<byte>, p: nat, enough: nat)
    requires Aligned(|data|) && enough >= Plenty(data, p)
    requires forall i :: i >= k ==> budget(i) >= enough
    ensures RunAll(budget, k, data, p).ok && RunAll(budget, k, data, p).stored
    decreases |data|
  {
    if data != [] {
      PieceAligned(|data|);
      var n := FirstPiece(|data|);
      PlentyMonotone(data[..n], data, p);
      PlentyMonotone(data[n..], data, p);
      PlentyReturns(budget(k), data[..n], p);
      RunAllStores(budget, k + 1, data[n..], p, enough);
    }
  }

  /** flash_region is sound for every choice of death points exactly when every
      4 KiB sector of the data has a nonzero byte. */
  lemma FlashSoundIff(data: seq<byte>, p: nat)
    requires Aligned(|data|)
    ensures (forall budget: nat -> nat, k: nat ::
               RunAll(budget, k, data, p).ok ==> RunAll(budget, k, data, p).stored)
            <==> SectorsNonzero(data)
  {
    if SectorsNonzero(data) {
      forall budget: nat -> nat, k: nat
        ensures RunAll(budget, k, data, p).ok ==> RunAll(budget, k, data, p).stored
      {
        RunAllSound(budget, k, data, p);
      }
    } else {
      var budget := RunAllEscapes(0, data, p);
      assert RunAll(budget, 0, data, p).ok && !RunAll(budget, 0, data, p).stored;
    }
  }

  function SessionBound(n: nat): nat
  {
    if n < SECTOR_SIZE then 0 else 2 * (n / SECTOR_SIZE) - 1
  }

  /** After i bytes of the region: the rest of the run decides. */
  ghost predicate Linked(w: World, b0: Board, b: Board, offset: nat, data: seq<byte>, i: nat)
    requires Aligned(|data|) && Aligned(i) && i <= |data|
  {
    RestAligned(|data|, i);
    var whole := RunAll(w.budget, b0.begun, data, w.slowest);
    var rest := RunAll(w.budget, b.begun, data[i..], w.slowest);
    whole == Pieces(rest.ok, rest.next, Stands(b.chip.mem, offset, data[..i]) && rest.stored)
  }

  lemma StandsGrow(m0: seq<byte>, m1: seq<byte>, offset: nat, data: seq<byte>, i: nat, n: nat)
    requires i + n <= |data| && offset + |data| <= |m0| && n > 0
    requires Kept(m0, m1, offset + i, offset + i + n)
    ensures Stands(m1, offset, data[..i + n]) <==>
            Stands(m0, offset, data[..i]) && Holds(m1, offset + i, data[i..i + n])
  {
    var d := data[..i + n];
    assert d[..i] == data[..i] && d[i..] == data[i..i + n];
    HoldsKept(m0, m1, offset, data[..i], offset + i, offset + i + n);
    HoldsJoin(m1, offset, d, i);
  }

  /** The rest of the run from byte i on is its first piece and what comes after. */
  lemma RunAllUnfolds(budget: nat -> nat, k: nat, data: seq<byte>, i: nat, n: nat, p: nat)
    requires Aligned(|data|) && Aligned(i) && Aligned(n) && 0 < n && i + n <= |data| && n == FirstPiece(|data| - i)
    ensures Aligned(|data| - i) && Aligned(|data| - (i + n))
    ensures var first, whole := Run(budget, k, data[i..i + n], p), RunAll(budget, k, data[i..], p);
      if !first.ok then whole == first
      else
        var rest := RunAll(budget, first.next, data[i + n..], p);
        whole == Pieces(rest.ok, rest.next, first.stored && rest.stored)
  {
    RestAligned(|data|, i);
    RestAligned(|data| - i, n);
    var tail := data[i..];
    assert tail[..n] == data[i..i + n] && tail[n..] == data[i + n..];
  }

  /** One more piece keeps the link, or ends the run. */
  lemma LinkStep(w: World, b0: Board, b: Board, b': Board, offset: nat, data: seq<byte>, i: nat, n: nat, ok: bool)
    requires Aligned(|data|) && Aligned(i) && Aligned(n) && 0 < n && i + n <= |data| && n == FirstPiece(|data| - i)
    requires Aligned(i + n) && offset + |data| <= |b.chip.mem|
    requires Linked(w, b0, b, offset, data, i)
    requires Kept(b.chip.mem, b'.chip.mem, offset + i, offset + i + n)
    requires Seen(b', offset + i, data[i..i + n], ok) == Run(w.budget, b.begun, data[i..i + n], w.slowest)
    ensures ok ==> Linked(w, b0, b', offset, data, i + n)
    ensures !ok ==> Seen(b', offset, data, false) == RunAll(w.budget, b0.begun, data, w.slowest)
  {
    RunAllUnfolds(w.budget, b.begun, data, i, n, w.slowest);
    StandsGrow(b.chip.mem, b'.chip.mem, offset, data, i, n);
  }

  /** The next piece of the region. */
  lemma PieceFits(offset: nat, data: seq<byte>, i: nat)
    requires Aligned(offset) && Aligned(|data|) && Aligned(i) && i < |data| && offset + |data| <= FLASH_SIZE
    ensures var n := FirstPiece(|data| - i);
      && 0 < n <= |data| - i && Aligned(n) && Aligned(i + n) && Aligned(offset + i)
      && |data[i..i + n]| == n && offset + i + |data[i..i + n]| <= FLASH_SIZE
  {
    RestAligned(|data|, i);
    PieceAligned(|data| - i);
    SumAligned(i, FirstPiece(|data| - i));
    EndAligned(offset, i);
  }

  lemma PieceSessions(len: nat, i: nat, n: nat)
    requires Aligned(i) && Aligned(n) && 0 < n && i + n <= len
    ensures SessionBound(i) + (2 * (n / SECTOR_SIZE) - 1) <= SessionBound(i + n) <= SessionBound(len)
  {
    SumAligned(i, n);
  }

  lemma SumAligned(i: nat, n: nat)
    requires Aligned(i) && Aligned(n) && n > 0
    ensures Aligned(i + n) && SessionBound(i) + (2 * (n / SECTOR_SIZE) - 1) <= SessionBound(i + n)
  {
    assert i + n == SECTOR_SIZE * (i / SECTOR_SIZE + n / SECTOR_SIZE);
    Multiple(i / SECTOR_SIZE + n / SECTOR_SIZE);
  }

  lemma PieceNonzero(data: seq<byte>, i: nat, n: nat)
    requires Aligned(|data|) && Aligned(i) && Aligned(n) && i + n <= |data|
    ensures SectorsNonzero(data) ==> SectorsNonzero(data[i..i + n])
  {
    RestAligned(|data|, i);
    SectorsNonzeroSplit(data, i);
    SectorsNonzeroSplit(data[i..], n);
    assert data[i..][..n] == data[i..i + n];
  }

  /** After i bytes: what holds in every world. */
  ghost predicate SafeSoFar(b0: Board, b: Board, offset: nat, data: seq<byte>, i: nat)
  {
    && Aligned(|data|) && Aligned(i) && i <= |data|
    && Touched(b0, b, offset, offset + |data|) && (!b0.chip.Honours() ==> Touched(b0, b, 0, 0))
    && Balanced(b0, b, SessionBound(i))
    && (!b0.chip.Complemented() && SectorsNonzero(data) ==> Stands(b.chip.mem, offset, data[..i]))
  }

  /** What flash_region has done when it is over: as for a piece. */
  ghost predicate RegionSafe(b0: Board, b: Board, offset: nat, data: seq<byte>, r: Result<()>)
    requires Aligned(|data|)
  {
    && Touched(b0, b, offset, offset + |data|) && (!b0.chip.Honours() ==> Touched(b0, b, 0, 0))
    && Balanced(b0, b, SessionBound(|data|))
    && (r.Err? ==> PieceError(r.error, offset, offset + |data|))
    && (!b0.chip.Complemented() && SectorsNonzero(data) ==>
          if r.Ok? then Stands(b.chip.mem, offset, data) else PrefixStored(b.chip.mem, offset, data, r.error))
  }

  lemma BalancedTrans(b0: Board, b: Board, b': Board, m: nat, n: nat, total: nat)
    requires Balanced(b0, b, m) && Balanced(b, b', n) && m + n <= total
    ensures Balanced(b0, b', total)
  {
  }

  lemma StandsStep(m0: seq<byte>, m1: seq<byte>, offset: nat, data: seq<byte>, i: nat, n: nat, r: Result<()>)
    requires Aligned(|data|) && Aligned(i) && Aligned(n) && n > 0 && i + n <= |data| && offset + |data| <= |m0|
    requires SectorsNonzero(data) && Stands(m0, offset, data[..i])
    requires Kept(m0, m1, offset + i, offset + i + n)
    requires r.Err? ==> PieceError(r.error, offset + i, offset + i + n)
    requires SectorsNonzero(data[i..i + n]) ==>
      if r.Ok? then Holds(m1, offset + i, data[i..i + n]) else PrefixStored(m1, offset + i, data[i..i + n], r.error)
    ensures if r.Ok? then Stands(m1, offset, data[..i + n]) else PrefixStored(m1, offset, data, r.error)
  {
    PieceNonzero(data, i, n);
    if r.Ok? {
      StandsGrow(m0, m1, offset, data, i, n);
    } else if r.error.Fatal? {
      var m := r.error.why.at - offset - i;
      assert data[i..i + n][..m] == data[i..i + m];
      if m == 0 {
        HoldsKept(m0, m1, offset, data[..i], offset + i, offset + i + n);
      } else {
        StandsJoin(m0, m1, offset, data, i, m, n);
      }
    }
  }

  lemma StandsJoin(m0: seq<byte>, m1: seq<byte>, offset: nat, data: seq<byte>, i: nat, m: nat, n: nat)
    requires 0 < m <= n && i + n <= |data| && offset + |data| <= |m0| && Kept(m0, m1, offset + i, offset + i + n)
    requires Stands(m0, offset, data[..i]) && Holds(m1, offset + i, data[i..i + m])
    ensures Stands(m1, offset, data[..i + m])
  {
    var d := data[..i + m];
    assert d[..i] == data[..i] && d[i..] == data[i..i + m];
    HoldsKept(m0, m1, offset, data[..i], offset + i, offset + i + n);
    HoldsJoin(m1, offset, d, i);
  }

  /** One more piece keeps the frame, the session count and what is in the cells. */
  lemma SafeStep(b0: Board, b: Board, b': Board, offset: nat, data: seq<byte>, i: nat, n: nat, r: Result<()>)
    requires SafeSoFar(b0, b, offset, data, i) && i < |data|
    requires 0 < n && i + n <= |data| && Aligned(n) && Aligned(i + n)
    requires offset + |data| <= FLASH_SIZE && b.Valid()
    requires Safe(b, b', offset + i, data[i..i + n], r, 2 * (n / SECTOR_SIZE) - 1)
    ensures r.Err? ==> RegionSafe(b0, b', offset, data, r)
    ensures r.Ok? ==> SafeSoFar(b0, b', offset, data, i + n)
  {
    PieceSessions(|data|, i, n);
    TouchedTrans(b0, b, b', offset, offset + |data|, offset + i, offset + i + n);
    if !b0.chip.Honours() {
      TouchedTrans(b0, b, b', 0, 0, 0, 0);
    }
    BalancedTrans(b0, b, b', SessionBound(i), 2 * (n / SECTOR_SIZE) - 1, SessionBound(i + n));
    if !b0.chip.Complemented() && SectorsNonzero(data) {
      StandsStep(b.chip.mem, b'.chip.mem, offset, data, i, n, r);
    }
  }

  lemma SafeStart(b0: Board, offset: nat, data: seq<byte>)
    requires b0.Valid() && Aligned(|data|)
    ensures SafeSoFar(b0, b0, offset, data, 0)
  {
    assert data[..0] == [];
  }

  lemma SafeEnd(b0: Board, b: Board, offset: nat, data: seq<byte>)
    requires SafeSoFar(b0, b, offset, data, |data|)
    ensures RegionSafe(b0, b, offset, data, Ok(()))
  {
    assert data[..|data|] == data;
  }

  lemma LinkStart(w: World, b0: Board, offset: nat, data: seq<byte>)
    requires Aligned(|data|)
    ensures Linked(w, b0, b0, offset, data, 0)
  {
    assert data[0..] == data && data[..0] == [];
  }

  lemma LinkEnd(w: World, b0: Board, b: Board, offset: nat, data: seq<byte>)
    requires Aligned(|data|) && Linked(w, b0, b, offset, data, |data|)
    ensures Seen(b, offset, data, true) == RunAll(w.budget, b0.begun, data, w.slowest)
  {
    assert data[..|data|] == data && data[|data|..] == [];
  }

  /** How the region's first session ended, the board after it, and whether all sessions
      to come are known to last. */
  datatype Began = Began(first: Result<()>, after: Board, lasting: bool)

  /** The sessions of n bytes, one for each begun 0x180000, are calm and last a piece. */
  ghost predicate PiecesLast(w: World, b: Board, abortEvery: int, n: nat)
  {
    && Calm(w, b, abortEvery)
    && forall k :: b.begun <= k < b.begun + (n + 0x17FFFF) / 0x180000 ==> w.budget(k) >= PieceBudget(384, w.slowest)
  }

  /** How many sessions a region of n bytes takes: ceil(n / 0x180000) if each of them lasts a
      piece, and three if it is one piece, the first fails and the others last its halves. */
  ghost predicate SessionCount(w: World, b0: Board, b: Board, abortEvery: int, n: nat, r: Result<()>, s: Began)
  {
    && (PiecesLast(w, b0, abortEvery, n) ==> r.Ok? && b.begun == b0.begun + (n + 0x17FFFF) / 0x180000)
    && (0 < n <= 0x180000 ==> ThreeSessions(w, s.after, b, abortEvery, s.first, n, r))
  }

  /** ... after i of its n bytes. */
  ghost predicate CountSoFar(w: World, b0: Board, b: Board, abortEvery: int, i: nat, n: nat, s: Began)
  {
    && (i % 0x180000 == 0 || i == n)
    && (PiecesLast(w, b0, abortEvery, n) ==> b.begun == b0.begun + (i + 0x17FFFF) / 0x180000)
    && (0 < i && n <= 0x180000 ==> i == n && ThreeSessions(w, s.after, b, abortEvery, s.first, n, Ok(())))
  }

  /** The piece that starts at i is session number i / 0x180000. */
  lemma PieceNumber(n: nat, i: nat)
    requires i < n && i % 0x180000 == 0
    ensures (i + 0x17FFFF) / 0x180000 < (n + 0x17FFFF) / 0x180000
    ensures (i + FirstPiece(n - i) + 0x17FFFF) / 0x180000 == (i + 0x17FFFF) / 0x180000 + 1
    ensures FirstPiece(n - i) / SECTOR_SIZE <= 384
    ensures (i + FirstPiece(n - i)) % 0x180000 == 0 || i + FirstPiece(n - i) == n
  {
  }

  /** What the region loop keeps, i bytes into the region. In a uniform world the rest
      of the run decides; when all sessions to come are lasting nothing fails. */
  ghost predicate RegionLoop(w: World, b0: Board, b: Board, abortEvery: int, offset: nat, data: seq<byte>, i: nat,
                             s: Began)
  {
    && SafeSoFar(b0, b, offset, data, i)
    && (Calm(w, b0, abortEvery) && Uniform(w, b0) ==>
          Calm(w, b, abortEvery) && Uniform(w, b) && Linked(w, b0, b, offset, data, i))
    && (Lasting(w, b0, abortEvery) ==> s.lasting) && (s.lasting ==> Lasting(w, b, abortEvery))
    && (if i == 0 then b == b0
        else FirstOutcome(w, b0, s.after, b, abortEvery, offset, s.first, |data|, Ok(()))
             && (Recovers(w, s.after, abortEvery, s.first, |data|) ==> s.lasting))
  }

  /** What flash_region guarantees of aligned data. */
  ghost predicate RegionOutcome(w: World, b0: Board, b: Board, abortEvery: int, offset: nat, data: seq<byte>,
                                r: Result<()>, s: Began)
    requires Aligned(|data|)
  {
    && RegionSafe(b0, b, offset, data, r)
    && (data != [] ==> FirstOutcome(w, b0, s.after, b, abortEvery, offset, s.first, |data|, r))
    && (r == Err(Crash) ==> Crashes(w, b0, abortEvery))
    // Sessions that last one sector are enough.
    && (Lasting(w, b0, abortEvery) ==> r.Ok?)
    // With waits of one length the budgets alone decide.
    && (Calm(w, b0, abortEvery) && Uniform(w, b0) ==>
          Seen(b, offset, data, r.Ok?) == RunAll(w.budget, b0.begun, data, w.slowest))
  }

  function NextBegan(s: Began, i: nat, first: Result<()>, after: Board, recovers: bool): Began
  {
    if i == 0 then Began(first, after, s.lasting || recovers) else s.(lasting := s.lasting || recovers)
  }

  /** The bookkeeping of one turn. */
  lemma LoopStep(w: World, b0: Board, b: Board, b': Board, abortEvery: int, offset: nat, data: seq<byte>, i: nat,
                 n: nat, s: Began, piece: seq<byte>, first: Result<()>, after: Board, r: Result<()>)
    requires RegionLoop(w, b0, b, abortEvery, offset, data, i, s) && i < |data| && offset + |data| <= FLASH_SIZE
    requires b0.Valid() && b.Valid() && n == FirstPiece(|data| - i) && 0 < n && i + n <= |data|
    requires Aligned(n) && Aligned(i + n) && piece == data[i..i + n] && Sectors(piece) >= 1
    requires PieceOutcome(w, b, b', abortEvery, offset + i, piece, r, first, after)
    ensures var s' := NextBegan(s, i, first, after, Recovers(w, after, abortEvery, first, n));
      if r.Ok? then RegionLoop(w, b0, b', abortEvery, offset, data, i + n, s')
      else RegionOutcome(w, b0, b', abortEvery, offset, data, r, s')
    ensures (i == 0 ==> b == b0) && (Calm(w, b0, abortEvery) ==> Calm(w, b, abortEvery))
    ensures OneSession(w, b, b', abortEvery, Sectors(piece), r)
    ensures ThreeSessions(w, after, b', abortEvery, first, |piece|, r)
  {
    SafeStep(b0, b, b', offset, data, i, n, r);
    CalmLater(w, b0, b, abortEvery);
    CalmLater(w, b, b', abortEvery);
    CalmLater(w, after, b', abortEvery);
    if Calm(w, b0, abortEvery) && Uniform(w, b0) {
      LinkStep(w, b0, b, b', offset, data, i, n, r.Ok?);
    }
    if i == 0 {
      OutcomeGrows(w, b0, after, b', b', abortEvery, offset, first, n, |data|, r, r);
    } else {
      OutcomeGrows(w, b0, s.after, b, b', abortEvery, offset, s.first, |data|, |data|, Ok(()), r);
    }
  }

  /** The session count of one turn. */
  lemma CountStep(w: World, b0: Board, b: Board, b': Board, abortEvery: int, i: nat, piece: seq<byte>, total: nat,
                  s: Began, first: Result<()>, after: Board, recovers: bool, r: Result<()>)
    requires CountSoFar(w, b0, b, abortEvery, i, total, s) && i < total && |piece| == FirstPiece(total - i)
    requires (i == 0 ==> b == b0) && (Calm(w, b0, abortEvery) ==> Calm(w, b, abortEvery))
    requires OneSession(w, b, b', abortEvery, Sectors(piece), r)
    requires ThreeSessions(w, after, b', abortEvery, first, |piece|, r)
    ensures if r.Ok? then CountSoFar(w, b0, b', abortEvery, i + |piece|, total, NextBegan(s, i, first, after, recovers))
            else SessionCount(w, b0, b', abortEvery, total, r, NextBegan(s, i, first, after, recovers))
  {
    PieceNumber(total, i);
    PieceBudgetMonotone(Sectors(piece), 384, w.slowest);
  }

  lemma TurnEnds(w: World, b0: Board, b: Board, b': Board, abortEvery: int, offset: nat, data: seq<byte>, i: nat,
                 n: nat, s: Began, s': Began, piece: seq<byte>, first: Result<()>, after: Board, r: Result<()>)
    requires RegionLoop(w, b0, b, abortEvery, offset, data, i, s) && i < |data| && offset + |data| <= FLASH_SIZE
    requires CountSoFar(w, b0, b, abortEvery, i, |data|, s)
    requires b0.Valid() && b.Valid() && n == FirstPiece(|data| - i) && 0 < n && i + n <= |data|
    requires Aligned(n) && Aligned(i + n) && piece == data[i..i + n] && Sectors(piece) >= 1
    requires PieceOutcome(w, b, b', abortEvery, offset + i, piece, r, first, after)
    requires s' == NextBegan(s, i, first, after, Recovers(w, after, abortEvery, first, n))
    ensures r.Ok? ==> RegionLoop(w, b0, b', abortEvery, offset, data, i + n, s')
                      && CountSoFar(w, b0, b', abortEvery, i + n, |data|, s')
    ensures r.Err? ==> RegionOutcome(w, b0, b', abortEvery, offset, data, r, s')
                       && SessionCount(w, b0, b', abortEvery, |data|, r, s')
  {
    LoopStep(w, b0, b, b', abortEvery, offset, data, i, n, s, piece, first, after, r);
    CountStep(w, b0, b, b', abortEvery, i, piece, |data|, s, first, after, Recovers(w, after, abortEvery, first, n), r);
  }

  /** One turn of the loop: the piece that starts i bytes into the region. */
  method NextPiece(rig: Rig, abortEvery: int, offset: nat, data: seq<byte>, i: nat, ghost b0: Board, ghost s: Began)
    returns (r: Result<()>, n: nat, ghost s': Began)
    requires rig.now.Valid() && b0.Valid() && Aligned(offset) && offset + |data| <= FLASH_SIZE && i < |data|
    requires RegionLoop(rig.world, b0, rig.now, abortEvery, offset, data, i, s)
    requires CountSoFar(rig.world, b0, rig.now, abortEvery, i, |data|, s)
    modifies rig
    ensures n == FirstPiece(|data| - i) && 0 < n <= |data| - i
    ensures r.Ok? ==> RegionLoop(rig.world, b0, rig.now, abortEvery, offset, data, i + n, s')
                      && CountSoFar(rig.world, b0, rig.now, abortEvery, i + n, |data|, s')
    ensures r.Err? ==> RegionOutcome(rig.world, b0, rig.now, abortEvery, offset, data, r, s')
                       && SessionCount(rig.world, b0, rig.now, abortEvery, |data|, r, s')
  {
    PieceFits(offset, data, i);
    n := FirstPiece(|data| - i);
    var piece := data[i..i + n];
    ghost var b, w := rig.now, rig.world;
    ghost var first, after;
    r, first, after := Do(rig, abortEvery, offset + i, piece);
    s' := NextBegan(s, i, first, after, Recovers(w, after, abortEvery, first, n));
    TurnEnds(w, b0, b, rig.now, abortEvery, offset, data, i, n, s, s', piece, first, after, r);
  }

  lemma LoopStart(w: World, b0: Board, abortEvery: int, offset: nat, data: seq<byte>)
    requires b0.Valid() && Aligned(|data|)
    ensures RegionLoop(w, b0, b0, abortEvery, offset, data, 0, Began(Ok(()), b0, Lasting(w, b0, abortEvery)))
  {
    SafeStart(b0, offset, data);
    LinkStart(w, b0, offset, data);
  }

  lemma LoopEnd(w: World, b0: Board, b: Board, abortEvery: int, offset: nat, data: seq<byte>, s: Began)
    requires RegionLoop(w, b0, b, abortEvery, offset, data, |data|, s)
    ensures RegionOutcome(w, b0, b, abortEvery, offset, data, Ok(()), s)
  {
    SafeEnd(b0, b, offset, data);
    if Calm(w, b0, abortEvery) && Uniform(w, b0) {
      LinkEnd(w, b0, b, offset, data);
    }
  }

  /** The region loop. */
  method FlashPieces(rig: Rig, abortEvery: int, offset: nat, data: seq<byte>) returns (r: Result<()>, ghost s: Began)
    requires rig.now.Valid() && Aligned(offset) && Aligned(|data|)
    requires data != [] ==> offset + |data| <= FLASH_SIZE
    modifies rig
    ensures RegionOutcome(rig.world, old(rig.now), rig.now, abortEvery, offset, data, r, s)
    ensures SessionCount(rig.world, old(rig.now), rig.now, abortEvery, |data|, r, s)
  {
    ghost var b0, w := rig.now, rig.world;
    s := Began(Ok(()), b0, Lasting(w, b0, abortEvery));
    var i := 0;
    LoopStart(w, b0, abortEvery, offset, data);
    while i < |data|
      invariant RegionLoop(w, b0, rig.now, abortEvery, offset, data, i, s)
      invariant CountSoFar(w, b0, rig.now, abortEvery, i, |data|, s)
    {
      var n;
      r, n, s := NextPiece(rig, abortEvery, offset, data, i, b0, s);
      if r.Err? {
        return;
      }
      i := i + n;
    }
    LoopEnd(w, b0, rig.now, abortEvery, offset, data, s);
    return Ok(()), s;
  }

  /** `flash_region`. `s` tells how its first session ended. */
  method FlashRegion(rig: Rig, abortEvery: int, offset: nat, data: seq<byte>) returns (r: Result<()>, ghost s: Began)
    requires rig.now.Valid()
    requires data != [] ==> offset + |data| <= FLASH_SIZE
    modifies rig
    ensures !(Aligned(offset) && Aligned(|data|)) ==> r == Err(Fatal(NotAligned)) && rig.now == old(rig.now)
    ensures Aligned(offset) && Aligned(|data|) ==>
      && RegionOutcome(rig.world, old(rig.now), rig.now, abortEvery, offset, data, r, s)
      && SessionCount(rig.world, old(rig.now), rig.now, abortEvery, |data|, r, s)
  {
    if !(Aligned(offset) && Aligned(|data|)) {
      return Err(Fatal(NotAligned)), Began(Ok(()), rig.now, false);
    }
    r, s := FlashPieces(rig, abortEvery, offset, data);
  }

  /** With sessions that come up in a quiet world, the run ends with an exception other
      than a FatalError exactly if abort_every is 0. */
  lemma CrashIff(w: World, b0: Board, b: Board, abortEvery: int, offset: nat, data: seq<byte>, r: Result<()>, s: Began)
    requires Aligned(|data|) && data != [] && RegionOutcome(w, b0, b, abortEvery, offset, data, r, s)
    requires Quiet(w, b0) && w.budget(b0.begun) >= 2 && forall k :: k >= b0.begun ==> w.start(k) == Up
    ensures r == Err(Crash) <==> abortEvery == 0
  {
    assert Smooth(w, b0.clock) && Smooth(w, b0.clock + 1);
    if abortEvery == 0 {
      assert RefusedAtOnce(w, b0, abortEvery);
    }
  }

  /** One AP byte, before the first guarded transaction, and nothing else amiss. */
  function SpeaksOnce(): World
  {
    World(_ => Up, _ => SectorBudget(1), _ => Clean, t => t == 2, _ => false, _ => false, _ => 0, _ => 1, _ => 0, 1, 3)
  }

  /** The guard hears the AP in the first session, and the region is flashed all the same:
      any region of more than one sector. */
  method Overheard(chip: Chip, offset: nat, data: seq<byte>) returns (rig: Rig, r: Result<()>, ghost s: Began)
    requires chip.Valid() && chip.Honours() && offset + |data| <= FLASH_SIZE && Aligned(offset) && Aligned(|data|)
    requires |data| > WRITE_PIECE_MIN && SectorsNonzero(data)
    ensures s.first == Err(Fatal(ApWoke)) && r.Ok? && Holds(rig.now.chip.mem, offset, data)
  {
    rig := new Rig(SpeaksOnce(), chip);
    ghost var w, b0 := rig.world, rig.now;
    r, s := FlashRegion(rig, 1, offset, data);
    assert RefusedAtOnce(w, b0, 1);
    assert Quiet(w, s.after) by {
      assert forall t :: t >= 3 ==> Smooth(w, t);
    }
    assert Recovers(w, s.after, 1, s.first, |data|);
  }
}
