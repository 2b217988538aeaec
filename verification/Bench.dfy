/** The bench under the flasher: one chip behind a bridge that can fail.

    A World fixes every choice the hardware makes, so a theorem for all worlds is
    a theorem for all runs. A Board is the hardware's state at one moment; it also
    keeps the memory as it stood after every transaction. */
module Bench {
  import opened Nor
  import opened Bytes

  /** How the steps before the bridge (device, consoles, park, ENABLE) end. */
  datatype Start = Up | Refused | Crashed

  /** What USB does to a transaction: it may be lost before or after the chip saw it. */
  datatype Usb = Clean | LostBefore | LostAfter

  /** Sessions are indexed by the order they are opened, the other choices by the
      transaction's number over the whole run. */
  datatype World = World(
    start: nat -> Start,     // does session k come up?
    budget: nat -> nat,      // transactions that session k's bus answers before it dies
    usb: nat -> Usb,         // the USB outcome of transaction t
    ap: nat -> bool,         // does the AP emit a byte before transaction t begins?
    late: nat -> bool,       // ... or between the guard's poll of transaction t and its answer?
    deaf: nat -> bool,       // does the guard's poll of transaction t raise?
    busy: nat -> nat,        // polls that find the chip busy after an operation sent as t
    patience: nat -> nat,    // polls that fit the deadline of a wait that begins at t
    noise: nat -> byte,      // what a busy chip answers at t
    slowest: nat,            // the longest wait of a quiet world, in polls
    quietFrom: nat           // the transaction from which on a quiet world is quiet
  )

  datatype Board = Board(chip: Chip, live: nat, clock: nat, ap: bool,
                         begun: nat, ended: nat, peak: nat, hist: seq<seq<byte>>)
  {
    predicate Valid() {
      chip.Valid() && ended <= begun
    }

    predicate Idle() {
      chip.wip == 0
    }
  }

  /** Transaction t meets no USB fault, no AP byte and a readable AP console. */
  predicate Smooth(w: World, t: nat)
  {
    w.usb(t) == Clean && !w.ap(t) && !w.late(t) && !w.deaf(t)
  }

  /** From quietFrom on transactions are smooth and waits end within `slowest` polls. */
  ghost predicate Silent(w: World)
  {
    && w.slowest >= 1
    && (forall t {:trigger w.usb(t)} {:trigger w.ap(t)} {:trigger w.late(t)} {:trigger w.deaf(t)} ::
          t >= w.quietFrom ==> Smooth(w, t))
    && (forall t {:trigger w.busy(t)} :: t >= w.quietFrom ==> w.busy(t) < w.slowest)
    && (forall t {:trigger w.patience(t)} :: t >= w.quietFrom ==> w.patience(t) >= w.slowest)
  }

  /** The world is quiet from here on, whatever happened before. */
  ghost predicate Quiet(w: World, b: Board)
  {
    Silent(w) && w.quietFrom <= b.clock
  }

  ghost predicate Even(w: World)
  {
    w.slowest >= 1 && forall t :: t >= w.quietFrom ==> w.busy(t) == w.slowest - 1
  }

  /** From here on every wait takes exactly `slowest` polls. */
  ghost predicate Uniform(w: World, b: Board)
  {
    Even(w) && w.quietFrom <= b.clock
  }

  /** An AP byte is waiting when the guard could poll. */
  predicate Pending(w: World, b: Board)
  {
    b.ap || w.ap(b.clock)
  }

  /** The board after a transaction that was given up at the guard's poll. */
  function Missed(w: World, b: Board): Board
  {
    b.(clock := b.clock + 1, ap := Pending(w, b), hist := b.hist + [b.chip.mem])
  }

  /** The board after a transaction that was sent and never reached the chip. */
  function Lost(w: World, b: Board): Board
  {
    Missed(w, b).(ap := Pending(w, b) || w.late(b.clock))
  }

  /** The board after a transaction that reached the bus. A dead bus ignores it. */
  function Delivered(w: World, b: Board, command: seq<byte>): Board
    requires b.Valid()
  {
    var chip := if b.live == 0 then b.chip else After(b.chip, command, w.busy(b.clock));
    Lost(w, b).(chip := chip, live := if b.live == 0 then 0 else b.live - 1, hist := b.hist + [chip.mem])
  }

  /** The answer to it: a dead bus reads zeros with a good status. */
  function Reply(w: World, b: Board, command: seq<byte>, rcount: nat): (r: seq<byte>)
    requires b.Valid()
    ensures |r| == rcount
  {
    if b.live == 0 then seq(rcount, _ => 0) else Answer(b.chip, command, rcount, w.noise(b.clock))
  }

  // ---------------------------------------------------- what a run may touch

  /** Every memory recorded since `h0` agrees with m0 outside [lo, hi). */
  ghost predicate Confined(h0: seq<seq<byte>>, h1: seq<seq<byte>>, m0: seq<byte>, lo: int, hi: int)
  {
    && |h0| <= |h1|
    && h1[..|h0|] == h0
    && forall k {:trigger h1[k]} :: |h0| <= k < |h1| ==> Kept(m0, h1[k], lo, hi)
  }

  /** From b0 to b1, some time later, only cells of [lo, hi) changed, at every moment
      in between. */
  ghost predicate Touched(b0: Board, b1: Board, lo: int, hi: int)
  {
    && b1.Valid() && b0.clock <= b1.clock
    && Kept(b0.chip.mem, b1.chip.mem, lo, hi)
    && Confined(b0.hist, b1.hist, b0.chip.mem, lo, hi)
    && b1.chip.high1 == b0.chip.high1 && b1.chip.sr2 == b0.chip.sr2
  }

  lemma ConfinedAppend(h0: seq<seq<byte>>, h1: seq<seq<byte>>, m: seq<byte>, m0: seq<byte>, lo: int, hi: int)
    requires Confined(h0, h1, m0, lo, hi) && Kept(m0, m, lo, hi)
    ensures Confined(h0, h1 + [m], m0, lo, hi)
  {
    var h2 := h1 + [m];
    forall k | |h0| <= k < |h2|
      ensures Kept(m0, h2[k], lo, hi)
    {
      if k < |h1| { assert h2[k] == h1[k]; }
    }
  }

  lemma ConfinedTrans(h0: seq<seq<byte>>, h1: seq<seq<byte>>, h2: seq<seq<byte>>,
                      m0: seq<byte>, m1: seq<byte>, lo: int, hi: int)
    requires Confined(h0, h1, m0, lo, hi) && Kept(m0, m1, lo, hi) && Confined(h1, h2, m1, lo, hi)
    ensures Confined(h0, h2, m0, lo, hi)
  {
    assert h2[..|h0|] == h2[..|h1|][..|h0|];
    forall k | |h0| <= k < |h2|
      ensures Kept(m0, h2[k], lo, hi)
    {
      if k < |h1| {
        assert h2[k] == h2[..|h1|][k] == h1[k];
      } else {
        assert Kept(m1, h2[k], lo, hi);
      }
    }
  }

  lemma ConfinedWiden(h0: seq<seq<byte>>, h1: seq<seq<byte>>, m0: seq<byte>, lo: int, hi: int, lo': int, hi': int)
    requires Confined(h0, h1, m0, lo, hi)
    requires lo >= hi || (lo' <= lo && hi <= hi')
    ensures Confined(h0, h1, m0, lo', hi')
  {
    forall k | |h0| <= k < |h1|
      ensures Kept(m0, h1[k], lo', hi')
    {
      assert Kept(m0, h1[k], lo, hi);
    }
  }

  lemma TouchedWiden(b0: Board, b1: Board, lo: int, hi: int, lo': int, hi': int)
    requires Touched(b0, b1, lo, hi)
    requires lo >= hi || (lo' <= lo && hi <= hi')
    ensures Touched(b0, b1, lo', hi')
  {
    ConfinedWiden(b0.hist, b1.hist, b0.chip.mem, lo, hi, lo', hi');
  }

  /** Frames compose, the second one inside the first. */
  lemma TouchedTrans(b0: Board, b1: Board, b2: Board, lo: int, hi: int, lo': int, hi': int)
    requires Touched(b0, b1, lo, hi) && Touched(b1, b2, lo', hi')
    requires lo' >= hi' || (lo <= lo' && hi' <= hi)
    ensures Touched(b0, b2, lo, hi)
  {
    TouchedWiden(b1, b2, lo', hi', lo, hi);
    ConfinedTrans(b0.hist, b1.hist, b2.hist, b0.chip.mem, b1.chip.mem, lo, hi);
  }

  /** From b0 to b1 within one session, with every transaction answered: the bus
      lost one transaction of its budget for each, as long as it had any. */
  predicate Spent(b0: Board, b1: Board)
  {
    && b0.clock <= b1.clock
    && b1.live == (if b0.live >= b1.clock - b0.clock then b0.live - (b1.clock - b0.clock) else 0)
  }

  /** The session bookkeeping is the same. */
  predicate SameSessions(b0: Board, b1: Board)
  {
    b1.begun == b0.begun && b1.ended == b0.ended && b1.peak == b0.peak
  }

  /** What every operation inside one session does: cells change only in [lo, hi),
      sessions are neither opened nor closed, and a silent AP stays silent. */
  ghost predicate Worked(w: World, b0: Board, b1: Board, lo: int, hi: int)
  {
    && Touched(b0, b1, lo, hi)
    && SameSessions(b0, b1)
    && (Quiet(w, b0) && !b0.ap ==> !b1.ap)
  }

  /** The frame of an operation: where it began and which cells it may change. */
  datatype Frame = Frame(base: Board, lo: int, hi: int)

  ghost predicate Inside(w: World, f: Frame, b: Board)
  {
    Worked(w, f.base, b, f.lo, f.hi)
  }

  /** One more transaction stays inside a frame if its command does. */
  lemma InsideStep(w: World, f: Frame, b: Board, command: seq<byte>)
    requires b.Valid() && Inside(w, f, b)
    requires Kept(b.chip.mem, After(b.chip, command, w.busy(b.clock)).mem, f.lo, f.hi)
    ensures Inside(w, f, Missed(w, b)) && Inside(w, f, Lost(w, b)) && Inside(w, f, Delivered(w, b, command))
  {
    ConfinedAppend(f.base.hist, b.hist, b.chip.mem, f.base.chip.mem, f.lo, f.hi);
    var m := Delivered(w, b, command).chip.mem;
    ConfinedAppend(f.base.hist, b.hist, m, f.base.chip.mem, f.lo, f.hi);
  }

  /** The one object all sessions share. */
  class Rig {
    const world: World
    var now: Board

    constructor (world: World, chip: Chip)
      requires chip.Valid()
      ensures this.world == world
      ensures now == Board(chip, 0, 0, false, 0, 0, 0, [])
    {
      this.world := world;
      now := Board(chip, 0, 0, false, 0, 0, 0, []);
    }

    /** One bulk OUT and bulk IN. */
    method Exchange(command: seq<byte>, rcount: nat) returns (answered: bool, answer: seq<byte>)
      requires now.Valid()
      modifies this
      ensures answered <==> world.usb(old(now.clock)) == Clean
      ensures answered ==> answer == Reply(world, old(now), command, rcount)
      ensures now == if world.usb(old(now.clock)) == LostBefore then Lost(world, old(now))
                     else Delivered(world, old(now), command)
    {
      var usb := world.usb(now.clock);
      answered, answer := usb == Clean, [];
      if answered {
        answer := Reply(world, now, command, rcount);
      }
      now := if usb == LostBefore then Lost(world, now) else Delivered(world, now, command);
    }
  }
}
