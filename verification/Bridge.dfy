/** The usb_spi V1 bridge, its inline AP guard, and sessions on it. */
module Bridge {
  import opened Results
  import opened Bytes
  import opened Nor
  import opened Bench

  const MAX_WRITE: nat := 62
  const MAX_READ: nat := 62

  /** abort_every before the session factory installs its own. */
  const DEFAULT_ABORT_EVERY := 512

  predicate Fits(command: seq<byte>, rcount: nat)
  {
    |command| <= MAX_WRITE && rcount <= MAX_READ
  }

  /** From transaction t on some poll of the AP console raises. */
  ghost predicate Deaf(w: World, t: nat)
  {
    exists i :: i >= t && w.deaf(i)
  }

  /** The errors a well-sized transaction can raise, from transaction t on. */
  ghost predicate TransferError(e: Error, w: World, guard: Option<int>, t: nat)
  {
    || e == Fatal(ApWoke) || e == Fatal(Transfer)
    || (e == Crash && (guard == Some(0) || (guard.Some? && Deaf(w, t))))
  }

  /** The guard's error in transaction number txn, if it raises one. */
  function Verdict(guard: Option<int>, txn: nat, w: World, b: Board): Option<Error>
  {
    if guard.None? then None
    else if guard.value == 0 then Some(Crash)   // txn % 0
    else if txn % guard.value != 0 then None
    else if w.deaf(b.clock) then Some(Crash)
    else if Pending(w, b) then Some(Fatal(ApWoke))
    else None
  }

  lemma ModStep(t: nat, k: int)
    requires k >= 1
    ensures (t + 1) % k == 0 || (t + 1) % k == t % k + 1
  {
    var q, r := t / k, t % k;
    assert t == k * q + r;
    if r + 1 < k {
      assert t + 1 == k * q + (r + 1);
      ModUnique(t + 1, k, q, r + 1);
    } else {
      assert t + 1 == k * (q + 1) by { assert k * (q + 1) == k * q + k; }
      ModUnique(t + 1, k, q + 1, 0);
    }
  }

  lemma ModUnique(t: int, k: int, q: int, r: int)
    requires k >= 1 && 0 <= r < k && t == k * q + r
    ensures t % k == r
  {
    var q', r' := t / k, t % k;
    assert t == k * q' + r' && 0 <= r' < k;
    assert k * (q - q') == r' - r by { assert k * (q - q') == k * q - k * q'; }
    assert q - q' >= 1 ==> k * (q - q') >= k;
    assert q - q' <= -1 ==> k * (q - q') <= -k;
  }

  /** An answered transaction keeps the bounds on what was answered and what began. */
  lemma GuardStep(k: nat, txn: nat, exposed: nat, since: nat, pending: bool, heard: bool)
    requires k >= 1 && since <= txn % k && since <= exposed <= since + 1
    requires !pending ==> exposed == 0
    requires pending ==> heard && (txn + 1) % k != 0
    ensures var exposed', since' := if heard then exposed + 1 else 0, if pending then since + 1 else 0;
      && since' <= exposed' <= since' + 1 && since' <= (txn + 1) % k
      && exposed' <= k && since' <= k - 1 && since <= (txn + 1) % k
  {
    ModStep(txn, k);
  }

  class SpiBridge {
    const rig: Rig
    var txn: nat
    var guard: Option<int>     // abort_every, once abort_check is installed
    ghost var exposed: nat     // transactions answered since the AP's first unheard byte
    ghost var since: nat       // ... those of them that had also begun since
    ghost var aborted: bool    // the guard has raised

    /** At all times: since the AP's first byte (or since the guard was armed) at most
        abort_every transactions have been answered, and fewer than that have begun. */
    ghost predicate Valid()
      reads this, rig
    {
      && rig.now.Valid()
      && (!rig.now.ap ==> exposed == 0) && since <= exposed <= since + 1
      && (guard.Some? && guard.value >= 1 ==> exposed <= guard.value && since <= guard.value - 1)
    }

    /** Between transactions: the guard has not raised, and what began since the byte
        is at most the distance to the last poll. */
    ghost predicate Ready()
      reads this, rig
    {
      Valid() && !aborted && (guard.Some? && guard.value >= 1 ==> since <= txn % guard.value)
    }

    /** The guard polls in the transaction that was begun last. */
    predicate Polls()
      reads this
    {
      guard.Some? && (guard.value == 0 || txn % guard.value == 0)
    }

    /** What the guard makes of the next transaction. */
    function Refusal(): Option<Error>
      reads this, rig
    {
      Verdict(guard, txn + 1, rig.world, rig.now)
    }

    /** The board after a transaction that the guard refuses. */
    function Refused(): Board
      reads this, rig
    {
      if guard == Some(0) then rig.now else Missed(rig.world, rig.now)
    }

    /** Nothing in this world or on this bridge makes a transaction fail. */
    ghost predicate Steady()
      reads this, rig
    {
      Quiet(rig.world, rig.now) && !rig.now.ap && guard != Some(0)
    }

    constructor (rig: Rig)
      requires rig.now.Valid() && !rig.now.ap
      ensures Ready() && this.rig == rig && guard == None && txn == 0
    {
      this.rig := rig;
      txn, guard, exposed, since, aborted := 0, None, 0, 0, false;
    }

    /** `_ap_abort_check`: one read of the AP console. */
    method AbortCheck() returns (r: Result<()>)
      modifies this`aborted, rig
      ensures r == if rig.world.deaf(old(rig.now.clock)) then Err(Crash)
                   else if Pending(rig.world, old(rig.now)) then Err(Fatal(ApWoke))
                   else Ok(())
      ensures r.Err? ==> rig.now == Missed(rig.world, old(rig.now))
      ensures r.Ok? ==> rig.now == old(rig.now)
      ensures aborted == (old(aborted) || r.Err?)
    {
      if rig.world.deaf(rig.now.clock) {
        rig.now := Missed(rig.world, rig.now);
        aborted := true;
        return Err(Crash);
      }
      if Pending(rig.world, rig.now) {
        rig.now := Missed(rig.world, rig.now);
        aborted := true;
        return Err(Fatal(ApWoke));
      }
      return Ok(());
    }

    /** The inline guard in transaction txn: only every abort_every-th one polls. */
    method Poll() returns (r: Result<()>)
      requires !aborted
      modifies this`aborted, rig
      ensures r == match Verdict(guard, txn, rig.world, old(rig.now)) case None => Ok(()) case Some(e) => Err(e)
      ensures rig.now == if r.Err? then old(Refused()) else old(rig.now)
      ensures aborted <==> r.Err?
    {
      if guard.None? {
        return Ok(());
      }
      if guard.value == 0 {
        aborted := true;
        return Err(Crash);
      }
      if txn % guard.value == 0 {
        r := AbortCheck();
        return;
      }
      return Ok(());
    }

    /** The bulk OUT and IN of transaction txn, past the guard's poll. */
    method Bulk(command: seq<byte>, rcount: nat) returns (r: Result<seq<byte>>)
      requires Valid() && !aborted && txn >= 1
      requires guard.Some? && guard.value >= 1 ==>
        since <= (txn - 1) % guard.value && (txn % guard.value == 0 ==> !Pending(rig.world, rig.now))
      modifies this`exposed, this`since, rig
      ensures Ready()
      ensures r.Ok? <==> rig.world.usb(old(rig.now.clock)) == Clean
      ensures r.Err? ==>
        && r == Err(Fatal(Transfer))
        && rig.now == if rig.world.usb(old(rig.now.clock)) == LostBefore then Lost(rig.world, old(rig.now))
                      else Delivered(rig.world, old(rig.now), command)
      ensures r.Ok? ==> rig.now == Delivered(rig.world, old(rig.now), command)
                        && r.value == Reply(rig.world, old(rig.now), command, rcount)
                        && exposed == (if rig.now.ap then old(exposed) + 1 else 0)
                        && since == if Pending(rig.world, old(rig.now)) then old(since) + 1 else 0
      ensures r.Err? ==> exposed == old(exposed) && since == old(since)
    {
      ghost var pending := Pending(rig.world, rig.now);
      var answered, answer := rig.Exchange(command, rcount);
      if guard.Some? && guard.value >= 1 {
        GuardStep(guard.value, txn - 1, exposed, since, pending, rig.now.ap);
      }
      if !answered {
        return Err(Fatal(Transfer));
      }
      exposed := if rig.now.ap then exposed + 1 else 0;
      since := if pending then since + 1 else 0;
      return Ok(answer);
    }

    /** One transaction: exactly `rcount` payload bytes, or an error. There is no
        retry, and none is asked for once the guard has raised. The guard polls the
        AP before every abort_every-th bulk transfer. */
    method Transact(command: seq<byte>, rcount: nat) returns (r: Result<seq<byte>>)
      requires Ready()
      modifies this, rig
      ensures Valid() && guard == old(guard)
      ensures aborted <==> r == Err(Fatal(ApWoke)) || r == Err(Crash)
      ensures !aborted ==> Ready()
      ensures r == Err(Fatal(TooLong)) <==> |command| > 62 || rcount > 62
      ensures txn == old(txn) + if Fits(command, rcount) then 1 else 0
      ensures !Fits(command, rcount) ==> rig.now == old(rig.now)
      // The guard's refusals, and nothing else, raise its two errors.
      ensures Fits(command, rcount) && old(Refusal()).Some? ==>
        r == Err(old(Refusal()).value) && rig.now == old(Refused())
      ensures r == Err(Crash) || r == Err(Fatal(ApWoke)) ==> old(Refusal()).Some? && Polls()
      ensures r == Err(Fatal(Transfer)) ==>
        rig.world.usb(old(rig.now.clock)) != Clean
        && rig.now == if rig.world.usb(old(rig.now.clock)) == LostBefore then Lost(rig.world, old(rig.now))
                      else Delivered(rig.world, old(rig.now), command)
      ensures r.Ok? ==> rig.now == Delivered(rig.world, old(rig.now), command)
                        && r.value == Reply(rig.world, old(rig.now), command, rcount)
      ensures Fits(command, rcount) && old(Steady()) ==> r.Ok? && Steady()
      ensures r.Err? && Fits(command, rcount) ==> TransferError(r.error, rig.world, guard, old(rig.now.clock))
      ensures r.Ok? ==> exposed == if rig.now.ap then old(exposed) + 1 else 0
      ensures r.Ok? ==> since == if old(Pending(rig.world, rig.now)) then old(since) + 1 else 0
      ensures r.Err? ==> exposed == old(exposed) && since == old(since)
      ensures Fits(command, rcount) && !old(rig.now.ap) && Smooth(rig.world, old(rig.now.clock)) && guard != Some(0) ==>
        r.Ok? && !rig.now.ap
    {
      if !Fits(command, rcount) {
        return Err(Fatal(TooLong));
      }
      txn := txn + 1;
      var polled := Poll();
      if polled.Err? {
        return Err(polled.error);
      }
      r := Bulk(command, rcount);
    }

    /** Set abort_every; exposure is counted from here. */
    method Arm(every: int)
      requires Ready()
      modifies this
      ensures Ready() && guard == Some(every) && exposed == 0 && since == 0 && txn == old(txn)
    {
      guard, exposed, since := Some(every), 0, 0;
    }
  }

  /** A clean transaction with no byte waiting at a poll is answered. */
  method Answered(bridge: SpiBridge)
    requires bridge.Ready() && bridge.guard.Some? && bridge.guard.value >= 1
    requires bridge.rig.world.usb(bridge.rig.now.clock) == Clean && !bridge.rig.world.deaf(bridge.rig.now.clock)
    requires Pending(bridge.rig.world, bridge.rig.now) ==> (bridge.txn + 1) % bridge.guard.value != 0
    modifies bridge, bridge.rig
    ensures bridge.Ready() && bridge.guard == old(bridge.guard) && bridge.txn == old(bridge.txn) + 1
    ensures bridge.rig.now.clock == old(bridge.rig.now.clock) + 1
    ensures bridge.rig.now.ap <==> old(Pending(bridge.rig.world, bridge.rig.now)
                                       || bridge.rig.world.late(bridge.rig.now.clock))
    ensures bridge.exposed == if bridge.rig.now.ap then old(bridge.exposed) + 1 else 0
    ensures bridge.since == if old(Pending(bridge.rig.world, bridge.rig.now)) then old(bridge.since) + 1 else 0
  {
    var r := bridge.Transact([], 0);
    assert r != Err(Fatal(ApWoke));
  }

  /** A byte that waits at a poll is heard there. */
  method Heard(bridge: SpiBridge) returns (r: Result<seq<byte>>)
    requires bridge.Ready() && bridge.guard.Some? && bridge.guard.value >= 1
    requires !bridge.rig.world.deaf(bridge.rig.now.clock) && Pending(bridge.rig.world, bridge.rig.now)
    requires (bridge.txn + 1) % bridge.guard.value == 0
    modifies bridge, bridge.rig
    ensures r == Err(Fatal(ApWoke)) && bridge.guard == old(bridge.guard) && bridge.txn == old(bridge.txn) + 1
    ensures bridge.exposed == old(bridge.exposed) && bridge.since == old(bridge.since)
  {
    r := bridge.Transact([], 0);
  }

  /** A world in which the AP speaks once, between the poll of transaction t (the
      first is 0) and its answer, and nothing else goes wrong. */
  function SpeaksDuring(t: nat): World
  {
    World(_ => Up, _ => 0, _ => Clean, _ => false, i => i == t, _ => false, _ => 0, _ => 1, _ => 0, 1, t + 1)
  }

  /** The bound is reached, for every abort_every: a byte that lands between the poll
      of transaction k and its answer is heard by the poll of transaction 2k. */
  method LateByte(k: nat, chip: Chip) returns (bridge: SpiBridge, last: Result<seq<byte>>)
    requires k >= 1 && chip.Valid()
    ensures bridge.guard == Some(k) && bridge.exposed == k && bridge.since == k - 1
    ensures last == Err(Fatal(ApWoke)) && bridge.txn == 2 * k
  {
    var rig := new Rig(SpeaksDuring(k - 1), chip);
    bridge := new SpiBridge(rig);
    bridge.Arm(k);
    for n := 0 to 2 * k - 1
      invariant bridge.Ready() && bridge.rig == rig && bridge.guard == Some(k) && fresh(bridge) && fresh(rig)
      invariant bridge.txn == n && rig.now.clock == n && (rig.now.ap <==> n >= k)
      invariant bridge.exposed == (if n >= k then n - k + 1 else 0) && bridge.since == (if n > k then n - k else 0)
    {
      OncePast(k, n + 1);
      Answered(bridge);
    }
    OncePast(k, 2 * k);
    last := Heard(bridge);
  }

  /** Between k and 2k there is no other multiple of k. */
  lemma OncePast(k: nat, t: nat)
    requires k >= 1 && t <= 2 * k
    ensures k < t < 2 * k ==> t % k != 0
    ensures t == 2 * k ==> t % k == 0
  {
    if k < t < 2 * k {
      ModUnique(t, k, 1, t - k);
    } else if t == 2 * k {
      ModUnique(t, k, 2, 0);
    }
  }
}
