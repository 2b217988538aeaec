/** Sessions: bring-up, teardown and the factory that arms the AP guard. */
module Sessions {
  import opened Results
  import opened Bench
  import opened Bridge
  import opened Region

  /** A session object exists. */
  function Begin(b: Board): Board
    requires b.ended <= b.begun
  {
    b.(begun := b.begun + 1, peak := Max(b.peak, b.begun + 1 - b.ended))
  }

  /** The AP is parked and silent, the rails are up, and the chip has had seconds to
      finish what it was doing; the bus starts on the budget of session k. */
  function PowerUp(w: World, b: Board, k: nat): Board
  {
    b.(chip := b.chip.(wip := 0, wel := b.chip.wel && b.chip.wip == 0), ap := false, live := w.budget(k))
  }

  function End(b: Board): Board
    requires b.ended < b.begun
  {
    b.(ended := b.ended + 1, live := 0)
  }

  /** The next session's steps before the bridge succeed, and its two RDIDs are smooth. */
  predicate ComesUp(w: World, b: Board)
  {
    w.start(b.begun) == Up && Smooth(w, b.clock) && Smooth(w, b.clock + 1)
  }

  predicate SessionError(e: Error, start: Start)
  {
    if e.Crash? then start == Crashed else e.why in {BringUp, BadRdid, ApWoke, Transfer}
  }

  /** RDID, the guard, the settle time, and RDID again. */
  method Settle(bridge: SpiBridge, ghost f: Frame) returns (r: Result<()>)
    requires bridge.Ready() && bridge.guard == None && bridge.txn == 0
    requires Inside(bridge.rig.world, f, bridge.rig.now) && bridge.rig.now.Idle() && !bridge.rig.now.ap
    modifies bridge, bridge.rig
    ensures bridge.Valid() && Inside(bridge.rig.world, f, bridge.rig.now)
    ensures r.Err? ==> r.error in {Fatal(BadRdid), Fatal(ApWoke), Fatal(Transfer)}
    ensures r.Ok? ==> bridge.Ready() && bridge.guard == Some(512) && bridge.txn == 2
                      && bridge.rig.now.Idle() && bridge.rig.now.clock == old(bridge.rig.now.clock) + 2
                      && old(bridge.rig.now.live) == bridge.rig.now.live + 2
    ensures Smooth(bridge.rig.world, old(bridge.rig.now.clock)) && Smooth(bridge.rig.world, old(bridge.rig.now.clock) + 1) ==>
      && (r.Ok? <==> old(bridge.rig.now.live) >= 2)
      && (r.Ok? ==> !bridge.rig.now.ap)
  {
    var _ :- CheckRdid(bridge, f);
    bridge.Arm(DEFAULT_ABORT_EVERY);
    r := CheckRdid(bridge, f);
  }

  class Session {
    const rig: Rig
    var bridge: SpiBridge?

    constructor (rig: Rig)
      ensures this.rig == rig && bridge == null
    {
      this.rig := rig;
      bridge := null;
    }

    /** `bring_up`: the steps before the bridge, ENABLE, and the two RDIDs. */
    method BringUp() returns (r: Result<()>)
      requires rig.now.Valid()
      modifies this, rig
      ensures Touched(old(rig.now), rig.now, 0, 0)
      ensures rig.now.begun == old(rig.now.begun) + 1 && rig.now.ended == old(rig.now.ended)
      ensures rig.now.peak == Max(old(rig.now.peak), old(rig.now.begun) + 1 - old(rig.now.ended))
      ensures r.Err? ==> SessionError(r.error, rig.world.start(old(rig.now.begun)))
      ensures r.Ok? ==> bridge != null && fresh(bridge) && bridge.rig == rig && bridge.Ready()
                        && bridge.guard == Some(512)
                        && rig.now.Idle() && rig.world.budget(old(rig.now.begun)) == rig.now.live + 2
      ensures ComesUp(rig.world, old(rig.now)) ==>
        && (r.Ok? <==> rig.world.budget(old(rig.now.begun)) >= 2)
        && (r.Ok? ==> !rig.now.ap)
      ensures r.Ok? ==> rig.now.clock == old(rig.now.clock) + 2 && bridge.txn == 2
    {
      ghost var b0 := rig.now;
      var k := rig.now.begun;
      rig.now := Begin(rig.now);
      var start := rig.world.start(k);
      if start != Up {
        return Err(if start == Refused then Fatal(Fault.BringUp) else Crash);
      }
      rig.now := PowerUp(rig.world, rig.now, k);
      ghost var f := Frame(rig.now, 0, 0);
      bridge := new SpiBridge(rig);
      r := Settle(bridge, f);
      TouchedTrans(b0, f.base, rig.now, 0, 0, 0, 0);
    }

    /** `teardown` never raises. */
    method Teardown()
      requires rig.now.Valid() && rig.now.ended < rig.now.begun
      modifies rig
      ensures rig.now == End(old(rig.now)) && rig.now.Valid()
      ensures rig.now.begun - rig.now.ended == old(rig.now.begun - rig.now.ended) - 1
      ensures rig.now.live == 0 && rig.now.chip == old(rig.now.chip) && rig.now.hist == old(rig.now.hist)
    {
      rig.now := End(rig.now);
    }
  }

  /** The factory's `new_session`: a session that is up and armed with abort_every,
      or an error after its teardown. */
  method NewSession(rig: Rig, abortEvery: int) returns (r: Result<Session>)
    requires rig.now.Valid()
    modifies rig
    ensures Touched(old(rig.now), rig.now, 0, 0)
    ensures rig.now.begun == old(rig.now.begun) + 1
    ensures rig.now.ended == old(rig.now.ended) + if r.Ok? then 0 else 1
    ensures rig.now.peak == Max(old(rig.now.peak), old(rig.now.begun) + 1 - old(rig.now.ended))
    ensures r.Err? ==> SessionError(r.error, rig.world.start(old(rig.now.begun)))
    ensures r.Ok? ==>
      var s := r.value;
      && fresh(s) && s.rig == rig && s.bridge != null && fresh(s.bridge) && s.bridge.rig == rig
      && s.bridge.Ready() && s.bridge.guard == Some(abortEvery) && s.bridge.exposed == 0
      && rig.now.Idle() && rig.world.budget(old(rig.now.begun)) == rig.now.live + 2
    ensures ComesUp(rig.world, old(rig.now)) ==>
      && (r.Ok? <==> rig.world.budget(old(rig.now.begun)) >= 2)
      && (r.Ok? ==> !rig.now.ap)
    ensures r.Ok? ==> rig.now.clock == old(rig.now.clock) + 2 && r.value.bridge.txn == 2
  {
    var s := new Session(rig);
    var up := s.BringUp();
    if up.Err? {
      s.Teardown();
      return Err(up.error);
    }
    s.bridge.Arm(abortEvery);
    return Ok(s);
  }
}
